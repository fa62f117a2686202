/** The colour of a section's title: the label is lower-cased, every word
    character that starts a word is upper-cased (the regular expression
    `/\b\w/g`), and the result is looked up in a fixed table of fifteen
    languages, falling back to grey. */
module LanguageColor {
  import opened JsString

  // ---------------------------------------------------------------------------
  // Title casing

  /** A character of the regular-expression class `\w`: `[A-Za-z0-9_]`. */
  predicate IsWordChar(c: char) {
    IsAsciiUpper(c) || IsAsciiLower(c) || ('0' <= c <= '9') || c == '_'
  }

  predicate IsAsciiLetter(c: char) {
    IsAsciiUpper(c) || IsAsciiLower(c)
  }

  /** Position `i` of `s` follows a word boundary: it is first, or the
      character before it is not a word character. */
  predicate StartsWord(s: string, i: nat)
    requires i < |s|
  {
    i == 0 || !IsWordChar(s[i - 1])
  }

  /** `s.replace(/\b\w/g, c => c.toUpperCase())`: a word character right after
      a word boundary is upper-cased, every other character is kept. */
  function CapitalizeWords(s: string): (r: string)
    ensures |r| == |s|
  {
    seq(|s|, i requires 0 <= i < |s| =>
      if IsWordChar(s[i]) && StartsWord(s, i) then UpperChar(s[i]) else s[i])
  }

  /** Lower-casing does not change which characters are word characters. */
  lemma LowerKeepsWordChar(c: char)
    ensures IsWordChar(LowerChar(c)) == IsWordChar(c)
    ensures IsAsciiLetter(LowerChar(c)) == IsAsciiLetter(c)
  {
  }

  /** Two characters with the same lower-case form and the same case are equal. */
  lemma SameLowerSameCase(a: char, b: char)
    requires LowerChar(a) == LowerChar(b) && IsAsciiUpper(a) == IsAsciiUpper(b)
    ensures a == b
  {
  }

  /** The key a label is looked up under: lower-cased, then title-cased.
      Only the case of letters changes, and a character comes out upper case
      exactly when it is a letter at the start of a word of the label. */
  function Normalize(lang: string): (r: string)
    ensures |r| == |lang|
    ensures forall i :: 0 <= i < |r| ==> LowerChar(r[i]) == LowerChar(lang[i])
    ensures forall i :: 0 <= i < |r| ==>
      (IsAsciiUpper(r[i]) <==> IsAsciiLetter(lang[i]) && StartsWord(lang, i))
  {
    var low := ToLower(lang);
    var r := CapitalizeWords(low);
    assert forall i :: 0 <= i < |r| ==>
      r[i] == if IsWordChar(low[i]) && StartsWord(low, i) then UpperChar(low[i]) else low[i];
    forall i | 0 <= i < |r|
      ensures LowerChar(r[i]) == LowerChar(lang[i])
      ensures IsAsciiUpper(r[i]) <==> IsAsciiLetter(lang[i]) && StartsWord(lang, i)
    {
      LowerKeepsWordChar(lang[i]);
      if i > 0 {
        LowerKeepsWordChar(lang[i - 1]);
      }
    }
    r
  }

  /** The lower-case form of the key is the lower-case form of the label. */
  lemma NormalizeToLower(lang: string)
    ensures ToLower(Normalize(lang)) == ToLower(lang)
  {
  }

  /** Title casing an already normalised key gives it back. */
  lemma NormalizeIdempotent(lang: string)
    ensures Normalize(Normalize(lang)) == Normalize(lang)
  {
    var n := Normalize(lang);
    var m := Normalize(n);
    forall i | 0 <= i < |n|
      ensures m[i] == n[i]
    {
      LowerKeepsWordChar(lang[i]);
      LowerKeepsWordChar(n[i]);
      if i > 0 {
        LowerKeepsWordChar(lang[i - 1]);
        LowerKeepsWordChar(n[i - 1]);
        assert IsWordChar(n[i - 1]) == IsWordChar(lang[i - 1]);
      }
      assert StartsWord(n, i) == StartsWord(lang, i);
      SameLowerSameCase(m[i], n[i]);
    }
  }

  /** A key is the normal form of some label exactly when title casing leaves it unchanged. */
  lemma ReachableIffNormal(key: string)
    ensures (exists lang :: Normalize(lang) == key) <==> Normalize(key) == key
  {
    if exists lang :: Normalize(lang) == key {
      var lang :| Normalize(lang) == key;
      NormalizeIdempotent(lang);
    }
  }

  /** A key whose first character is a lower-case letter is never produced. */
  lemma LowerFirstUnreachable(lang: string, key: string)
    requires key != [] && IsAsciiLower(key[0])
    ensures Normalize(lang) != key
  {
    if |Normalize(lang)| == |key| {
      var r := Normalize(lang);
      LowerKeepsWordChar(lang[0]);
      LowerKeepsWordChar(key[0]);
      if IsAsciiLetter(lang[0]) {
        assert IsAsciiUpper(r[0]);
      } else {
        assert LowerChar(r[0]) == LowerChar(lang[0]);
        assert !IsAsciiLetter(LowerChar(r[0]));
      }
    }
  }

  /** A key with an upper-case letter right after a word character is never produced. */
  lemma InnerCapitalUnreachable(lang: string, key: string, i: nat)
    requires 0 < i < |key| && IsWordChar(key[i - 1]) && IsAsciiUpper(key[i])
    ensures Normalize(lang) != key
  {
    if |Normalize(lang)| == |key| {
      var r := Normalize(lang);
      LowerKeepsWordChar(lang[i - 1]);
      LowerKeepsWordChar(r[i - 1]);
      assert IsWordChar(r[i - 1]) == IsWordChar(lang[i - 1]);
      assert IsWordChar(r[i - 1]) ==> !IsAsciiUpper(r[i]);
    }
  }

  // ---------------------------------------------------------------------------
  // The colour table

  const Gray := "text-gray-600"

  /** The fifteen-entry colour table, keyed by title-cased language name. */
  const ColorMap: map<string, string> := map[
    "HTML" := "text-orange-600",
    "CSS" := "text-blue-600",
    "JavaScript" := "text-yellow-600",
    "Java" := "text-red-600",
    "Python" := "text-green-600",
    "TypeScript" := "text-blue-600",
    "PHP" := "text-purple-600",
    "SQL" := "text-cyan-600",
    "Ruby" := "text-red-500",
    "C++" := "text-pink-600",
    "C#" := "text-violet-600",
    "Go" := "text-cyan-500",
    "Rust" := "text-orange-500",
    "Swift" := "text-orange-600",
    "Kotlin" := "text-purple-500"
  ]

  /** The colour class for a section label: the table's value for the
      normalised label, or grey when the table has no such key as its own
      entry. Every value in the table is a non-empty string, so the `||`
      fallback only ever replaces a missing entry. */
  function GetLanguageColor(language: string): (r: string)
    ensures r in ColorMap.Values || r == Gray
    ensures r == Gray <==> Normalize(language) !in ColorMap
    ensures Normalize(language) in ColorMap ==> r == ColorMap[Normalize(language)]
  {
    var key := Normalize(language);
    if key in ColorMap then ColorMap[key] else Gray
  }

  /** A key already in title case, each letter upper case exactly at a word start, is its own normal form. */
  lemma NormalFixedPoint(key: string)
    requires forall i :: 0 <= i < |key| ==>
      (IsAsciiUpper(key[i]) <==> IsAsciiLetter(key[i]) && StartsWord(key, i))
    ensures Normalize(key) == key
  {
    var r := Normalize(key);
    forall i | 0 <= i < |key|
      ensures r[i] == key[i]
    {
      SameLowerSameCase(r[i], key[i]);
    }
  }

  /** Labels that differ only in the case of their letters get the same colour. */
  lemma CaseInsensitive(a: string, b: string)
    requires |a| == |b| && forall i :: 0 <= i < |a| ==> LowerChar(a[i]) == LowerChar(b[i])
    ensures Normalize(a) == Normalize(b)
    ensures GetLanguageColor(a) == GetLanguageColor(b)
  {
    assert ToLower(a) == ToLower(b);
  }

  /** The normal form depends only on the lower-case form of the label. */
  lemma SameLowerSameKey(a: string, b: string)
    requires ToLower(a) == ToLower(b)
    ensures Normalize(a) == Normalize(b)
  {
    CaseInsensitive(a, b);
  }

  /** Six of the table's keys have an upper-case letter inside a word, so no
      label is ever normalised to them. */
  lemma UnreachableKeys(lang: string)
    ensures Normalize(lang) !in {"HTML", "CSS", "JavaScript", "TypeScript", "PHP", "SQL"}
  {
    InnerCapitalUnreachable(lang, "HTML", 1);
    InnerCapitalUnreachable(lang, "CSS", 1);
    InnerCapitalUnreachable(lang, "JavaScript", 4);
    InnerCapitalUnreachable(lang, "TypeScript", 4);
    InnerCapitalUnreachable(lang, "PHP", 1);
    InnerCapitalUnreachable(lang, "SQL", 1);
  }

  /** Labels spelled like `HTML` or `JavaScript`, in any case, fall back to grey. */
  lemma UnreachableKeysGray(lang: string)
    requires ToLower(lang) in {"html", "css", "javascript", "typescript", "php", "sql"}
    ensures GetLanguageColor(lang) == Gray
  {
    UnreachableKeys(lang);
    NormalizeToLower(lang);
    var key := Normalize(lang);
    assert ToLower(key) == ToLower(lang);
    assert key !in ColorMap by {
      LowerOfKeys();
    }
  }

  /** The lower-case forms of the table's keys. */
  lemma LowerOfKeys()
    ensures ToLower("Java") == "java" && ToLower("Python") == "python"
    ensures ToLower("Ruby") == "ruby" && ToLower("C++") == "c++" && ToLower("C#") == "c#"
    ensures ToLower("Go") == "go" && ToLower("Rust") == "rust" && ToLower("Swift") == "swift"
    ensures ToLower("Kotlin") == "kotlin"
  {
  }

  /** The colours only those six keys carry are never shown. */
  lemma ColorsNeverShown(lang: string)
    ensures GetLanguageColor(lang) !in {"text-blue-600", "text-yellow-600", "text-purple-600", "text-cyan-600"}
  {
    UnreachableKeys(lang);
  }

  /** `java`, in any case, is red. */
  lemma JavaIsRed(lang: string)
    requires ToLower(lang) == "java"
    ensures GetLanguageColor(lang) == "text-red-600"
  {
    var key := "Java";
    LowerOfKeys();
    SameLowerSameKey(lang, key);
    NormalFixedPoint(key);
  }

  /** `c++`, in any case, is pink. */
  lemma CppIsPink(lang: string)
    requires ToLower(lang) == "c++"
    ensures GetLanguageColor(lang) == "text-pink-600"
  {
    var key := "C++";
    LowerOfKeys();
    SameLowerSameKey(lang, key);
    NormalFixedPoint(key);
  }

  // ---------------------------------------------------------------------------
  // The lookup as JavaScript evaluates it

  /** The properties every object literal inherits from `Object.prototype`. */
  const ObjectPrototypeMembers: set<string> := {
    "constructor", "hasOwnProperty", "isPrototypeOf", "propertyIsEnumerable",
    "toLocaleString", "toString", "valueOf", "__defineGetter__", "__defineSetter__",
    "__lookupGetter__", "__lookupSetter__", "__proto__"
  }

  /** What `colorMap[formattedLang] || "text-gray-600"` evaluates to: a colour
      string, or, for a key the literal inherits, that inherited member (a
      function, or for `__proto__` the prototype object itself), which is
      truthy and so is not replaced by the fallback. */
  datatype ColorValue = ColorString(color: string) | PrototypeValue(member: string)

  /** The lookup as written: an indexing expression on an ordinary object
      literal also finds the members inherited from `Object.prototype`. */
  function GetLanguageColorAsWritten(language: string): (r: ColorValue)
    ensures r.PrototypeValue? ==> r.member in ObjectPrototypeMembers && r.member == Normalize(language)
    ensures r.ColorString? ==> r.color == GetLanguageColor(language)
  {
    var key := Normalize(language);
    if key in ColorMap then ColorString(ColorMap[key])
    else if key in ObjectPrototypeMembers then PrototypeValue(key)
    else ColorString(Gray)
  }

  /** Of the inherited names, only `__proto__` is ever a normalised label. */
  lemma OnlyProtoReachable(lang: string)
    ensures Normalize(lang) in ObjectPrototypeMembers ==> Normalize(lang) == "__proto__"
  {
    LowerFirstUnreachable(lang, "constructor");
    LowerFirstUnreachable(lang, "hasOwnProperty");
    LowerFirstUnreachable(lang, "isPrototypeOf");
    LowerFirstUnreachable(lang, "propertyIsEnumerable");
    LowerFirstUnreachable(lang, "toLocaleString");
    LowerFirstUnreachable(lang, "toString");
    LowerFirstUnreachable(lang, "valueOf");
    InnerCapitalUnreachable(lang, "__defineGetter__", 8);
    InnerCapitalUnreachable(lang, "__defineSetter__", 8);
    InnerCapitalUnreachable(lang, "__lookupGetter__", 8);
    InnerCapitalUnreachable(lang, "__lookupSetter__", 8);
  }

  /** The lookup as written agrees with the own-entry lookup on every label
      except those spelled `__proto__`. */
  lemma AsWrittenAgreesElsewhere(lang: string)
    requires ToLower(lang) != "__proto__"
    ensures GetLanguageColorAsWritten(lang) == ColorString(GetLanguageColor(lang))
  {
    OnlyProtoReachable(lang);
    NormalizeToLower(lang);
    assert ToLower("__proto__") == "__proto__";
    assert Normalize(lang) != "__proto__";
  }

  /** A section labelled `__proto__:` gets the prototype object, not a colour
      class, from the lookup as written, and grey from the own-entry lookup. */
  lemma ProtoLabelLeaks(lang: string)
    requires ToLower(lang) == "__proto__"
    ensures GetLanguageColorAsWritten(lang) == PrototypeValue("__proto__")
    ensures GetLanguageColor(lang) == Gray
  {
    var key := "__proto__";
    assert ToLower(key) == key;
    SameLowerSameKey(lang, key);
    NormalFixedPoint(key);
  }
}
