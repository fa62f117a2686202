/** The JavaScript string built-ins the core relies on (`trim`, `endsWith`,
    `replace` with a string pattern, `split`, `toLowerCase`, `toUpperCase`,
    number-to-string in a template literal), restricted to ASCII. */
module JsString {

  /** Characters `trim` removes: the ASCII white space and line terminators. */
  predicate IsSpace(c: char) {
    c == ' ' || c == '\t' || c == '\n' || c == '\r' || c == '\U{B}' || c == '\U{C}'
  }

  /** Every character of `s` is white space (`s` may be empty). */
  predicate AllSpace(s: string) {
    forall k :: 0 <= k < |s| ==> IsSpace(s[k])
  }

  /** The index of the first non-space character at or after `i`, or `|s|`. */
  function SkipSpaces(s: string, i: nat): (k: nat)
    requires i <= |s|
    ensures i <= k <= |s|
    ensures forall m :: i <= m < k ==> IsSpace(s[m])
    ensures k == |s| || !IsSpace(s[k])
    decreases |s| - i
  {
    if i < |s| && IsSpace(s[i]) then SkipSpaces(s, i + 1) else i
  }

  /** The index just past the last non-space character of `s[lo..j]`, or `lo`. */
  function SkipSpacesBack(s: string, lo: nat, j: nat): (k: nat)
    requires lo <= j <= |s|
    ensures lo <= k <= j
    ensures forall m :: k <= m < j ==> IsSpace(s[m])
    ensures k == lo || !IsSpace(s[k - 1])
    decreases j
  {
    if j > lo && IsSpace(s[j - 1]) then SkipSpacesBack(s, lo, j - 1) else j
  }

  /** Where the trimmed text begins. */
  function TrimFrom(s: string): (k: nat)
    ensures k <= |s|
  {
    SkipSpaces(s, 0)
  }

  /** Where the trimmed text ends. */
  function TrimTo(s: string): (k: nat)
    ensures TrimFrom(s) <= k <= |s|
  {
    SkipSpacesBack(s, TrimFrom(s), |s|)
  }

  /** `String.prototype.trim`: leading and trailing white space removed. The
      result is empty exactly when `s` is all white space; otherwise it begins
      and ends with a non-space character. */
  function Trim(s: string): (r: string)
    ensures |r| <= |s|
    ensures r == [] <==> AllSpace(s)
    ensures r != [] ==> !IsSpace(r[0]) && !IsSpace(r[|r| - 1])
  {
    s[TrimFrom(s)..TrimTo(s)]
  }

  /** What `trim` removes is white space. */
  lemma TrimRemovesSpace(s: string)
    ensures AllSpace(s[..TrimFrom(s)]) && AllSpace(s[TrimTo(s)..])
  {
  }

  /** A line is blank when it trims to the empty string (`line.trim() === ""`). */
  predicate IsBlank(s: string) {
    Trim(s) == ""
  }

  /** A string without leading or trailing white space is its own trim. */
  lemma TrimOfTrimmed(s: string)
    requires s == [] || (!IsSpace(s[0]) && !IsSpace(s[|s| - 1]))
    ensures Trim(s) == s
  {
    assert TrimFrom(s) == 0;
    assert TrimTo(s) == |s|;
    assert s[0..|s|] == s;
  }

  /** `trim` is idempotent. */
  lemma TrimIdempotent(s: string)
    ensures Trim(Trim(s)) == Trim(s)
  {
    TrimOfTrimmed(Trim(s));
  }

  /** `s.endsWith(":")` for a one-character suffix. */
  predicate EndsWith(s: string, c: char) {
    |s| > 0 && s[|s| - 1] == c
  }

  /** `s.replace(c, "")` with a one-character string pattern: only the FIRST
      occurrence of `c` is removed; without one, `s` comes back unchanged. */
  function ReplaceFirst(s: string, c: char): (r: string)
    ensures c !in s ==> r == s
    ensures c in s ==> |r| == |s| - 1
  {
    if s == [] then []
    else if s[0] == c then s[1..]
    else
      assert c !in s ==> c !in s[1..];
      assert c in s ==> c in s[1..];
      [s[0]] + ReplaceFirst(s[1..], c)
  }

  /** A prefix free of `c` survives `ReplaceFirst`, and the first `c` after it is what goes. */
  lemma {:induction false} ReplaceFirstAt(s: string, c: char, i: nat)
    requires i < |s| && s[i] == c && c !in s[..i]
    ensures ReplaceFirst(s, c) == s[..i] + s[i + 1..]
  {
    var t := s[1..];
    if i > 0 {
      assert s[..i][0] == s[0];
      assert s[0] != c;
      assert t[..i - 1] == s[1..i];
      var u, v := t[..i - 1], s[..i];
      assert c !in u by {
        forall m | 0 <= m < |u| ensures u[m] != c {
          assert u[m] == v[m + 1];
        }
      }
      ReplaceFirstAt(t, c, i - 1);
      assert t[i..] == s[i + 1..];
      assert [s[0]] + t[..i - 1] == s[..i];
    } else {
      assert s[..0] + s[1..] == s[1..];
    }
  }

  /** `s.split(sep)`: the pieces between separators, in order. There is always
      at least one piece (`"".split("\n")` is `[""]`). */
  function Split(s: string, sep: char): (r: seq<string>)
    ensures |r| >= 1
    decreases |s|
  {
    if s == [] then [""]
    else
      var rest := Split(s[1..], sep);
      if s[0] == sep then [""] + rest
      else [[s[0]] + rest[0]] + rest[1..]
  }

  /** No piece holds the separator. */
  lemma {:induction false} SplitPiecesNoSep(s: string, sep: char)
    ensures forall i :: 0 <= i < |Split(s, sep)| ==> sep !in Split(s, sep)[i]
    decreases |s|
  {
    if s != [] {
      SplitPiecesNoSep(s[1..], sep);
    }
  }

  /** A string without the separator is a single piece. */
  lemma {:induction false} SplitNoSep(s: string, sep: char)
    requires sep !in s
    ensures Split(s, sep) == [s]
    decreases |s|
  {
    if s != [] {
      assert sep !in s[1..];
      SplitNoSep(s[1..], sep);
      assert s == [s[0]] + s[1..];
    }
  }

  /** Splitting at a separator splits the two sides independently. */
  lemma {:induction false} SplitConcat(a: string, sep: char, b: string)
    ensures Split(a + [sep] + b, sep) == Split(a, sep) + Split(b, sep)
    decreases |a|
  {
    if a == [] {
      assert a + [sep] + b == [sep] + b;
      assert ([sep] + b)[1..] == b;
    } else {
      assert (a + [sep] + b)[1..] == a[1..] + [sep] + b;
      SplitConcat(a[1..], sep, b);
      if a[0] == sep {
      } else {
        var ra, rb := Split(a[1..], sep), Split(b, sep);
        assert (ra + rb)[0] == ra[0];
        assert (ra + rb)[1..] == ra[1..] + rb;
      }
    }
  }

  /** Every piece of the split of `s` is non-blank: `s` has no blank line. */
  predicate NoBlankLine(s: string) {
    var lines := Split(s, '\n');
    forall i :: 0 <= i < |lines| ==> !IsBlank(lines[i])
  }

  /** Two texts without blank lines, joined by a newline, have no blank line. */
  lemma JoinNoBlankLine(a: string, b: string)
    requires NoBlankLine(a) && NoBlankLine(b)
    ensures NoBlankLine(a + "\n" + b)
  {
    SplitConcat(a, '\n', b);
  }

  /** A single non-blank line has no blank line. */
  lemma LineNoBlankLine(l: string)
    requires '\n' !in l && !IsBlank(l)
    ensures NoBlankLine(l)
  {
    SplitNoSep(l, '\n');
  }

  /** A text without blank lines is not blank. */
  lemma NoBlankLineNotBlank(s: string)
    requires NoBlankLine(s)
    ensures !IsBlank(s)
  {
    if AllSpace(s) {
      AllSpaceFirstPiece(s);
    }
  }

  /** Helper: the first piece of an all-space string is all space. */
  lemma {:induction false} AllSpaceFirstPiece(s: string)
    requires AllSpace(s)
    ensures AllSpace(Split(s, '\n')[0])
    decreases |s|
  {
    if s != [] && s[0] != '\n' {
      assert AllSpace(s[1..]);
      AllSpaceFirstPiece(s[1..]);
    }
  }

  /** Removing one leading space character keeps "no blank line". */
  lemma NoBlankLineTail(s: string)
    requires NoBlankLine(s) && s != [] && IsSpace(s[0])
    ensures NoBlankLine(s[1..])
  {
    var lines, rest := Split(s, '\n'), Split(s[1..], '\n');
    assert s[0] != '\n';
    assert lines == [[s[0]] + rest[0]] + rest[1..];
    forall i | 0 <= i < |rest| ensures !IsBlank(rest[i]) {
      if i == 0 {
        assert !AllSpace(lines[0]);
        var k :| 0 <= k < |lines[0]| && !IsSpace(lines[0][k]);
        assert rest[0][k - 1] == lines[0][k];
      } else {
        assert rest[i] == lines[i];
      }
    }
  }

  /** Dropping an all-space prefix keeps "no blank line". */
  lemma {:induction false} DropSpacePrefix(s: string, a: nat)
    requires NoBlankLine(s) && a <= |s| && AllSpace(s[..a])
    ensures NoBlankLine(s[a..])
    decreases a
  {
    if a > 0 {
      assert IsSpace(s[..a][0]);
      NoBlankLineTail(s);
      var t := s[1..];
      var u, v := t[..a - 1], s[..a];
      assert AllSpace(u) by {
        forall m | 0 <= m < |u| ensures IsSpace(u[m]) {
          assert u[m] == v[m + 1];
        }
      }
      DropSpacePrefix(t, a - 1);
      assert t[a - 1..] == s[a..];
    }
  }

  /** `q` is `r` with the character `c` added to its last piece. */
  predicate LastPieceExtended(r: seq<string>, q: seq<string>, c: char) {
    |r| >= 1 && |q| == |r| && (forall i :: 0 <= i < |r| - 1 ==> q[i] == r[i]) && q[|r| - 1] == r[|r| - 1] + [c]
  }

  /** Appending a non-separator character extends the last piece. */
  lemma {:induction false} SplitSnoc(s: string, c: char, sep: char)
    requires c != sep
    ensures LastPieceExtended(Split(s, sep), Split(s + [c], sep), c)
    decreases |s|
  {
    if s == [] {
      assert s + [c] == [c];
      assert Split([c], sep) == [[c] + Split([], sep)[0]] + Split([], sep)[1..];
    } else {
      assert (s + [c])[0] == s[0];
      assert (s + [c])[1..] == s[1..] + [c];
      SplitSnoc(s[1..], c, sep);
      var r', q' := Split(s[1..], sep), Split(s[1..] + [c], sep);
      if s[0] == sep {
        ExtendedAfterEmpty(r', q', c);
      } else {
        ExtendedAfterChar(r', q', c, s[0]);
      }
    }
  }

  /** Helper for SplitSnoc: a leading separator adds an empty first piece to both. */
  lemma ExtendedAfterEmpty(r: seq<string>, q: seq<string>, c: char)
    requires LastPieceExtended(r, q, c)
    ensures LastPieceExtended([""] + r, [""] + q, c)
  {
    var r2, q2 := [""] + r, [""] + q;
    forall i | 0 <= i < |r2| - 1 ensures q2[i] == r2[i] {
      if i > 0 { assert q2[i] == q[i - 1] && r2[i] == r[i - 1]; }
    }
  }

  /** Helper for SplitSnoc: a leading non-separator joins the first piece of both. */
  lemma ExtendedAfterChar(r: seq<string>, q: seq<string>, c: char, d: char)
    requires LastPieceExtended(r, q, c)
    ensures LastPieceExtended([[d] + r[0]] + r[1..], [[d] + q[0]] + q[1..], c)
  {
    var r2, q2 := [[d] + r[0]] + r[1..], [[d] + q[0]] + q[1..];
    forall i | 0 <= i < |r2| - 1 ensures q2[i] == r2[i] {
      if i > 0 { assert q2[i] == q[i] && r2[i] == r[i]; }
    }
    if |r| == 1 {
      assert q2[0] == [d] + (r[0] + [c]) == ([d] + r[0]) + [c];
    } else {
      assert q2[|r| - 1] == q[|r| - 1] && r2[|r| - 1] == r[|r| - 1];
    }
  }

  /** Removing one trailing space character keeps "no blank line". */
  lemma NoBlankLineInit(s: string)
    requires NoBlankLine(s) && s != [] && IsSpace(s[|s| - 1])
    ensures NoBlankLine(s[..|s| - 1])
  {
    var p, c := s[..|s| - 1], s[|s| - 1];
    assert s == p + [c];
    if c == '\n' {
      LastPieceAfterSep(p, '\n');
    }
    SplitSnoc(p, c, '\n');
    var r, q := Split(p, '\n'), Split(s, '\n');
    forall i | 0 <= i < |r| ensures !IsBlank(r[i]) {
      if i < |r| - 1 {
        assert q[i] == r[i];
      } else {
        NotAllSpaceSnoc(r[i], c);
      }
    }
  }

  /** Helper: a text ending in the separator has an empty last piece. */
  lemma LastPieceAfterSep(p: string, sep: char)
    ensures var q := Split(p + [sep], sep); q[|q| - 1] == ""
  {
    SplitConcat(p, sep, "");
    assert p + [sep] + "" == p + [sep];
  }

  /** Helper: a trailing space character does not make a text non-blank. */
  lemma NotAllSpaceSnoc(x: string, c: char)
    requires IsSpace(c) && !AllSpace(x + [c])
    ensures !AllSpace(x)
  {
    var k :| 0 <= k < |x + [c]| && !IsSpace((x + [c])[k]);
    assert k < |x| && x[k] == (x + [c])[k];
  }

  /** Dropping an all-space suffix keeps "no blank line". */
  lemma {:induction false} DropSpaceSuffix(s: string, b: nat)
    requires NoBlankLine(s) && b <= |s| && AllSpace(s[b..])
    ensures NoBlankLine(s[..b])
    decreases |s| - b
  {
    if b < |s| {
      assert IsSpace(s[b..][|s| - 1 - b]);
      NoBlankLineInit(s);
      var t := s[..|s| - 1];
      assert AllSpace(t[b..]) by {
        forall m | 0 <= m < |t| - b ensures IsSpace(t[b..][m]) {
          assert t[b..][m] == s[b..][m];
        }
      }
      DropSpaceSuffix(t, b);
      assert t[..b] == s[..b];
    } else {
      assert s[..b] == s;
    }
  }

  /** `trim` keeps "no blank line". */
  lemma TrimNoBlankLine(s: string)
    requires NoBlankLine(s)
    ensures NoBlankLine(Trim(s))
  {
    var a, b := TrimFrom(s), TrimTo(s);
    TrimRemovesSpace(s);
    DropSpacePrefix(s, a);
    var t := s[a..];
    var u, v := t[b - a..], s[b..];
    assert AllSpace(u) by {
      forall m | 0 <= m < |u| ensures IsSpace(u[m]) {
        assert u[m] == v[m];
      }
    }
    DropSpaceSuffix(t, b - a);
    assert t[..b - a] == Trim(s);
  }

  /** `SkipSpaces` looks no further than the first non-space character. */
  lemma {:induction false} SkipSpacesPrefix(s: string, t: string, i: nat)
    requires i <= |s| <= |t| && t[..|s|] == s && SkipSpaces(s, i) < |s|
    ensures SkipSpaces(t, i) == SkipSpaces(s, i)
    decreases |s| - i
  {
    assert t[i] == t[..|s|][i];
    if IsSpace(s[i]) {
      SkipSpacesPrefix(s, t, i + 1);
    }
  }

  /** `SkipSpacesBack` looks only below its upper index. */
  lemma {:induction false} SkipSpacesBackPrefix(s: string, t: string, lo: nat, j: nat)
    requires lo <= j <= |s| <= |t| && t[..|s|] == s
    ensures SkipSpacesBack(t, lo, j) == SkipSpacesBack(s, lo, j)
    decreases j
  {
    if j > lo {
      assert t[j - 1] == t[..|s|][j - 1];
      SkipSpacesBackPrefix(s, t, lo, j - 1);
    }
  }

  /** A final newline after a non-blank text disappears under `trim`. */
  lemma TrimDropsFinalNewline(j: string)
    requires !IsBlank(j)
    ensures Trim(j + "\n") == Trim(j)
  {
    var t := j + "\n";
    assert t[..|j|] == j;
    SkipSpacesPrefix(j, t, 0);
    var a := TrimFrom(j);
    assert TrimFrom(t) == a;
    assert SkipSpacesBack(t, a, |t|) == SkipSpacesBack(t, a, |j|);
    SkipSpacesBackPrefix(j, t, a, |j|);
    assert TrimTo(t) == TrimTo(j);
    assert t[a..TrimTo(j)] == j[a..TrimTo(j)];
  }

  predicate IsAsciiUpper(c: char) { 'A' <= c <= 'Z' }
  predicate IsAsciiLower(c: char) { 'a' <= c <= 'z' }

  /** `toLowerCase` on one ASCII character. */
  function LowerChar(c: char): (d: char)
    ensures !IsAsciiUpper(d)
    ensures IsAsciiUpper(c) ==> d as int == c as int + 32
    ensures !IsAsciiUpper(c) ==> d == c
  {
    if IsAsciiUpper(c) then (c as int + 32) as char else c
  }

  /** `toUpperCase` on one ASCII character. */
  function UpperChar(c: char): (d: char)
    ensures !IsAsciiLower(d)
    ensures IsAsciiLower(c) ==> d as int == c as int - 32
    ensures !IsAsciiLower(c) ==> d == c
  {
    if IsAsciiLower(c) then (c as int - 32) as char else c
  }

  /** `String.prototype.toLowerCase`. */
  function ToLower(s: string): (r: string)
    ensures |r| == |s|
    ensures forall i :: 0 <= i < |s| ==> r[i] == LowerChar(s[i])
  {
    seq(|s|, i requires 0 <= i < |s| => LowerChar(s[i]))
  }

  /** A decimal digit character. */
  function DigitChar(d: nat): (c: char)
    requires d < 10
    ensures '0' <= c <= '9' && c as int - '0' as int == d
  {
    ('0' as int + d) as char
  }

  /** The decimal text of a non-negative integer, as `${n}` produces it. */
  function Decimal(n: nat): (r: string)
    ensures |r| >= 1
    ensures forall k :: 0 <= k < |r| ==> '0' <= r[k] <= '9'
    ensures (|r| == 1) == (n < 10)
  {
    if n < 10 then [DigitChar(n)] else Decimal(n / 10) + [DigitChar(n % 10)]
  }

  /** Different numbers have different decimal texts. */
  lemma {:induction false} DecimalInjective(m: nat, n: nat)
    requires Decimal(m) == Decimal(n)
    ensures m == n
    decreases m
  {
    if m >= 10 && n >= 10 {
      var dm, dn := Decimal(m), Decimal(n);
      assert dm[|dm| - 1] == dn[|dn| - 1];
      assert m % 10 == n % 10;
      assert dm[..|dm| - 1] == Decimal(m / 10);
      assert dn[..|dn| - 1] == Decimal(n / 10);
      DecimalInjective(m / 10, n / 10);
    }
  }
}
