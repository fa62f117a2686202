/** The rendering of parsed sections: one card per section, in order, keyed by
    the section's label and its position (`${type}-${index}`), titled by the
    label in the label's colour and showing the section's content. */
module CodeDisplay {
  import opened JsString
  import opened CodeSections
  import opened LanguageColor

  /** One rendered card: its React key, its title text, the colour class of the
      title, and the code shown in its body. */
  datatype Card = Card(key: string, title: string, titleColor: string, code: string)

  /** The React key of the card at position `index`. */
  function CardKey(sectionType: string, index: nat): string {
    sectionType + "-" + Decimal(index)
  }

  /** The text `${getLanguageColor(section.type)}` puts into the title's class:
      a colour string itself and the prototype object as `[object Object]`.
      Every other inherited member is unreachable (`OnlyProtoReachable`), so
      its text is left as the empty string. */
  function ClassText(v: ColorValue): string {
    match v
    case ColorString(c) => c
    case PrototypeValue(m) => if m == "__proto__" then "[object Object]" else ""
  }

  /** `sections.map((section, index) => <Card …/>)`, with the colour looked up
      as the source looks it up. */
  function Render(sections: seq<CodeSection>): (cards: seq<Card>)
    ensures |cards| == |sections|
    ensures forall i :: 0 <= i < |cards| ==>
      cards[i].title == sections[i].sectionType && cards[i].code == sections[i].content
  {
    seq(|sections|, i requires 0 <= i < |sections| =>
      Card(CardKey(sections[i].sectionType, i), sections[i].sectionType,
           ClassText(GetLanguageColorAsWritten(sections[i].sectionType)), sections[i].content))
  }

  /** A card's colour is the own-entry colour of its section's label, except
      for a label spelled `__proto__`, whose class gets `[object Object]`. */
  lemma RenderedColor(sections: seq<CodeSection>, i: nat)
    requires i < |sections|
    ensures var t := sections[i].sectionType;
      Render(sections)[i].titleColor == if ToLower(t) == "__proto__" then "[object Object]" else GetLanguageColor(t)
  {
    var t := sections[i].sectionType;
    if ToLower(t) == "__proto__" {
      ProtoLabelLeaks(t);
    } else {
      AsWrittenAgreesElsewhere(t);
    }
  }

  /** A key ends in the decimal text of its index, after the last `-`, so the
      key determines the index whatever the label contains. */
  lemma KeyDeterminesIndex(t: string, n: nat, u: string, m: nat)
    requires CardKey(t, n) == CardKey(u, m)
    ensures n == m
  {
    var a, b := Decimal(n), Decimal(m);
    var k := CardKey(t, n);
    assert k == t + "-" + a;
    assert k == u + "-" + b;
    assert k[|k| - |a| - 1] == '-';
    assert k[|k| - |b| - 1] == '-';
    assert forall q :: |k| - |b| <= q < |k| ==> k[q] == b[q - (|k| - |b|)];
    assert forall q :: |k| - |a| <= q < |k| ==> k[q] == a[q - (|k| - |a|)];
    assert |b| <= |a|;
    assert |a| <= |b|;
    assert a == k[|k| - |a|..] == b;
    DecimalInjective(n, m);
  }

  /** No two cards share a key. */
  lemma KeysDistinct(sections: seq<CodeSection>)
    ensures forall i, j :: 0 <= i < j < |Render(sections)| ==> Render(sections)[i].key != Render(sections)[j].key
  {
    var cards := Render(sections);
    forall i, j | 0 <= i < j < |cards|
      ensures cards[i].key != cards[j].key
    {
      if cards[i].key == cards[j].key {
        KeyDeterminesIndex(sections[i].sectionType, i, sections[j].sectionType, j);
      }
    }
  }

  /** The cards of a parsed answer show its sections' labels and contents in
      order: well-formed sections make cards with a non-empty title and code. */
  lemma RenderedAnswer(text: string)
    ensures forall i :: 0 <= i < |Render(Parse(text))| ==>
      Render(Parse(text))[i].title != "" && Render(Parse(text))[i].code != ""
  {
    ParseWellFormed(text);
  }
}
