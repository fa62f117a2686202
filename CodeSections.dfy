/** `parseCodeSections` of app/Code.tsx: a single pass over the lines of the
    answer text that keeps an accumulator (`currentSection`) and an open label
    (`currentType`) and pushes `{type, content}` records as it goes. */
module CodeSections {
  import opened JsString

  /** One `{type, content}` record; the source's `type` field is `sectionType` here. */
  datatype CodeSection = CodeSection(sectionType: string, content: string)

  /** The loop's state: the sections pushed so far, `currentSection` and `currentType`. */
  datatype ParserState = ParserState(sections: seq<CodeSection>, currentSection: string, currentType: string)

  /** The state before the first line. */
  const Start := ParserState([], "", "")

  /** `line.trim().endsWith(":")`: the line looks like a label. */
  predicate LooksLikeLabel(line: string) {
    EndsWith(Trim(line), ':')
  }

  /** The label a label line opens: the trimmed line with its first `:` removed. */
  function LabelOf(line: string): string {
    ReplaceFirst(Trim(line), ':')
  }

  /** The section a non-blank accumulator would be pushed as. */
  function SectionOf(st: ParserState): CodeSection {
    CodeSection(st.currentType, Trim(st.currentSection))
  }

  /** One iteration of the `for` loop (its three branches in source order). */
  function Step(st: ParserState, line: string): ParserState {
    if LooksLikeLabel(line) && Trim(st.currentSection) == "" then
      st.(currentType := LabelOf(line), currentSection := "")
    else if Trim(line) == "" && st.currentType != "" then
      var pushed := if Trim(st.currentSection) != "" then st.sections + [SectionOf(st)] else st.sections;
      ParserState(pushed, "", "")
    else
      st.(currentSection := st.currentSection + line + "\n")
  }

  /** The loop run over `lines` from state `st`. */
  function Run(st: ParserState, lines: seq<string>): ParserState
    decreases |lines|
  {
    if lines == [] then st else Step(Run(st, lines[..|lines| - 1]), lines[|lines| - 1])
  }

  /** The push after the loop: the last section, if its label is open and its content non-blank. */
  function Finish(st: ParserState): seq<CodeSection> {
    if Trim(st.currentSection) != "" && st.currentType != "" then st.sections + [SectionOf(st)]
    else st.sections
  }

  /** The sections parsed from a list of lines. */
  function ParseLines(lines: seq<string>): seq<CodeSection> {
    Finish(Run(Start, lines))
  }

  /** The sections parsed from the answer text, split at `\n`. */
  function Parse(text: string): seq<CodeSection> {
    ParseLines(Split(text, '\n'))
  }

  /** `parseCodeSections`, as the loop the source runs. */
  method ParseCodeSections(text: string) returns (sections: seq<CodeSection>)
    ensures sections == Parse(text)
    ensures forall i :: 0 <= i < |sections| ==> WellFormed(sections[i])
    ensures 2 * |sections| <= |Split(text, '\n')|
  {
    sections := [];
    var currentSection := "";
    var currentType := "";
    var lines := Split(text, '\n');
    for i := 0 to |lines|
      invariant ParserState(sections, currentSection, currentType) == Run(Start, lines[..i])
    {
      var line := lines[i];
      if EndsWith(Trim(line), ':') && Trim(currentSection) == "" {
        currentType := ReplaceFirst(Trim(line), ':');
        currentSection := "";
      } else if Trim(line) == "" && currentType != "" {
        if Trim(currentSection) != "" {
          sections := sections + [CodeSection(currentType, Trim(currentSection))];
        }
        currentType := "";
        currentSection := "";
      } else {
        currentSection := currentSection + line + "\n";
      }
      assert lines[..i + 1][..i] == lines[..i];
    }
    assert lines[..|lines|] == lines;
    if Trim(currentSection) != "" && currentType != "" {
      sections := sections + [CodeSection(currentType, Trim(currentSection))];
    }
    ParseWellFormed(text);
    ParseCount(text);
  }

  // ---------------------------------------------------------------------------
  // Running the loop piecewise

  /** Running over `a + b` is running over `a`, then over `b`. */
  lemma {:induction false} RunAppend(st: ParserState, a: seq<string>, b: seq<string>)
    ensures Run(st, a + b) == Run(Run(st, a), b)
    decreases |b|
  {
    if b == [] {
      assert a + b == a;
    } else {
      assert (a + b)[..|a + b| - 1] == a + b[..|b| - 1];
      RunAppend(st, a, b[..|b| - 1]);
    }
  }

  /** Running over one more line is one more step. */
  lemma RunSnoc(st: ParserState, a: seq<string>, line: string)
    ensures Run(st, a + [line]) == Step(Run(st, a), line)
  {
    assert (a + [line])[..|a|] == a;
  }

  // ---------------------------------------------------------------------------
  // Every emitted section is well formed

  /** A section as every push builds it: a non-empty label, and a content that
      is non-empty, already trimmed, and has no blank line. */
  predicate WellFormed(s: CodeSection) {
    s.sectionType != "" && s.content != "" && Trim(s.content) == s.content && NoBlankLine(s.content)
  }

  /** What an accumulator of an open label holds: nothing, or non-blank lines each ended by `\n`. */
  predicate OpenBlock(c: string) {
    c == "" || (EndsWith(c, '\n') && NoBlankLine(c[..|c| - 1]))
  }

  /** The loop invariant behind the well-formedness of the result. */
  predicate Inv(st: ParserState) {
    (forall i :: 0 <= i < |st.sections| ==> WellFormed(st.sections[i]))
    && (st.currentType != "" ==> OpenBlock(st.currentSection))
  }

  /** The lines `split` produces contain no `\n`. */
  predicate SingleLines(lines: seq<string>) {
    forall i :: 0 <= i < |lines| ==> '\n' !in lines[i]
  }

  /** Pushing the accumulator of an open label pushes a well-formed section. */
  lemma PushWellFormed(st: ParserState)
    requires st.currentType != "" && OpenBlock(st.currentSection) && Trim(st.currentSection) != ""
    ensures WellFormed(SectionOf(st))
  {
    var c := st.currentSection;
    var j := c[..|c| - 1];
    assert c == j + "\n";
    NoBlankLineNotBlank(j);
    TrimDropsFinalNewline(j);
    TrimNoBlankLine(j);
    TrimIdempotent(j);
  }

  /** One step keeps the invariant. */
  lemma StepInv(st: ParserState, line: string)
    requires Inv(st) && '\n' !in line
    ensures Inv(Step(st, line))
  {
    if LooksLikeLabel(line) && Trim(st.currentSection) == "" {
      assert Step(st, line).sections == st.sections;
    } else if Trim(line) == "" && st.currentType != "" {
      if Trim(st.currentSection) != "" {
        PushWellFormed(st);
      }
    } else {
      AppendInv(st, line);
    }
  }

  /** The append branch keeps the invariant: an open label only ever receives non-blank lines. */
  lemma AppendInv(st: ParserState, line: string)
    requires Inv(st) && '\n' !in line
    requires !(Trim(line) == "" && st.currentType != "")
    ensures Inv(st.(currentSection := st.currentSection + line + "\n"))
  {
    if st.currentType != "" {
      OpenBlockAppend(st.currentSection, line);
    }
  }

  /** Appending a non-blank line to an open block keeps it an open block. */
  lemma OpenBlockAppend(c: string, line: string)
    requires OpenBlock(c) && '\n' !in line && !IsBlank(line)
    ensures OpenBlock(c + line + "\n")
  {
    var next := c + line + "\n";
    assert next[..|next| - 1] == c + line;
    LineNoBlankLine(line);
    if c != "" {
      var j := c[..|c| - 1];
      assert c + line == j + "\n" + line;
      JoinNoBlankLine(j, line);
    } else {
      assert c + line == line;
    }
  }

  /** Running the loop keeps the invariant. */
  lemma {:induction false} RunInv(st: ParserState, lines: seq<string>)
    requires Inv(st) && SingleLines(lines)
    ensures Inv(Run(st, lines))
    decreases |lines|
  {
    if lines != [] {
      var init := lines[..|lines| - 1];
      assert SingleLines(init) by {
        forall i | 0 <= i < |init| ensures '\n' !in init[i] {
          assert init[i] == lines[i];
        }
      }
      RunInv(st, init);
      StepInv(Run(st, init), lines[|lines| - 1]);
    }
  }

  /** The push after the loop keeps every section well formed. */
  lemma FinishWellFormed(st: ParserState)
    requires Inv(st)
    ensures forall i :: 0 <= i < |Finish(st)| ==> WellFormed(Finish(st)[i])
  {
    if Trim(st.currentSection) != "" && st.currentType != "" {
      var last := SectionOf(st);
      PushWellFormed(st);
      var r := st.sections + [last];
      assert Finish(st) == r;
      forall i | 0 <= i < |r| ensures WellFormed(r[i]) {
        if i < |st.sections| {
          assert r[i] == st.sections[i];
        } else {
          assert r[i] == last;
        }
      }
    }
  }

  /** Every section parsed from single lines is well formed. */
  lemma ParseLinesWellFormed(lines: seq<string>)
    requires SingleLines(lines)
    ensures forall i :: 0 <= i < |ParseLines(lines)| ==> WellFormed(ParseLines(lines)[i])
  {
    RunInv(Start, lines);
    FinishWellFormed(Run(Start, lines));
  }

  /** Every section parsed from an answer text has a non-empty label and a
      non-empty, trimmed content without blank lines. */
  lemma ParseWellFormed(text: string)
    ensures forall i :: 0 <= i < |Parse(text)| ==> WellFormed(Parse(text)[i])
  {
    SplitPiecesNoSep(text, '\n');
    ParseLinesWellFormed(Split(text, '\n'));
  }

  /** Trimming an emitted content again changes nothing. */
  lemma ContentTrimIdempotent(text: string, i: nat)
    requires i < |Parse(text)|
    ensures Trim(Trim(Parse(text)[i].content)) == Trim(Parse(text)[i].content) == Parse(text)[i].content
  {
    ParseWellFormed(text);
  }

  // ---------------------------------------------------------------------------
  // Labels

  /** Without a line whose trimmed form ends with `:`, nothing is parsed. */
  lemma {:induction false} NoLabelLineRun(lines: seq<string>)
    requires forall i :: 0 <= i < |lines| ==> !LooksLikeLabel(lines[i])
    ensures Run(Start, lines).sections == [] && Run(Start, lines).currentType == ""
    decreases |lines|
  {
    if lines != [] {
      NoLabelLineRun(lines[..|lines| - 1]);
      assert !LooksLikeLabel(lines[|lines| - 1]);
    }
  }

  /** If no line's trimmed form ends with `:`, the text parses to no section. */
  lemma NoLabelLineNoSection(text: string)
    requires forall i :: 0 <= i < |Split(text, '\n')| ==> !LooksLikeLabel(Split(text, '\n')[i])
    ensures Parse(text) == []
  {
    NoLabelLineRun(Split(text, '\n'));
  }

  /** `name` is the label of the line at index `j`. */
  predicate LabelFrom(lines: seq<string>, j: int, name: string) {
    0 <= j < |lines| && LooksLikeLabel(lines[j]) && name == LabelOf(lines[j])
  }

  /** `name` is the label of some label line among `lines`. */
  predicate FromLabelLine(lines: seq<string>, name: string) {
    exists j :: 0 <= j < |lines| && LabelFrom(lines, j, name)
  }

  /** Every label in the state names a label line of the input. */
  predicate LabelsFrom(st: ParserState, lines: seq<string>) {
    (forall i :: 0 <= i < |st.sections| ==> FromLabelLine(lines, st.sections[i].sectionType))
    && (st.currentType != "" ==> FromLabelLine(lines, st.currentType))
  }

  /** Running the loop only ever opens labels taken from its lines. */
  lemma {:induction false} RunLabelsFrom(lines: seq<string>)
    ensures LabelsFrom(Run(Start, lines), lines)
    decreases |lines|
  {
    if lines != [] {
      var n := |lines| - 1;
      var init := lines[..n];
      RunLabelsFrom(init);
      var st := Run(Start, init);
      LabelsFromLonger(st, init, lines);
      StepLabelsFrom(st, lines, n);
    }
  }

  /** Labels taken from a prefix of the lines are taken from the lines. */
  lemma LabelsFromLonger(st: ParserState, a: seq<string>, b: seq<string>)
    requires LabelsFrom(st, a) && a <= b
    ensures LabelsFrom(st, b)
  {
    forall i | 0 <= i < |st.sections| ensures FromLabelLine(b, st.sections[i].sectionType) {
      var j :| 0 <= j < |a| && LabelFrom(a, j, st.sections[i].sectionType);
      LabelFromLonger(a, b, j, st.sections[i].sectionType);
    }
    if st.currentType != "" {
      var j :| 0 <= j < |a| && LabelFrom(a, j, st.currentType);
      LabelFromLonger(a, b, j, st.currentType);
    }
  }

  lemma LabelFromLonger(a: seq<string>, b: seq<string>, j: int, name: string)
    requires LabelFrom(a, j, name) && a <= b
    ensures LabelFrom(b, j, name)
  {
    assert a[j] == b[j];
  }

  /** A step on line `n` only opens the label of line `n`. */
  lemma StepLabelsFrom(st: ParserState, lines: seq<string>, n: nat)
    requires LabelsFrom(st, lines) && n < |lines|
    ensures LabelsFrom(Step(st, lines[n]), lines)
  {
    var line := lines[n];
    if LooksLikeLabel(line) && Trim(st.currentSection) == "" {
      var next := Step(st, line);
      assert next.sections == st.sections && next.currentType == LabelOf(line);
      assert LabelFrom(lines, n, next.currentType);
    } else if Trim(line) == "" && st.currentType != "" {
      var next := Step(st, line);
      forall i | 0 <= i < |next.sections| ensures FromLabelLine(lines, next.sections[i].sectionType) {
        if i < |st.sections| {
          assert next.sections[i] == st.sections[i];
        } else {
          assert next.sections[i].sectionType == st.currentType;
        }
      }
    }
  }

  /** Every parsed label is the trimmed form of some input line ending in `:`,
      with its first `:` removed. */
  lemma ParseLabelsFrom(text: string, i: nat)
    requires i < |Parse(text)|
    ensures FromLabelLine(Split(text, '\n'), Parse(text)[i].sectionType)
  {
    var lines := Split(text, '\n');
    RunLabelsFrom(lines);
    var st := Run(Start, lines);
    if i < |st.sections| {
      assert Parse(text)[i] == st.sections[i];
    } else {
      assert Parse(text)[i].sectionType == st.currentType;
    }
  }

  /** The first `:` goes, not the last: `"a:b:"` opens the label `"ab:"`. */
  lemma FirstColonRemoved(line: string)
    requires line == "a:b:"
    ensures LabelOf(line) == "ab:"
  {
    assert Trim(line) == line by {
      assert !IsSpace(line[0]) && !IsSpace(line[3]);
      TrimOfTrimmed(line);
    }
    assert ReplaceFirst(line, ':') == "ab:" by {
      assert line[..1] == "a";
      ReplaceFirstAt(line, ':', 1);
      assert line[..1] + line[2..] == "ab:";
    }
  }

  /** The label is the trimmed line with its first `:` removed. */
  lemma LabelRemovesFirstColon(line: string, i: nat)
    requires i < |Trim(line)| && Trim(line)[i] == ':' && ':' !in Trim(line)[..i]
    ensures LabelOf(line) == Trim(line)[..i] + Trim(line)[i + 1..]
  {
    ReplaceFirstAt(Trim(line), ':', i);
  }

  /** A label line whose only `:` is the last character opens the line without its colon. */
  lemma LabelDropsFinalColon(line: string)
    requires LooksLikeLabel(line)
    requires ':' !in Trim(line)[..|Trim(line)| - 1]
    ensures LabelOf(line) == Trim(line)[..|Trim(line)| - 1]
  {
    var t := Trim(line);
    ReplaceFirstAt(t, ':', |t| - 1);
  }

  /** Two label lines with only blank lines between them: the first one is as
      if it were not there (from a state whose accumulator is blank). */
  lemma LastLabelWins(st: ParserState, first: string, blanks: seq<string>, second: string)
    requires IsBlank(st.currentSection)
    requires LooksLikeLabel(first) && LooksLikeLabel(second)
    requires forall i :: 0 <= i < |blanks| ==> IsBlank(blanks[i])
    ensures Run(st, [first] + blanks + [second]) == Step(st, second)
  {
    var afterFirst := Step(st, first);
    assert Run(st, [first]) == afterFirst by { assert [first][..0] == []; }
    BlankLinesKeepSections(afterFirst, blanks);
    RunAppend(st, [first], blanks);
    RunSnoc(st, [first] + blanks, second);
  }

  /** Blank lines after a label line push nothing and leave the accumulator blank. */
  lemma {:induction false} BlankLinesKeepSections(st: ParserState, blanks: seq<string>)
    requires IsBlank(st.currentSection)
    requires forall i :: 0 <= i < |blanks| ==> IsBlank(blanks[i])
    ensures Run(st, blanks).sections == st.sections
    ensures IsBlank(Run(st, blanks).currentSection)
    decreases |blanks|
  {
    if blanks != [] {
      var init := blanks[..|blanks| - 1];
      BlankLinesKeepSections(st, init);
      var mid := Run(st, init);
      var b := blanks[|blanks| - 1];
      if !(Trim(b) == "" && mid.currentType != "") {
        BlankAppend(mid.currentSection, b);
      }
    }
  }

  /** Helper: a blank accumulator stays blank when a blank line is appended. */
  lemma BlankAppend(c: string, b: string)
    requires IsBlank(c) && IsBlank(b)
    ensures IsBlank(c + b + "\n")
  {
    var d := c + b + "\n";
    forall k | 0 <= k < |d| ensures IsSpace(d[k]) {
      if k < |c| { assert d[k] == c[k]; }
      else if k < |c| + |b| { assert d[k] == b[k - |c|]; }
    }
  }

  /** The first of two consecutive label lines (with only blank lines between
      them, and met between sections) never shows in the result. */
  lemma LastLabelWinsParse(pre: seq<string>, first: string, blanks: seq<string>, second: string, post: seq<string>)
    requires IsBlank(Run(Start, pre).currentSection)
    requires LooksLikeLabel(first) && LooksLikeLabel(second)
    requires forall i :: 0 <= i < |blanks| ==> IsBlank(blanks[i])
    ensures ParseLines(pre + [first] + blanks + [second] + post) == ParseLines(pre + [second] + post)
  {
    var mid := [first] + blanks + [second];
    assert pre + [first] + blanks + [second] + post == (pre + mid) + post;
    LastLabelWinsRun(pre, first, blanks, second);
    SameRunSameTail(pre + mid, pre + [second], post);
  }

  /** Helper: the loop state after the two label lines is the state after the second alone. */
  lemma LastLabelWinsRun(pre: seq<string>, first: string, blanks: seq<string>, second: string)
    requires IsBlank(Run(Start, pre).currentSection)
    requires LooksLikeLabel(first) && LooksLikeLabel(second)
    requires forall i :: 0 <= i < |blanks| ==> IsBlank(blanks[i])
    ensures Run(Start, pre + ([first] + blanks + [second])) == Run(Start, pre + [second])
  {
    var st := Run(Start, pre);
    RunAppend(Start, pre, [first] + blanks + [second]);
    LastLabelWins(st, first, blanks, second);
    RunSnoc(Start, pre, second);
  }

  /** Two inputs that leave the loop in the same state parse alike whatever follows. */
  lemma SameRunSameTail(a: seq<string>, b: seq<string>, post: seq<string>)
    requires Run(Start, a) == Run(Start, b)
    ensures ParseLines(a + post) == ParseLines(b + post)
  {
    RunAppend(Start, a, post);
    RunAppend(Start, b, post);
  }

  /** Once content has accumulated, a line ending in `:` is appended as content. */
  lemma LabelInsideContent(st: ParserState, line: string)
    requires !IsBlank(st.currentSection) && LooksLikeLabel(line)
    ensures Step(st, line) == st.(currentSection := st.currentSection + line + "\n")
  {
  }

  // ---------------------------------------------------------------------------
  // A stray line before any label blocks the rest

  /** No label open, yet a non-blank accumulator: no later line can open one. */
  predicate Blocked(st: ParserState) {
    st.currentType == "" && !IsBlank(st.currentSection)
  }

  /** A blocked state stays blocked and pushes nothing more. */
  lemma {:induction false} BlockedForever(st: ParserState, lines: seq<string>)
    requires Blocked(st)
    ensures Blocked(Run(st, lines)) && Run(st, lines).sections == st.sections
    decreases |lines|
  {
    if lines != [] {
      BlockedForever(st, lines[..|lines| - 1]);
      var mid := Run(st, lines[..|lines| - 1]);
      var line := lines[|lines| - 1];
      NonBlankAppend(mid.currentSection, line);
    }
  }

  /** Helper: appending to a non-blank accumulator leaves it non-blank. */
  lemma NonBlankAppend(c: string, line: string)
    requires !IsBlank(c)
    ensures !IsBlank(c + line + "\n")
  {
    var k :| 0 <= k < |c| && !IsSpace(c[k]);
    assert (c + line + "\n")[k] == c[k];
  }

  /** A non-blank line that is not a label line, met while no label is open,
      blocks everything after it: no later line opens a label, and the result
      is what was pushed before it. */
  lemma StrayLineBlocks(pre: seq<string>, line: string, post: seq<string>)
    requires Run(Start, pre).currentType == ""
    requires !IsBlank(line) && !LooksLikeLabel(line)
    ensures forall k :: 0 <= k <= |post| ==> Run(Start, pre + [line] + post[..k]).currentType == ""
    ensures ParseLines(pre + [line] + post) == Run(Start, pre).sections
  {
    var st := Run(Start, pre);
    var blocked := Step(st, line);
    RunSnoc(Start, pre, line);
    NonBlankAppendRight(st.currentSection, line);
    forall k | 0 <= k <= |post| ensures Run(Start, pre + [line] + post[..k]).currentType == "" {
      RunAppend(Start, pre + [line], post[..k]);
      BlockedForever(blocked, post[..k]);
    }
    RunAppend(Start, pre + [line], post);
    BlockedForever(blocked, post);
  }

  /** Helper: appending a non-blank line makes the accumulator non-blank. */
  lemma NonBlankAppendRight(c: string, line: string)
    requires !IsBlank(line)
    ensures !IsBlank(c + line + "\n")
  {
    var k :| 0 <= k < |line| && !IsSpace(line[k]);
    assert (c + line + "\n")[|c| + k] == line[k];
  }

  /** A first line that is neither blank nor a label line makes the whole parse empty. */
  lemma StrayFirstLine(lines: seq<string>)
    requires lines != [] && !IsBlank(lines[0]) && !LooksLikeLabel(lines[0])
    ensures ParseLines(lines) == []
  {
    assert [] + [lines[0]] + lines[1..] == lines;
    StrayLineBlocks([], lines[0], lines[1..]);
  }

  // ---------------------------------------------------------------------------
  // Order and count

  /** Sections come out in input order: what the first lines push is a prefix
      of what the whole input pushes. */
  lemma {:induction false} RunSectionsGrow(st: ParserState, lines: seq<string>)
    ensures st.sections <= Run(st, lines).sections
    decreases |lines|
  {
    if lines != [] {
      RunSectionsGrow(st, lines[..|lines| - 1]);
    }
  }

  /** What a prefix of the lines has pushed begins the result on the whole input. */
  lemma PrefixSectionsFirst(a: seq<string>, b: seq<string>)
    ensures Run(Start, a).sections <= ParseLines(a + b)
  {
    RunAppend(Start, a, b);
    RunSectionsGrow(Run(Start, a), b);
  }

  /** The quantity the count bound follows. */
  function Weight(st: ParserState): nat {
    2 * |st.sections| + (if st.currentType != "" then 1 else 0) + (if IsBlank(st.currentSection) then 0 else 1)
  }

  /** Each line adds at most one to the weight. */
  lemma {:induction false} RunWeight(lines: seq<string>)
    ensures Weight(Run(Start, lines)) <= |lines|
    decreases |lines|
  {
    if lines != [] {
      var init := lines[..|lines| - 1];
      RunWeight(init);
    }
  }

  /** Every section takes a label line and a content line: at most half as
      many sections as lines. */
  lemma ParseLinesCount(lines: seq<string>)
    ensures 2 * |ParseLines(lines)| <= |lines|
  {
    RunWeight(lines);
  }

  /** An answer text gives at most half as many sections as it has lines. */
  lemma ParseCount(text: string)
    ensures 2 * |Parse(text)| <= |Split(text, '\n')|
  {
    ParseLinesCount(Split(text, '\n'));
  }

  // ---------------------------------------------------------------------------
  // Worked examples

  /** A line without surrounding white space, ending in `:` and with no other
      `:`, is a label line whose label is the line without its colon. */
  lemma PlainLabelLine(line: string)
    requires |line| >= 2 && !IsSpace(line[0]) && line[|line| - 1] == ':'
    requires ':' !in line[..|line| - 1]
    ensures LooksLikeLabel(line) && LabelOf(line) == line[..|line| - 1]
  {
    TrimOfTrimmed(line);
    ReplaceFirstAt(line, ':', |line| - 1);
    assert line[|line|..] == [];
  }

  /** A line without surrounding white space and not ending in `:` is plain content. */
  lemma PlainContentLine(line: string)
    requires line != [] && !IsSpace(line[0]) && !IsSpace(line[|line| - 1]) && line[|line| - 1] != ':'
    ensures !LooksLikeLabel(line) && !IsBlank(line)
  {
    TrimOfTrimmed(line);
  }

  /** The accumulator of one plain content line trims back to that line. */
  lemma OneLineContent(line: string)
    requires line != [] && !IsSpace(line[0]) && !IsSpace(line[|line| - 1])
    ensures Trim("" + line + "\n") == line
  {
    TrimOfTrimmed(line);
    assert "" + line + "\n" == line + "\n";
    TrimDropsFinalNewline(line);
  }

  /** Between sections, a plain label line opens its label. */
  lemma StepOpens(st: ParserState, line: string)
    requires st.currentSection == "" && |line| >= 2 && !IsSpace(line[0]) && line[|line| - 1] == ':'
    requires ':' !in line[..|line| - 1]
    ensures Step(st, line) == st.(currentType := line[..|line| - 1])
  {
    PlainLabelLine(line);
  }

  /** Under an open label, a plain line is appended. */
  lemma StepAppends(st: ParserState, line: string)
    requires st.currentType != "" && line != [] && !IsSpace(line[0]) && !IsSpace(line[|line| - 1]) && line[|line| - 1] != ':'
    ensures Step(st, line) == st.(currentSection := st.currentSection + line + "\n")
  {
    PlainContentLine(line);
  }

  /** Under an open label, a blank line pushes the trimmed accumulator when it
      is not blank, and closes both the label and the accumulator. */
  lemma StepFlushes(st: ParserState, line: string)
    requires st.currentType != "" && IsBlank(line)
    ensures Step(st, line) == ParserState(
      if IsBlank(st.currentSection) then st.sections
      else st.sections + [CodeSection(st.currentType, Trim(st.currentSection))], "", "")
  {
    assert !LooksLikeLabel(line);
  }

  /** A label `a` that the label line `a:` opens: non-empty, no leading space, no colon. */
  predicate PlainLabel(a: string)
  {
    a != [] && !IsSpace(a[0]) && ':' !in a
  }

  /** A content line with no surrounding space that does not itself look like a label. */
  predicate PlainContent(x: string)
  {
    x != [] && !IsSpace(x[0]) && !IsSpace(x[|x| - 1]) && x[|x| - 1] != ':'
  }

  /** One block: a label line, one content line and a blank line push one section. */
  lemma OneBlock(st: ParserState, a: string, x: string)
    requires st.currentSection == "" && PlainLabel(a) && PlainContent(x)
    ensures Run(st, [a + ":", x, ""]) == ParserState(st.sections + [CodeSection(a, x)], "", "")
  {
    var line := a + ":";
    assert line[..|line| - 1] == a;
    StepOpens(st, line);
    var s1 := st.(currentType := a);
    RunSnoc(st, [], line);
    assert [] + [line] == [line];
    StepAppends(s1, x);
    var s2 := s1.(currentSection := "" + x + "\n");
    RunSnoc(st, [line], x);
    assert [line] + [x] == [line, x];
    OneLineContent(x);
    assert Trim("") == "";
    StepFlushes(s2, "");
    RunSnoc(st, [line, x], "");
    assert [line, x] + [""] == [line, x, ""];
  }

  /** With no label open, an empty line is appended to the accumulator as a
      bare newline, and the final flush pushes nothing more. */
  lemma StepBlankIdle(st: ParserState)
    requires st.currentType == ""
    ensures Step(st, "") == st.(currentSection := st.currentSection + "\n")
    ensures Finish(Step(st, "")) == st.sections
  {
    assert Trim("") == "";
  }

  /** The lines of one block: the label line, one content line, a blank line. */
  function Block(a: string, x: string): (r: seq<string>)
    ensures |r| == 3
  {
    [a + ":", x, ""]
  }

  /** Two labelled blocks, each ended by a blank line, give two sections in order;
      a trailing empty line adds nothing. */
  lemma TwoSectionsExample(a: string, x: string, b: string, y: string)
    requires PlainLabel(a) && PlainContent(x) && PlainLabel(b) && PlainContent(y)
    ensures ParseLines(Block(a, x) + Block(b, y) + [""]) == [CodeSection(a, x), CodeSection(b, y)]
  {
    var first := Block(a, x);
    var second := Block(b, y);
    var s3 := ParserState([CodeSection(a, x)], "", "");
    var s6 := ParserState([CodeSection(a, x), CodeSection(b, y)], "", "");
    assert Run(Start, first) == s3 by {
      OneBlock(Start, a, x);
      assert Start.sections + [CodeSection(a, x)] == [CodeSection(a, x)];
    }
    assert Run(s3, second) == s6 by {
      OneBlock(s3, b, y);
    }
    RunAppend(Start, first, second);
    RunSnoc(Start, first + second, "");
    StepBlankIdle(s6);
  }

  /** The answer text of one block: a label line, one content line and an empty line. */
  function BlockText(a: string, x: string): string {
    a + ":\n" + x + "\n\n"
  }

  /** A block's text splits into the block's lines, ahead of whatever follows. */
  lemma SplitBlockText(a: string, x: string, rest: string)
    requires '\n' !in a && '\n' !in x
    ensures Split(BlockText(a, x) + rest, '\n') == Block(a, x) + Split(rest, '\n')
  {
    var t := BlockText(a, x) + rest;
    assert t == (a + ":") + ['\n'] + (x + ['\n'] + ([] + ['\n'] + rest));
    SplitConcat(a + ":", '\n', x + ['\n'] + ([] + ['\n'] + rest));
    SplitConcat(x, '\n', [] + ['\n'] + rest);
    SplitConcat([], '\n', rest);
    SplitNoSep(a + ":", '\n');
    SplitNoSep(x, '\n');
    SplitNoSep([], '\n');
  }

  /** The two-block example on the answer text itself, as the component receives it. */
  lemma TwoSectionsText(a: string, x: string, b: string, y: string)
    requires PlainLabel(a) && PlainContent(x) && PlainLabel(b) && PlainContent(y)
    requires '\n' !in a && '\n' !in x && '\n' !in b && '\n' !in y
    ensures Parse(BlockText(a, x) + BlockText(b, y)) == [CodeSection(a, x), CodeSection(b, y)]
  {
    SplitBlockText(b, y, "");
    assert BlockText(b, y) + "" == BlockText(b, y);
    SplitNoSep("", '\n');
    SplitBlockText(a, x, BlockText(b, y));
    assert Block(a, x) + (Block(b, y) + [""]) == Block(a, x) + Block(b, y) + [""];
    TwoSectionsExample(a, x, b, y);
  }

  /** `"H:\nx\n\nC:\ny\n\n"` parses to the sections `H` holding `x` and `C` holding `y`. */
  lemma TwoSectionsLiteral(text: string)
    requires text == "H:\nx\n\nC:\ny\n\n"
    ensures Parse(text) == [CodeSection("H", "x"), CodeSection("C", "y")]
  {
    assert text == BlockText("H", "x") + BlockText("C", "y");
    TwoSectionsText("H", "x", "C", "y");
  }
}
