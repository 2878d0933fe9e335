/** The line ranges of a zero-context unified diff, against the edits the diff describes. */
module Hunks {
  import opened HunkHeaders
  import opened Options
  import opened Texts

  /** First and last line, both included. */
  datatype LineRange = LineRange(start: int, end: int)

  predicate Covers(range: LineRange, line: int) {
    range.start <= line <= range.end
  }

  // ---- reading ----

  /** The pieces between the newlines of a text; a text without any is one piece. */
  function Lines(text: string): (lines: seq<string>)
    ensures lines != []
  {
    if text == [] then [""]
    else
      var rest := Lines(text[1..]);
      if text[0] == '\n' then [""] + rest else [[text[0]] + rest[0]] + rest[1..]
  }

  /** The pieces hold no newline, and with newlines between them they are the text. */
  lemma {:induction false} LinesExactly(text: string)
    ensures forall line :: line in Lines(text) ==> '\n' !in line
    ensures JoinTexts(Lines(text), "\n") == text
  {
    if text == [] {
      JoinOne("", "\n");
    } else {
      LinesExactly(text[1..]);
      assert text == [text[0]] + text[1..];
      LinesStep(text[0], Lines(text[1..]));
    }
  }

  lemma LinesStep(c: char, rest: seq<string>)
    requires rest != []
    ensures JoinTexts([""] + rest, "\n") == "\n" + JoinTexts(rest, "\n")
    ensures JoinTexts([[c] + rest[0]] + rest[1..], "\n") == [c] + JoinTexts(rest, "\n")
  {
    hide JoinTexts;
    JoinOne("", "\n");
    JoinAppend([""], rest, "\n");
    JoinOne(rest[0], "\n");
    JoinOne([c] + rest[0], "\n");
    assert rest == [rest[0]] + rest[1..];
    if |rest| > 1 {
      JoinAppend([rest[0]], rest[1..], "\n");
      JoinAppend([[c] + rest[0]], rest[1..], "\n");
      Reassociate(c, rest[0], "\n", JoinTexts(rest[1..], "\n"));
    } else {
      assert rest == [rest[0]] && [[c] + rest[0]] + rest[1..] == [[c] + rest[0]];
    }
  }

  lemma Reassociate(c: char, a: string, b: string, d: string)
    ensures ([c] + a) + b + d == [c] + (a + b + d)
  {
  }

  /** The range one line of the diff contributes, if any. */
  function RangeOf(line: string): seq<LineRange> {
    var hunk := MatchHunk(line);
    if hunk.None? then []
    else
      var (start, n) := hunk.value;
      var count := if n.None? then 1 else n.value;
      if count > 0 then [LineRange(start, start + count - 1)] else []
  }

  function Ranges(lines: seq<string>): seq<LineRange> {
    if lines == [] then [] else Ranges(lines[..|lines| - 1]) + RangeOf(lines[|lines| - 1])
  }

  method ParseHunks(diffText: string) returns (ranges: seq<LineRange>)
    ensures ranges == Ranges(Lines(diffText))
  {
    hide MatchHunk, Lines;
    ranges := [];
    var lines := Lines(diffText);
    for i := 0 to |lines|
      invariant ranges == Ranges(lines[..i])
    {
      assert lines[..i + 1][..i] == lines[..i];
      var hunk := MatchHunk(lines[i]);
      if hunk.None? {
        continue;
      }
      var start := hunk.value.0;
      var count := if hunk.value.1.None? then 1 else hunk.value.1.value;
      if count > 0 {
        ranges := ranges + [LineRange(start, start + count - 1)];
      }
    }
    assert lines[..|lines|] == lines;
  }

  // ---- what a diff describes ----

  /** A file turned into its new version, line by line. */
  datatype Edit = Keep(text: string) | Delete(text: string) | Add(text: string)

  /** The new version. */
  function NewSide(script: seq<Edit>): seq<Edit> {
    if script == [] then []
    else
      var rest, last := NewSide(script[..|script| - 1]), script[|script| - 1];
      if last.Delete? then rest else rest + [last]
  }

  /** Line `n` of the new version, counted from 1, was added. */
  predicate AddedAt(script: seq<Edit>, n: int) {
    1 <= n <= |NewSide(script)| && NewSide(script)[n - 1].Add?
  }

  /** A maximal run of changes and how many lines of either version precede it. */
  datatype Group = Group(oldBefore: nat, deleted: seq<string>, newBefore: nat, added: seq<string>)

  datatype Grouped = Grouped(groups: seq<Group>, open: bool, oldLines: nat, newLines: nat)

  function Extend(state: Grouped, edit: Edit): Grouped
    requires state.open ==> state.groups != []
  {
    var n := |state.groups|;
    var front := if state.open then state.groups[..n - 1] else state.groups;
    var last := if state.open then state.groups[n - 1] else Group(state.oldLines, [], state.newLines, []);
    match edit
    case Keep(_) => Grouped(state.groups, false, state.oldLines + 1, state.newLines + 1)
    case Delete(text) =>
      Grouped(front + [last.(deleted := last.deleted + [text])], true, state.oldLines + 1, state.newLines)
    case Add(text) =>
      Grouped(front + [last.(added := last.added + [text])], true, state.oldLines, state.newLines + 1)
  }

  function GroupUp(script: seq<Edit>): (state: Grouped)
    ensures state.open ==> state.groups != []
  {
    if script == [] then Grouped([], false, 0, 0)
    else Extend(GroupUp(script[..|script| - 1]), script[|script| - 1])
  }

  function Groups(script: seq<Edit>): seq<Group> {
    GroupUp(script).groups
  }

  predicate InGroup(g: Group, n: int) {
    g.newBefore < n <= g.newBefore + |g.added|
  }

  ghost predicate InSome(groups: seq<Group>, n: int) {
    exists k :: 0 <= k < |groups| && InGroup(groups[k], n)
  }

  /** The groups cover exactly the added lines. */
  lemma {:induction false} GroupsExact(script: seq<Edit>, n: int)
    ensures var state := GroupUp(script);
            && state.newLines == |NewSide(script)|
            && (state.open ==>
                  var last := state.groups[|state.groups| - 1]; last.newBefore + |last.added| == state.newLines)
            && (InSome(state.groups, n) <==> AddedAt(script, n))
  {
    if script != [] {
      var before, edit := script[..|script| - 1], script[|script| - 1];
      GroupsExact(before, n);
      ExtendCovers(GroupUp(before), edit, n);
    }
  }

  lemma ExtendCovers(state: Grouped, edit: Edit, n: int)
    requires state.open ==> state.groups != []
    requires state.open ==>
      var last := state.groups[|state.groups| - 1]; last.newBefore + |last.added| == state.newLines
    ensures var next := Extend(state, edit);
            && (next.open ==>
                  var last := next.groups[|next.groups| - 1]; last.newBefore + |last.added| == next.newLines)
            && (InSome(next.groups, n) <==> InSome(state.groups, n) || (edit.Add? && n == state.newLines + 1))
  {
    var next := Extend(state, edit);
    if InSome(state.groups, n) {
      var k :| 0 <= k < |state.groups| && InGroup(state.groups[k], n);
      assert InGroup(next.groups[k], n);
    }
    if edit.Add? && n == state.newLines + 1 {
      assert InGroup(next.groups[|next.groups| - 1], n);
    }
    if InSome(next.groups, n) {
      var k :| 0 <= k < |next.groups| && InGroup(next.groups[k], n);
      assert (k < |state.groups| && InGroup(state.groups[k], n)) || (edit.Add? && n == state.newLines + 1);
    }
  }

  // ---- the text of a diff ----

  /** One hunk: the two sides of its header, the text after the header's second `@@`, and the lines below it. */
  datatype HunkText = HunkText(older: SideText, newer: SideText, tail: string, body: seq<string>)

  /** A side states how many lines it spans and where: at its first line or, when it is empty, at the line before. */
  predicate Spells(side: SideText, before: nat, count: nat) {
    && IsSide(side)
    && var (start, n) := SideValue(side);
       (if n.None? then 1 else n.value) == count && start == if count == 0 then before else before + 1
  }

  predicate OneLine(line: string) {
    '\n' !in line
  }

  /** Deleted and added lines carry their sign; a backslash introduces the note about a missing final newline. */
  predicate IsBodyLine(line: string) {
    OneLine(line) && line != [] && line[0] in {'-', '+', '\\'}
  }

  /** The lines git prints before the first hunk never start with an at sign. */
  predicate IsPreambleLine(line: string) {
    OneLine(line) && (line != [] ==> line[0] != '@')
  }

  predicate Renders(hunk: HunkText, g: Group) {
    && Spells(hunk.older, g.oldBefore, |g.deleted|) && Spells(hunk.newer, g.newBefore, |g.added|)
    && OneLine(hunk.tail) && forall line :: line in hunk.body ==> IsBodyLine(line)
  }

  function HunkLines(hunk: HunkText): seq<string> {
    [HeaderString(hunk.older, hunk.newer, hunk.tail)] + hunk.body
  }

  function AllHunkLines(hunks: seq<HunkText>): seq<string> {
    if hunks == [] then [] else AllHunkLines(hunks[..|hunks| - 1]) + HunkLines(hunks[|hunks| - 1])
  }

  /** Every line ends with a newline. */
  function Text(lines: seq<string>): string {
    if lines == [] then "" else lines[0] + ("\n" + Text(lines[1..]))
  }

  ghost predicate WellFormed(preamble: seq<string>, hunks: seq<HunkText>, script: seq<Edit>) {
    && (forall line :: line in preamble ==> IsPreambleLine(line))
    && |hunks| == |Groups(script)|
    && forall k :: 0 <= k < |hunks| ==> Renders(hunks[k], Groups(script)[k])
  }

  /** The text is a zero-context unified diff of the edits. */
  ghost predicate IsDiff(text: string, script: seq<Edit>) {
    exists preamble, hunks :: WellFormed(preamble, hunks, script) && text == Text(preamble + AllHunkLines(hunks))
  }

  // ---- round trip ----

  function GroupRange(g: Group): seq<LineRange> {
    if g.added == [] then [] else [LineRange(g.newBefore + 1, g.newBefore + |g.added|)]
  }

  /** The non-empty new sides. */
  function GroupRanges(groups: seq<Group>): seq<LineRange> {
    if groups == [] then [] else GroupRanges(groups[..|groups| - 1]) + GroupRange(groups[|groups| - 1])
  }

  lemma {:induction false} SplitLine(line: string, rest: string)
    requires OneLine(line)
    ensures Lines(line + ("\n" + rest)) == [line] + Lines(rest)
  {
    var text := line + ("\n" + rest);
    if line == [] {
      assert text == "\n" + rest && text[1..] == rest;
    } else {
      SplitLine(line[1..], rest);
      assert text[1..] == line[1..] + ("\n" + rest);
      assert [line[0]] + line[1..] == line;
    }
  }

  lemma {:induction false} SplitText(lines: seq<string>)
    requires forall line :: line in lines ==> OneLine(line)
    ensures Lines(Text(lines)) == lines + [""]
  {
    if lines != [] {
      SplitText(lines[1..]);
      SplitLine(lines[0], Text(lines[1..]));
    }
  }

  lemma {:induction false} RangesAppend(a: seq<string>, b: seq<string>)
    ensures Ranges(a + b) == Ranges(a) + Ranges(b)
  {
    hide RangeOf;
    if b == [] {
      assert a + b == a;
    } else {
      RangesAppend(a, b[..|b| - 1]);
      assert (a + b)[..|a + b| - 1] == a + b[..|b| - 1];
    }
  }

  lemma {:induction false} NoRanges(lines: seq<string>)
    requires forall line :: line in lines && line != [] ==> line[0] != '@'
    ensures Ranges(lines) == []
  {
    if lines != [] {
      NoRanges(lines[..|lines| - 1]);
      var line := lines[|lines| - 1];
      assert line in lines;
      assert After(line, "@@ -").None?;
    }
  }

  lemma HeaderRange(hunk: HunkText, g: Group)
    requires Renders(hunk, g)
    ensures RangeOf(HeaderString(hunk.older, hunk.newer, hunk.tail)) == GroupRange(g)
  {
    hide MatchHunk, HeaderString, SideValue, IsSide;
    HeaderMatches(hunk.older, hunk.newer, hunk.tail);
  }

  lemma OneRange(line: string)
    ensures Ranges([line]) == RangeOf(line)
  {
    hide RangeOf;
    assert [line][..0] == [] && Ranges([]) == [];
  }

  lemma HunkRange(hunk: HunkText, g: Group)
    requires Renders(hunk, g)
    ensures Ranges(HunkLines(hunk)) == GroupRange(g)
  {
    var header := HeaderString(hunk.older, hunk.newer, hunk.tail);
    hide Ranges, RangeOf, HeaderString, GroupRange, Spells;
    HeaderRange(hunk, g);
    OneRange(header);
    NoRanges(hunk.body);
    RangesAppend([header], hunk.body);
  }

  lemma {:induction false} HunksRanges(hunks: seq<HunkText>, groups: seq<Group>)
    requires |hunks| == |groups| && forall k :: 0 <= k < |hunks| ==> Renders(hunks[k], groups[k])
    ensures Ranges(AllHunkLines(hunks)) == GroupRanges(groups)
  {
    if hunks != [] {
      var n := |hunks| - 1;
      HunksRanges(hunks[..n], groups[..n]);
      HunkRange(hunks[n], groups[n]);
      RangesAppend(AllHunkLines(hunks[..n]), HunkLines(hunks[n]));
    }
  }

  lemma HeaderIsOneLine(older: SideText, newer: SideText, tail: string)
    requires IsSide(older) && IsSide(newer) && OneLine(tail)
    ensures OneLine(HeaderString(older, newer, tail))
  {
    assert forall s: string :: IsNumber(s) ==> OneLine(s);
    assert OneLine(SideString(older)) && OneLine(SideString(newer));
  }

  lemma {:induction false} HunkLinesAreLines(hunks: seq<HunkText>, groups: seq<Group>)
    requires |hunks| == |groups| && forall k :: 0 <= k < |hunks| ==> Renders(hunks[k], groups[k])
    ensures forall line :: line in AllHunkLines(hunks) ==> OneLine(line)
  {
    if hunks != [] {
      var n := |hunks| - 1;
      HunkLinesAreLines(hunks[..n], groups[..n]);
      HeaderIsOneLine(hunks[n].older, hunks[n].newer, hunks[n].tail);
      hide HeaderString, OneLine;
      assert forall line :: line in hunks[n].body ==> IsBodyLine(line) && OneLine(line);
    }
  }

  /** Parsing a printed diff gives back the non-empty new sides, in order. */
  lemma ParseBack(preamble: seq<string>, hunks: seq<HunkText>, script: seq<Edit>)
    requires WellFormed(preamble, hunks, script)
    ensures Ranges(Lines(Text(preamble + AllHunkLines(hunks)))) == GroupRanges(Groups(script))
  {
    var lines := AllHunkLines(hunks);
    HunkLinesAreLines(hunks, Groups(script));
    HunksRanges(hunks, Groups(script));
    NoRanges(preamble);
    NoRanges([""]);
    hide Groups, Renders, AllHunkLines, Ranges, Lines, Text;
    assert forall line :: line in preamble ==> OneLine(line);
    SplitText(preamble + lines);
    RangesAppend(preamble, lines);
    RangesAppend(preamble + lines, [""]);
  }

  lemma InSomePush(groups: seq<Group>, g: Group, n: int)
    ensures InSome(groups + [g], n) <==> InSome(groups, n) || InGroup(g, n)
  {
    var all := groups + [g];
    if InSome(groups, n) {
      var j :| 0 <= j < |groups| && InGroup(groups[j], n);
      assert InGroup(all[j], n);
    }
    if InGroup(g, n) {
      assert InGroup(all[|groups|], n);
    }
  }

  lemma {:induction false} GroupRangesCover(groups: seq<Group>, n: int)
    ensures (exists r :: r in GroupRanges(groups) && Covers(r, n)) <==> InSome(groups, n)
  {
    if groups != [] {
      var k := |groups| - 1;
      GroupRangesCover(groups[..k], n);
      InSomePush(groups[..k], groups[k], n);
      assert groups == groups[..k] + [groups[k]];
      hide InSome;
      var some := GroupRange(groups[k]);
      assert (exists r :: r in some && Covers(r, n)) <==> InGroup(groups[k], n) by {
        assert InGroup(groups[k], n) ==> Covers(some[0], n);
      }
    }
  }

  /** A line number lies in a parsed range exactly when the diff added that line. */
  lemma RangesAreAddedLines(text: string, script: seq<Edit>, n: int)
    requires IsDiff(text, script)
    ensures (exists r :: r in Ranges(Lines(text)) && Covers(r, n)) <==> AddedAt(script, n)
  {
    var preamble, hunks :| WellFormed(preamble, hunks, script) && text == Text(preamble + AllHunkLines(hunks));
    ParseBack(preamble, hunks, script);
    GroupsExact(script, n);
    GroupRangesCover(Groups(script), n);
  }

  // ---- the way git prints it ----

  /** Zero and more than one line are counted; a single line is not. */
  function PrintSide(before: nat, count: nat): SideText {
    if count == 1 then SideText(Decimal(before + 1), None)
    else SideText(Decimal(if count == 0 then before else before + 1), Some(Decimal(count)))
  }

  function Signed(sign: char, lines: seq<string>): seq<string> {
    seq(|lines|, i requires 0 <= i < |lines| => [sign] + lines[i])
  }

  function PrintGroup(g: Group): HunkText {
    HunkText(PrintSide(g.oldBefore, |g.deleted|), PrintSide(g.newBefore, |g.added|), "",
      Signed('-', g.deleted) + Signed('+', g.added))
  }

  function Print(script: seq<Edit>): string {
    var groups := Groups(script);
    Text(AllHunkLines(seq(|groups|, k requires 0 <= k < |groups| => PrintGroup(groups[k]))))
  }

  lemma PrintSideSpells(before: nat, count: nat)
    ensures Spells(PrintSide(before, count), before, count)
  {
    DecimalRoundTrip(before);
    DecimalRoundTrip(before + 1);
    DecimalRoundTrip(count);
  }

  lemma PrintRenders(g: Group)
    requires forall line :: line in g.deleted + g.added ==> OneLine(line)
    ensures Renders(PrintGroup(g), g)
  {
    PrintSideSpells(g.oldBefore, |g.deleted|);
    PrintSideSpells(g.newBefore, |g.added|);
    hide Spells;
    forall line | line in PrintGroup(g).body
      ensures IsBodyLine(line)
    {
      var k :| 0 <= k < |PrintGroup(g).body| && PrintGroup(g).body[k] == line;
      var text := if k < |g.deleted| then g.deleted[k] else g.added[k - |g.deleted|];
      assert text in g.deleted + g.added;
    }
  }

  lemma {:induction false} GroupedLines(script: seq<Edit>)
    requires forall e :: e in script ==> OneLine(e.text)
    ensures forall g, line :: g in Groups(script) && line in g.deleted + g.added ==> OneLine(line)
  {
    if script != [] {
      var n := |script| - 1;
      assert script[n] in script;
      GroupedLines(script[..n]);
    }
  }

  /** Printing the edits as hunks and parsing them back finds the added lines of any script. */
  lemma PrintedRoundTrip(script: seq<Edit>)
    requires forall e :: e in script ==> OneLine(e.text)
    ensures Ranges(Lines(Print(script))) == GroupRanges(Groups(script))
    ensures forall n :: (exists r :: r in Ranges(Lines(Print(script))) && Covers(r, n)) <==> AddedAt(script, n)
  {
    var groups := Groups(script);
    var hunks := seq(|groups|, k requires 0 <= k < |groups| => PrintGroup(groups[k]));
    GroupedLines(script);
    forall k | 0 <= k < |hunks|
      ensures Renders(hunks[k], groups[k])
    {
      PrintRenders(groups[k]);
    }
    hide Renders, Text, AllHunkLines, Ranges, Lines, Groups, AddedAt;
    assert [] + AllHunkLines(hunks) == AllHunkLines(hunks);
    assert WellFormed([], hunks, script);
    ParseBack([], hunks, script);
    forall n
      ensures (exists r :: r in Ranges(Lines(Print(script))) && Covers(r, n)) <==> AddedAt(script, n)
    {
      RangesAreAddedLines(Print(script), script, n);
    }
  }
}
