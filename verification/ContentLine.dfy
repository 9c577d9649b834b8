/** iCalendar content lines: folding and unfolding (section 3.1 of RFC 5545) and the
    quote-aware scanners that cut a line into name, parameters and value. */
module ContentLine {
  import opened Common

  const LINE_LIMIT := 75

  // ---------- Folding ----------

  /** UTF-8 length of one code point. */
  function Octets(c: char): (n: int)
    ensures 1 <= n <= 4
  {
    if c as int < 0x80 then 1 else if c as int < 0x800 then 2 else if c as int < 0x1_0000 then 3 else 4
  }

  function OctetsOf(s: string): nat {
    if s == "" then 0 else Octets(s[0]) + OctetsOf(s[1..])
  }

  function Encoded(s: string): seq<Byte> {
    if s == "" then [] else Utf8(s[0]) + Encoded(s[1..])
  }

  /** The octets counted are those of the UTF-8 encoding. */
  lemma {:induction false} OctetsAreBytes(s: string)
    ensures OctetsOf(s) == |Encoded(s)|
  {
    if s != "" {
      OctetsAreBytes(s[1..]);
    }
  }

  lemma {:induction false} OctetsConcat(a: string, b: string)
    ensures OctetsOf(a + b) == OctetsOf(a) + OctetsOf(b)
  {
    if a == "" {
      assert a + b == b;
    } else {
      OctetsConcat(a[1..], b);
      assert (a + b)[1..] == a[1..] + b;
    }
  }

  /** How a cutting of the value appears on the wire: a space in front of every continuation. */
  function Physical(chunks: seq<string>): (r: seq<string>)
    ensures |r| == |chunks|
    ensures forall i :: 0 <= i < |chunks| ==> r[i] == if i == 0 then chunks[0] else " " + chunks[i]
  {
    seq(|chunks|, i requires 0 <= i < |chunks| => if i == 0 then chunks[0] else " " + chunks[i])
  }

  /** Octets of physical line `i`, when the first line starts with `lead` octets already. */
  function LineOctets(chunks: seq<string>, i: nat, lead: nat): nat
    requires i < |chunks|
  {
    (if i == 0 then lead else 1) + OctetsOf(chunks[i])
  }

  /** Any fold: whole code points, nothing lost, every physical line within the limit. */
  ghost predicate Folds(chunks: seq<string>, value: string, lead: nat) {
    && chunks != [] && Concat(chunks) == value
    && forall i :: 0 <= i < |chunks| ==> LineOctets(chunks, i, lead) <= LINE_LIMIT
  }

  /** No line had room for the next code point. */
  ghost predicate Tight(chunks: seq<string>, lead: nat) {
    forall i :: 0 < i < |chunks| ==>
      chunks[i] != "" && LineOctets(chunks, i - 1, lead) + Octets(chunks[i][0]) > LINE_LIMIT
  }

  lemma {:induction false} OneCut(d0: string, rest: string, pre: string, c0: string, next: char, after: string)
    requires d0 + rest == pre + (c0 + ([next] + after)) && |rest| < 1 + |after|
    ensures OctetsOf(c0) + Octets(next) <= OctetsOf(d0)
  {
    var n := |pre| + |c0| + 1;
    var whole := d0 + rest;
    assert whole[..n] == pre + c0 + [next];
    assert d0 == whole[..|d0|] == whole[..n] + whole[n..|d0|];
    OctetsConcat(whole[..n], whole[n..|d0|]);
    OctetsConcat(pre + c0, [next]);
    OctetsConcat(pre, c0);
    assert OctetsOf([next]) == Octets(next);
  }

  lemma {:induction false} SplitAt(a: string, b: string, c: string, d: string)
    requires a + b == c + d && |d| <= |b|
    ensures b == b[..|b| - |d|] + d
  {
    var whole := a + b;
    assert d == whole[|whole| - |d|..] == b[|b| - |d|..];
  }

  lemma {:induction false} TailFolds(c: seq<string>, value: string, lead: nat)
    requires Folds(c, value, lead) && |c| > 1
    ensures Folds(c[1..], Concat(c[1..]), 1) && value == c[0] + Concat(c[1..])
    ensures Tight(c, lead) ==> Tight(c[1..], 1)
  {
    var t := c[1..];
    forall i | 0 <= i < |t| ensures LineOctets(t, i, 1) == LineOctets(c, i + 1, lead) {
    }
  }

  lemma {:induction false} FirstOf(c: seq<string>)
    requires |c| > 1 && c[1] != ""
    ensures Concat(c[1..]) != "" && Concat(c[1..])[0] == c[1][0]
  {
  }

  /** A first line reaching past the cut of another holds that cut's next code point too. */
  lemma {:induction false} Overlap(c: seq<string>, d: seq<string>, pre: string, lead: nat)
    requires |c| > 1 && c[1] != "" && d != []
    requires d[0] + Concat(d[1..]) == pre + (c[0] + Concat(c[1..]))
    ensures |Concat(d[1..])| < |Concat(c[1..])| ==> LineOctets(c, 0, lead) + Octets(c[1][0]) <= LineOctets(d, 0, lead)
  {
    FirstOf(c);
    var cRest := Concat(c[1..]);
    assert cRest == [c[1][0]] + cRest[1..];
    if |Concat(d[1..])| < |cRest| {
      OneCut(d[0], Concat(d[1..]), pre, c[0], c[1][0], cRest[1..]);
    }
  }

  /** Greedy stays ahead: a tight fold of a suffix needs no more lines than any fold. */
  lemma {:induction false} TightIsShortest(c: seq<string>, d: seq<string>, pre: string, value: string, lead: nat)
    requires Folds(c, value, lead) && Tight(c, lead) && Folds(d, pre + value, lead)
    ensures |c| <= |d|
    decreases |c|
  {
    if |c| > 1 {
      TailFolds(c, value, lead);
      FirstOf(c);
      var cRest, dRest := Concat(c[1..]), Concat(d[1..]);
      assert LineOctets(c, 0, lead) + Octets(c[1][0]) > LINE_LIMIT >= LineOctets(d, 0, lead);
      assert d[0] + dRest == pre + (c[0] + cRest);
      Overlap(c, d, pre, lead);
      assert d[1..] != [];
      TailFolds(d, pre + value, lead);
      assert d[0] + dRest == (pre + c[0]) + cRest;
      SplitAt(d[0], dRest, pre + c[0], cRest);
      TightIsShortest(c[1..], d[1..], dRest[..|dRest| - |cRest|], cRest, 1);
    }
  }

  lemma {:induction false} LastChunkGrows(chunks: seq<string>, c: char)
    requires chunks != []
    ensures var last := |chunks| - 1;
      Concat(chunks[..last] + [chunks[last] + [c]]) == Concat(chunks) + [c]
  {
    var last := |chunks| - 1;
    assert chunks == chunks[..last] + [chunks[last]];
    ConcatAppend(chunks[..last], [chunks[last]]);
    ConcatAppend(chunks[..last], [chunks[last] + [c]]);
    assert Concat([chunks[last]]) == chunks[last];
    assert Concat([chunks[last] + [c]]) == chunks[last] + [c];
  }

  lemma {:induction false} OctetsAppend(s: string, c: char)
    ensures OctetsOf(s + [c]) == OctetsOf(s) + Octets(c)
  {
    OctetsConcat(s, [c]);
    assert OctetsOf([c]) == Octets(c) + OctetsOf("");
  }

  /** Starting a new line when the last has no room keeps the fold tight. */
  lemma {:induction false} NewLine(chunks: seq<string>, value: string, c: char)
    requires Folds(chunks, value, 0) && Tight(chunks, 0)
    requires LineOctets(chunks, |chunks| - 1, 0) + Octets(c) > LINE_LIMIT
    ensures Folds(chunks + [[c]], value + [c], 0) && Tight(chunks + [[c]], 0)
    ensures Physical(chunks + [[c]]) == Physical(chunks) + [" " + [c]]
  {
    var longer := chunks + [[c]];
    ConcatAppend(chunks, [[c]]);
    assert Concat([[c]]) == [c];
    OctetsAppend("", c);
    assert "" + [c] == [c];
    SameOctets(chunks, longer);
    forall i | 0 < i < |longer|
      ensures longer[i] != "" && LineOctets(longer, i - 1, 0) + Octets(longer[i][0]) > LINE_LIMIT
    {
      assert i < |chunks| ==> chunks[i] == longer[i] && chunks[i] != "";
    }
    PhysicalAdds(chunks, c);
  }

  lemma {:induction false} SameOctets(chunks: seq<string>, longer: seq<string>)
    requires chunks <= longer
    ensures forall i :: 0 <= i < |chunks| ==> LineOctets(longer, i, 0) == LineOctets(chunks, i, 0)
  {
  }

  lemma {:induction false} PhysicalAdds(chunks: seq<string>, c: char)
    requires chunks != []
    ensures Physical(chunks + [[c]]) == Physical(chunks) + [" " + [c]]
  {
  }

  /** Extending a line that has room keeps the fold tight. */
  lemma {:induction false} SameLine(chunks: seq<string>, value: string, c: char)
    requires Folds(chunks, value, 0) && Tight(chunks, 0)
    requires LineOctets(chunks, |chunks| - 1, 0) + Octets(c) <= LINE_LIMIT
    ensures var longer := chunks[..|chunks| - 1] + [chunks[|chunks| - 1] + [c]];
      Folds(longer, value + [c], 0) && Tight(longer, 0) && |longer| == |chunks|
      && Physical(longer) == Physical(chunks)[..|chunks| - 1] + [Physical(chunks)[|chunks| - 1] + [c]]
  {
    var last := |chunks| - 1;
    var longer := chunks[..last] + [chunks[last] + [c]];
    LastChunkGrows(chunks, c);
    OctetsAppend(chunks[last], c);
    forall i | 0 <= i < |chunks|
      ensures LineOctets(longer, i, 0) == LineOctets(chunks, i, 0) + (if i == last then Octets(c) else 0)
    {
    }
    TightGrows(chunks, longer);
    PhysicalGrows(chunks, c);
  }

  lemma {:induction false} TightGrows(chunks: seq<string>, longer: seq<string>)
    requires Tight(chunks, 0) && |longer| == |chunks|
    requires forall i :: 0 <= i < |chunks| - 1 ==> longer[i] == chunks[i]
    requires chunks != [] && chunks[|chunks| - 1] <= longer[|chunks| - 1]
    ensures Tight(longer, 0)
  {
    forall i | 0 < i < |longer|
      ensures longer[i] != "" && LineOctets(longer, i - 1, 0) + Octets(longer[i][0]) > LINE_LIMIT
    {
      assert chunks[i] != "" && longer[i][0] == chunks[i][0];
      assert LineOctets(longer, i - 1, 0) == LineOctets(chunks, i - 1, 0);
    }
  }

  lemma {:induction false} PhysicalGrows(chunks: seq<string>, c: char)
    requires chunks != []
    ensures var last := |chunks| - 1;
      Physical(chunks[..last] + [chunks[last] + [c]]) == Physical(chunks)[..last] + [Physical(chunks)[last] + [c]]
  {
    var last := |chunks| - 1;
    var longer := chunks[..last] + [chunks[last] + [c]];
    assert Physical(longer)[last] == Physical(chunks)[last] + [c];
  }

  lemma {:induction false} PhysicalOctets(chunks: seq<string>, i: nat)
    requires i < |chunks|
    ensures OctetsOf(Physical(chunks)[i]) == LineOctets(chunks, i, 0)
  {
    if i > 0 {
      OctetsConcat(" ", chunks[i]);
      assert OctetsOf(" ") == Octets(' ') + OctetsOf("");
    }
  }

  /** The fold cuts nothing but whole code points, keeps every line within 75 octets with
      one leading space on each continuation, and no fold has fewer lines. */
  method FoldContentLine(value: string) returns (lines: seq<string>, ghost chunks: seq<string>)
    ensures lines == Physical(chunks) && Folds(chunks, value, 0) && Tight(chunks, 0)
    ensures forall line <- lines :: OctetsOf(line) <= 75
    ensures forall other :: Folds(other, value, 0) ==> |lines| <= |other|
  {
    var done: seq<string> := [];
    var current, currentOctets := "", 0;
    chunks := [""];
    assert Physical(chunks) == [""];
    for i := 0 to |value|
      invariant |chunks| == |done| + 1 && done + [current] == Physical(chunks)
      invariant Folds(chunks, value[..i], 0) && Tight(chunks, 0)
      invariant currentOctets == OctetsOf(current)
    {
      var character := value[i];
      var octets := Octets(character);
      assert value[..i + 1] == value[..i] + [character];
      assert current == Physical(chunks)[|chunks| - 1] && done == Physical(chunks)[..|chunks| - 1];
      PhysicalOctets(chunks, |chunks| - 1);
      if currentOctets + octets > LINE_LIMIT {
        NewLine(chunks, value[..i], character);
        OctetsAppend(" ", character);
        chunks := chunks + [[character]];
        done := done + [current];
        current := " " + [character];
        currentOctets := 1 + octets;
      } else {
        SameLine(chunks, value[..i], character);
        OctetsAppend(current, character);
        chunks := chunks[..|chunks| - 1] + [chunks[|chunks| - 1] + [character]];
        current := current + [character];
        currentOctets := currentOctets + octets;
      }
    }
    assert value[..|value|] == value;
    lines := done + [current];
    forall i | 0 <= i < |lines| ensures OctetsOf(lines[i]) <= LINE_LIMIT {
      PhysicalOctets(chunks, i);
    }
    forall other | Folds(other, value, 0) ensures |lines| <= |other| {
      assert "" + value == value;
      TightIsShortest(chunks, other, "", value, 0);
    }
  }

  // ---------- Unfolding ----------

  datatype Line = Line(value: string, physicalLines: seq<string>)

  predicate Breaks(c: char) {
    c == '\r' || c == '\n'
  }

  /** Cut at CRLF, LF or CR; the last piece is what follows the last terminator. */
  function SplitLines(source: string): (r: seq<string>)
    ensures r != []
  {
    if source == "" then [""]
    else if |source| > 1 && source[0] == '\r' && source[1] == '\n' then [""] + SplitLines(source[2..])
    else if Breaks(source[0]) then [""] + SplitLines(source[1..])
    else
      var rest := SplitLines(source[1..]);
      [[source[0]] + rest[0]] + rest[1..]
  }

  /** The physical lines of a text: a final empty piece is not a line. */
  function PhysicalLines(source: string): seq<string> {
    var pieces := SplitLines(source);
    if pieces[|pieces| - 1] == "" then pieces[..|pieces| - 1] else pieces
  }

  predicate Continues(line: string) {
    line != "" && (line[0] == ' ' || line[0] == '\t')
  }

  function Unfold(group: seq<string>): string
    requires group != [] && forall i :: 1 <= i < |group| ==> Continues(group[i])
  {
    if |group| == 1 then group[0]
    else
      assert Continues(group[|group| - 1]);
      Unfold(group[..|group| - 1]) + group[|group| - 1][1..]
  }

  /** A line with its physical lines: one head and continuations, unfolding to the value. */
  ghost predicate LineWellFormed(line: Line) {
    && line.physicalLines != []
    && (forall i :: 1 <= i < |line.physicalLines| ==> Continues(line.physicalLines[i]))
    && line.value == Unfold(line.physicalLines)
  }

  function AllPhysical(lines: seq<Line>): seq<string> {
    if lines == [] then [] else lines[0].physicalLines + AllPhysical(lines[1..])
  }

  /** A lossless reading: the groups are the physical lines in order, and every head but
      the first line's is not a continuation. */
  ghost predicate Reads(physical: seq<string>, lines: seq<Line>) {
    && AllPhysical(lines) == physical
    && (forall i :: 0 <= i < |lines| ==> LineWellFormed(lines[i]))
    && forall i :: 1 <= i < |lines| ==> !Continues(lines[i].physicalLines[0])
  }

  lemma {:induction false} Associative<T>(a: seq<T>, b: seq<T>, c: seq<T>)
    ensures a + (b + c) == a + b + c
  {
  }

  lemma {:induction false} AllPhysicalAppend(a: seq<Line>, b: seq<Line>)
    ensures AllPhysical(a + b) == AllPhysical(a) + AllPhysical(b)
  {
    if a == [] {
      assert a + b == b;
    } else {
      AllPhysicalAppend(a[1..], b);
      assert (a + b)[1..] == a[1..] + b && (a + b)[0] == a[0];
      Associative(a[0].physicalLines, AllPhysical(a[1..]), AllPhysical(b));
    }
  }

  lemma {:induction false} ContinueLast(lines: seq<Line>, physical: string)
    requires lines != [] && Continues(physical) && Reads(AllPhysical(lines), lines)
    ensures var last := lines[|lines| - 1];
      var longer := lines[|lines| - 1 := Line(last.value + physical[1..], last.physicalLines + [physical])];
      Reads(AllPhysical(lines) + [physical], longer)
  {
    var n := |lines| - 1;
    var last := lines[n];
    var grown := Line(last.value + physical[1..], last.physicalLines + [physical]);
    var longer := lines[n := grown];
    GrownLine(last, physical);
    forall i | 0 <= i < |longer|
      ensures LineWellFormed(longer[i]) && longer[i].physicalLines[0] == lines[i].physicalLines[0]
    {
    }
    LastGroupGrows(lines, grown, physical);
  }

  lemma {:induction false} LastGroupGrows(lines: seq<Line>, grown: Line, physical: string)
    requires lines != [] && grown.physicalLines == lines[|lines| - 1].physicalLines + [physical]
    ensures AllPhysical(lines[|lines| - 1 := grown]) == AllPhysical(lines) + [physical]
  {
    var n := |lines| - 1;
    var last := lines[n];
    assert lines == lines[..n] + [last] && lines[n := grown] == lines[..n] + [grown];
    AllPhysicalAppend(lines[..n], [last]);
    AllPhysicalAppend(lines[..n], [grown]);
    OneLine(last);
    OneLine(grown);
    Associative(AllPhysical(lines[..n]), last.physicalLines, [physical]);
  }

  lemma {:induction false} OneLine(line: Line)
    ensures AllPhysical([line]) == line.physicalLines
  {
    assert [line][1..] == [];
  }

  lemma {:induction false} GrownLine(last: Line, physical: string)
    requires LineWellFormed(last) && Continues(physical)
    ensures LineWellFormed(Line(last.value + physical[1..], last.physicalLines + [physical]))
  {
    var group := last.physicalLines + [physical];
    assert group[..|group| - 1] == last.physicalLines;
  }

  lemma {:induction false} AddLine(lines: seq<Line>, physical: string)
    requires Reads(AllPhysical(lines), lines) && (lines == [] || !Continues(physical))
    ensures Reads(AllPhysical(lines) + [physical], lines + [Line(physical, [physical])])
  {
    var line := Line(physical, [physical]);
    AllPhysicalAppend(lines, [line]);
    assert AllPhysical([line]) == [physical];
    assert LineWellFormed(line);
  }

  /** Group physical lines into content lines, extending the last line in place. */
  method ReadContentLines(source: string) returns (lines: seq<Line>)
    ensures Reads(PhysicalLines(source), lines)
  {
    var physicalLines := PhysicalLines(source);
    lines := [];
    for i := 0 to |physicalLines|
      invariant Reads(physicalLines[..i], lines)
    {
      var physicalLine := physicalLines[i];
      assert physicalLines[..i + 1] == physicalLines[..i] + [physicalLine];
      if Continues(physicalLine) && |lines| > 0 {
        ContinueLast(lines, physicalLine);
        var previous := lines[|lines| - 1];
        var grown := Line(previous.value + physicalLine[1..], previous.physicalLines + [physicalLine]);
        lines := lines[|lines| - 1 := grown];
      } else {
        AddLine(lines, physicalLine);
        lines := lines + [Line(physicalLine, [physicalLine])];
      }
    }
    assert physicalLines[..|physicalLines|] == physicalLines;
  }

  /** No other grouping of the physical lines is a reading. */
  lemma {:induction false} ReadingIsUnique(physical: seq<string>, a: seq<Line>, b: seq<Line>)
    requires Reads(physical, a) && Reads(physical, b)
    ensures a == b
    decreases |a|
  {
    if a == [] {
      assert b == [] || |AllPhysical(b)| > 0;
    } else {
      assert |AllPhysical(a)| > 0;
      assert b != [];
      FirstGroup(physical, a, b);
      FirstGroup(physical, b, a);
      var n := |a[0].physicalLines|;
      assert a[0].physicalLines == physical[..n] == b[0].physicalLines;
      assert AllPhysical(a[1..]) == physical[n..] == AllPhysical(b[1..]);
      ReadingIsUnique(physical[n..], a[1..], b[1..]);
    }
  }

  /** The first group of one reading cannot be longer than that of another. */
  lemma {:induction false} FirstGroup(physical: seq<string>, a: seq<Line>, b: seq<Line>)
    requires Reads(physical, a) && Reads(physical, b) && a != [] && b != []
    ensures |a[0].physicalLines| <= |b[0].physicalLines|
  {
    var n := |b[0].physicalLines|;
    assert physical == b[0].physicalLines + AllPhysical(b[1..]);
    assert physical == a[0].physicalLines + AllPhysical(a[1..]);
    if |b| > 1 {
      assert AllPhysical(b[1..])[0] == b[1].physicalLines[0];
      assert physical[n] == b[1].physicalLines[0];
      assert !Continues(physical[n]);
    }
  }

  // ---------- Round trips ----------

  datatype Terminator = CRLF | LF {
    function Text(): string {
      if CRLF? then "\r\n" else "\n"
    }
  }

  predicate NoBreaks(s: string) {
    forall i :: 0 <= i < |s| ==> !Breaks(s[i])
  }

  function Terminated(physical: seq<string>, ends: seq<Terminator>): string
    requires |ends| == |physical|
  {
    if physical == [] then "" else physical[0] + ends[0].Text() + Terminated(physical[1..], ends[1..])
  }

  lemma {:induction false} SplitOneLine(line: string, end: Terminator, rest: string)
    requires NoBreaks(line)
    ensures SplitLines(line + end.Text() + rest) == [line] + SplitLines(rest)
  {
    var source := line + end.Text() + rest;
    if line == "" {
      assert source[|end.Text()|..] == rest;
    } else {
      SplitOneLine(line[1..], end, rest);
      assert source[1..] == line[1..] + end.Text() + rest;
      assert line == [line[0]] + line[1..];
    }
  }

  lemma {:induction false} Regroup(a: string, b: string, c: string, d: string)
    ensures (a + b + c) + d == a + b + (c + d)
  {
  }

  lemma {:induction false} HeadRegroup(physical: seq<string>, rest: seq<string>)
    requires physical != []
    ensures [physical[0]] + (physical[1..] + rest) == physical + rest
  {
    assert physical == [physical[0]] + physical[1..];
  }

  /** Whatever mix of CRLF and LF ends the lines, splitting gives the lines back. */
  lemma {:induction false} SplitTerminated(physical: seq<string>, ends: seq<Terminator>, rest: string)
    requires |ends| == |physical| && forall line <- physical :: NoBreaks(line)
    ensures SplitLines(Terminated(physical, ends) + rest) == physical + SplitLines(rest)
  {
    if physical == [] {
      assert Terminated(physical, ends) + rest == rest;
    } else {
      var after := Terminated(physical[1..], ends[1..]);
      assert physical[0] in physical;
      SplitTerminated(physical[1..], ends[1..], rest);
      Regroup(physical[0], ends[0].Text(), after, rest);
      SplitOneLine(physical[0], ends[0], after + rest);
      HeadRegroup(physical, SplitLines(rest));
    }
  }

  /** Values a calendar object can hold: no line breaks, and only the first may look folded. */
  predicate Writable(values: seq<string>) {
    && (forall v <- values :: NoBreaks(v))
    && forall i :: 1 <= i < |values| ==> !Continues(values[i])
  }

  /** The lines as folded by FoldContentLine. */
  ghost predicate Folded(values: seq<string>, lines: seq<Line>) {
    && |lines| == |values|
    && forall i :: 0 <= i < |lines| ==> lines[i].value == values[i] && FoldedLine(lines[i])
  }

  ghost predicate FoldedLine(line: Line) {
    exists chunks :: line.physicalLines == Physical(chunks) && Folds(chunks, line.value, 0) && Tight(chunks, 0)
  }

  lemma {:induction false} PhysicalInit(chunks: seq<string>)
    requires |chunks| > 1
    ensures var n := |chunks| - 1;
      Physical(chunks)[..n] == Physical(chunks[..n]) && Physical(chunks)[n] == " " + chunks[n]
  {
  }

  lemma {:induction false} ConcatInit(chunks: seq<string>)
    requires chunks != []
    ensures var n := |chunks| - 1;
      Concat(chunks) == Concat(chunks[..n]) + chunks[n]
  {
    var n := |chunks| - 1;
    assert chunks == chunks[..n] + [chunks[n]];
    ConcatAppend(chunks[..n], [chunks[n]]);
    assert Concat([chunks[n]]) == chunks[n] + Concat([chunks[n]][1..]);
  }

  lemma {:induction false} UnfoldPhysical(chunks: seq<string>)
    requires chunks != []
    ensures forall i :: 1 <= i < |chunks| ==> Continues(Physical(chunks)[i])
    ensures Unfold(Physical(chunks)) == Concat(chunks)
  {
    var n := |chunks| - 1;
    ConcatInit(chunks);
    if n > 0 {
      PhysicalInit(chunks);
      UnfoldPhysical(chunks[..n]);
    } else {
      assert Concat(chunks[..0]) == "";
    }
  }

  lemma {:induction false} PiecesOf(chunks: seq<string>, i: nat)
    requires i < |chunks| && NoBreaks(Concat(chunks))
    ensures NoBreaks(chunks[i])
  {
    assert Concat(chunks) == chunks[0] + Concat(chunks[1..]);
    if i == 0 {
      forall k | 0 <= k < |chunks[0]| ensures !Breaks(chunks[0][k]) {
        assert Concat(chunks)[k] == chunks[0][k];
      }
    } else {
      forall k | 0 <= k < |Concat(chunks[1..])| ensures !Breaks(Concat(chunks[1..])[k]) {
        assert Concat(chunks)[|chunks[0]| + k] == Concat(chunks[1..])[k];
      }
      PiecesOf(chunks[1..], i - 1);
    }
  }

  lemma {:induction false} PhysicalPieces(chunks: seq<string>)
    requires NoBreaks(Concat(chunks))
    ensures forall p <- Physical(chunks) :: NoBreaks(p)
  {
    forall i | 0 <= i < |chunks| ensures NoBreaks(Physical(chunks)[i]) {
      PiecesOf(chunks, i);
    }
  }

  /** What a folded line looks like from outside. */
  lemma {:induction false} FoldedLineShape(line: Line)
    requires FoldedLine(line) && NoBreaks(line.value)
    ensures LineWellFormed(line) && (forall p <- line.physicalLines :: NoBreaks(p))
    ensures Continues(line.physicalLines[0]) <==> Continues(line.value)
  {
    var chunks :| line.physicalLines == Physical(chunks) && Folds(chunks, line.value, 0) && Tight(chunks, 0);
    UnfoldPhysical(chunks);
    PhysicalPieces(chunks);
    HeadOfFold(chunks, line.value);
  }

  lemma {:induction false} HeadOfFold(chunks: seq<string>, value: string)
    requires Folds(chunks, value, 0) && Tight(chunks, 0)
    ensures Continues(chunks[0]) <==> Continues(value)
  {
    assert value == chunks[0] + Concat(chunks[1..]);
    if |chunks| > 1 {
      assert LineOctets(chunks, 0, 0) + Octets(chunks[1][0]) > LINE_LIMIT;
      assert chunks[0] != "";
    } else {
      assert Concat(chunks[1..]) == "";
    }
  }

  lemma {:induction false} AllPhysicalNoBreaks(lines: seq<Line>)
    requires forall i :: 0 <= i < |lines| ==> forall p <- lines[i].physicalLines :: NoBreaks(p)
    ensures forall p <- AllPhysical(lines) :: NoBreaks(p)
  {
    if lines != [] {
      AllPhysicalNoBreaks(lines[1..]);
      assert forall p <- lines[0].physicalLines :: NoBreaks(p);
    }
  }

  /** Main result: fold any writable values, end each physical line with CRLF or LF, and
      reading gives back exactly the values with exactly their physical lines. */
  lemma {:induction false} FoldedTextReadsBack(values: seq<string>, lines: seq<Line>, ends: seq<Terminator>,
                                               read: seq<Line>)
    requires Writable(values) && Folded(values, lines) && |ends| == |AllPhysical(lines)|
    requires Reads(PhysicalLines(Terminated(AllPhysical(lines), ends)), read)
    ensures read == lines
  {
    var physical := AllPhysical(lines);
    forall i | 0 <= i < |lines|
      ensures LineWellFormed(lines[i]) && (forall p <- lines[i].physicalLines :: NoBreaks(p))
      ensures i > 0 ==> !Continues(lines[i].physicalLines[0])
    {
      assert values[i] in values;
      FoldedLineShape(lines[i]);
    }
    AllPhysicalNoBreaks(lines);
    var source := Terminated(physical, ends);
    SplitTerminated(physical, ends, "");
    assert source + "" == source;
    assert SplitLines(source) == physical + [""];
    assert PhysicalLines(source) == physical;
    ReadingIsUnique(physical, read, lines);
  }
}
