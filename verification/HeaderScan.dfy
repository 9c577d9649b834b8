/** Cutting a content line at colons and semicolons that stand outside quotes
    (section 3.1 of RFC 5545; a quote after a caret does not count). */
module HeaderScan {
  import opened Common

  predicate Toggles(h: string, i: nat)
    requires i < |h|
  {
    h[i] == '"' && (i == 0 || h[i - 1] != '^')
  }

  /** Is position `i` inside quotes, counting every toggling quote before it? */
  predicate QuotedAt(h: string, i: nat)
    requires i <= |h|
  {
    i > 0 && (QuotedAt(h, i - 1) != Toggles(h, i - 1))
  }

  predicate OpenAt(h: string, c: char, i: nat)
    requires i < |h|
  {
    h[i] == c && !QuotedAt(h, i)
  }

  /** The character occurs nowhere outside quotes. */
  predicate Closed(h: string, c: char) {
    forall i :: 0 <= i < |h| ==> !OpenAt(h, c, i)
  }

  predicate Balanced(h: string) {
    !QuotedAt(h, |h|)
  }

  /** The first open occurrence at or after `i`, or the length when there is none. */
  function NextOpen(h: string, c: char, i: nat): (k: nat)
    requires i <= |h|
    ensures i <= k <= |h|
    ensures k < |h| ==> OpenAt(h, c, k)
    ensures forall j :: i <= j < k ==> !OpenAt(h, c, j)
    decreases |h| - i
  {
    if i == |h| || OpenAt(h, c, i) then i else NextOpen(h, c, i + 1)
  }

  /** The segments between open semicolons. */
  function Segments(h: string): (r: seq<string>)
    ensures r != []
    decreases |h|
  {
    var k := NextOpen(h, ';', 0);
    if k == |h| then [h] else [h[..k]] + Segments(h[k + 1..])
  }

  // ---------- Quoting does not look across a cut ----------

  lemma {:induction false} QuotedPrefix(a: string, b: string, i: nat)
    requires i <= |a|
    ensures QuotedAt(a + b, i) == QuotedAt(a, i)
  {
    if i > 0 {
      QuotedPrefix(a, b, i - 1);
    }
  }

  lemma {:induction false} QuotedSuffix(a: string, b: string, i: nat)
    requires i <= |b| && (a == "" || a[|a| - 1] != '^') && Balanced(a)
    ensures QuotedAt(a + b, |a| + i) == QuotedAt(b, i)
  {
    if i == 0 {
      QuotedPrefix(a, b, |a|);
    } else {
      QuotedSuffix(a, b, i - 1);
      assert (a + b)[|a| + i - 1] == b[i - 1];
      assert i > 1 ==> (a + b)[|a| + i - 2] == b[i - 2];
    }
  }

  /** A balanced, closed head followed by the separator: the separator is the first open one,
      and what follows scans as if it stood alone. */
  lemma {:induction false} CutAt(a: string, c: char, b: string)
    requires Balanced(a) && Closed(a, c) && c != '"' && c != '^'
    ensures NextOpen(a + [c] + b, c, 0) == |a|
    ensures forall i :: 0 <= i <= |b| ==> QuotedAt(a + [c] + b, |a| + 1 + i) == QuotedAt(b, i)
  {
    var h := a + [c] + b;
    forall i | 0 <= i <= |a| ensures QuotedAt(h, i) == QuotedAt(a, i) {
      assert h == a + ([c] + b);
      QuotedPrefix(a, [c] + b, i);
    }
    assert OpenAt(h, c, |a|);
    forall i | 0 <= i < |a| ensures !OpenAt(h, c, i) {
      assert !OpenAt(a, c, i);
    }
    var head := a + [c];
    QuotedPrefix(a, [c], |a|);
    assert !Toggles(head, |a|);
    forall i | 0 <= i <= |b| ensures QuotedAt(h, |a| + 1 + i) == QuotedAt(b, i) {
      QuotedSuffix(head, b, i);
    }
  }

  lemma {:induction false} ClosedHead(h: string, c: char, k: nat)
    requires k < |h| && OpenAt(h, c, k) && forall j :: 0 <= j < k ==> !OpenAt(h, c, j)
    ensures Balanced(h[..k]) && Closed(h[..k], c) && h == h[..k] + [c] + h[k + 1..]
  {
    assert h == h[..k] + h[k..];
    forall i | 0 <= i <= k ensures QuotedAt(h[..k], i) == QuotedAt(h, i) {
      QuotedPrefix(h[..k], h[k..], i);
    }
    forall i | 0 <= i < k ensures !OpenAt(h[..k], c, i) {
      assert !OpenAt(h, c, i);
    }
  }

  /** Segments that can be told apart again: each closed, all but the last balanced. */
  predicate Separable(segments: seq<string>) {
    && segments != []
    && (forall i :: 0 <= i < |segments| ==> Closed(segments[i], ';'))
    && forall i :: 0 <= i < |segments| - 1 ==> var s := segments[i]; Balanced(s)
  }

  /** Splitting what was joined gives the segments back. */
  lemma {:induction false} SplitJoin(segments: seq<string>)
    requires Separable(segments)
    ensures Segments(Join(segments, ";")) == segments
  {
    if |segments| == 1 {
      assert NextOpen(segments[0], ';', 0) == |segments[0]|;
    } else {
      var rest := segments[1..];
      var tail := Join(rest, ";");
      var h := segments[0] + [';'] + tail;
      forall i | 0 <= i < |rest| - 1 ensures Balanced(rest[i]) {
        assert rest[i] == segments[i + 1];
      }
      SplitJoin(rest);
      CutAt(segments[0], ';', tail);
      assert Join(segments, ";") == h;
      assert h[..|segments[0]|] == segments[0] && h[|segments[0]| + 1..] == tail;
    }
  }

  /** Joining what was split gives the header back, and the pieces are separable. */
  lemma {:induction false} JoinSplit(h: string)
    ensures Separable(Segments(h)) && Join(Segments(h), ";") == h
    decreases |h|
  {
    var k := NextOpen(h, ';', 0);
    if k < |h| {
      ClosedHead(h, ';', k);
      JoinSplit(h[k + 1..]);
      var rest := Segments(h[k + 1..]);
      assert Segments(h)[1..] == rest;
      forall i | 0 <= i < |Segments(h)| - 1 ensures Balanced(Segments(h)[i]) {
        assert i > 0 ==> Segments(h)[i] == rest[i - 1];
      }
      assert Join(Segments(h), ";") == h[..k] + ";" + Join(rest, ";");
    }
  }

  // ---------- The two scanners of the source ----------

  /** A scan of a header that has cut `segments`, is at `i`, and began its segment at `start`. */
  ghost predicate Scanned(h: string, segments: seq<string>, start: nat, i: nat, quoted: bool) {
    && start <= i <= |h|
    && quoted == QuotedAt(h[start..], i - start)
    && (forall j :: 0 <= j < i - start ==> !OpenAt(h[start..], ';', j))
    && (start > 0 ==> h[start - 1] == ';')
    && Segments(h) == segments + Segments(h[start..])
  }

  lemma {:induction false} ScanStart(h: string)
    ensures Scanned(h, [], 0, 0, false)
  {
    assert h[0..] == h;
  }

  lemma {:induction false} ScanStep(h: string, segments: seq<string>, start: nat, i: nat, quoted: bool)
    requires i < |h| && Scanned(h, segments, start, i, quoted)
    ensures h[i] == ';' && !quoted ==> Scanned(h, segments + [h[start..i]], i + 1, i + 1, false)
    ensures !(h[i] == ';' && !quoted) ==> Scanned(h, segments, start, i + 1, quoted != Toggles(h, i))
  {
    var s := h[start..];
    var n := i - start;
    assert s[n] == h[i];
    assert n > 0 ==> s[n - 1] == h[i - 1];
    assert Toggles(h, i) == Toggles(s, n);
    if h[i] == ';' && !quoted {
      CutStep(h, segments, start, i);
    }
  }

  lemma {:induction false} CutStep(h: string, segments: seq<string>, start: nat, i: nat)
    requires i < |h| && Scanned(h, segments, start, i, false) && h[i] == ';'
    ensures Scanned(h, segments + [h[start..i]], i + 1, i + 1, false)
  {
    CutRest(h, h[start..], start, i);
    Regroup(segments, h[start..i], Segments(h[i + 1..]));
  }

  lemma {:induction false} CutRest(h: string, rest: string, start: nat, i: nat)
    requires start <= i < |h| && rest == h[start..] && h[i] == ';' && !QuotedAt(rest, i - start)
    requires forall j :: 0 <= j < i - start ==> !OpenAt(rest, ';', j)
    ensures Segments(rest) == [h[start..i]] + Segments(h[i + 1..])
  {
    SliceOfSlice(h, start, i);
    FirstCut(rest, i - start);
  }

  lemma {:induction false} SliceOfSlice(h: string, start: nat, i: nat)
    requires start <= i < |h|
    ensures h[start..][..i - start] == h[start..i] && h[start..][i - start + 1..] == h[i + 1..]
    ensures h[start..][i - start] == h[i]
  {
  }

  lemma {:induction false} Regroup(a: seq<string>, x: string, rest: seq<string>)
    ensures a + ([x] + rest) == a + [x] + rest
  {
  }

  lemma {:induction false} FirstCut(s: string, n: nat)
    requires n < |s| && OpenAt(s, ';', n) && forall j :: 0 <= j < n ==> !OpenAt(s, ';', j)
    ensures Segments(s) == [s[..n]] + Segments(s[n + 1..])
  {
    assert NextOpen(s, ';', 0) == n;
  }

  lemma {:induction false} ScanEnd(h: string, segments: seq<string>, start: nat, quoted: bool)
    requires Scanned(h, segments, start, |h|, quoted)
    ensures Segments(h) == segments + [h[start..]]
  {
    assert NextOpen(h[start..], ';', 0) == |h[start..]|;
  }

  /** The scanner that slices the header. */
  method SplitContentLineHeader(header: string) returns (segments: seq<string>)
    ensures segments == Segments(header)
  {
    segments := [];
    var start := 0;
    var quoted := false;
    ScanStart(header);
    for index := 0 to |header|
      invariant Scanned(header, segments, start, index, quoted)
    {
      ScanStep(header, segments, start, index, quoted);
      if header[index] == '"' && (index == 0 || header[index - 1] != '^') {
        quoted := !quoted;
      } else if header[index] == ';' && !quoted {
        segments := segments + [header[start..index]];
        start := index + 1;
      }
    }
    ScanEnd(header, segments, start, quoted);
    segments := segments + [header[start..]];
  }

  /** The scanner that accumulates characters: the same segments on every header. */
  method ScanParameterSegments(header: string) returns (segments: seq<string>)
    ensures segments == Segments(header)
  {
    hide Scanned, Segments, QuotedAt;
    segments := [];
    var segment := "";
    var quoted := false;
    ghost var start := 0;
    ScanStart(header);
    for index := 0 to |header|
      invariant start <= index && Scanned(header, segments, start, index, quoted)
      invariant segment == header[start..index]
    {
      ScanStep(header, segments, start, index, quoted);
      var character := header[index];
      if character == '"' && (index == 0 || header[index - 1] != '^') {
        quoted := !quoted;
      }
      if character == ';' && !quoted {
        segments := segments + [segment];
        segment := "";
        start := index + 1;
      } else {
        segment := segment + [character];
      }
    }
    ScanEnd(header, segments, start, quoted);
    assert segment == header[start..];
    segments := segments + [segment];
  }

  /** The first colon outside quotes, or -1. */
  method ContentLineColonIndex(line: string) returns (at: int)
    ensures at == if NextOpen(line, ':', 0) == |line| then -1 else NextOpen(line, ':', 0)
  {
    var quoted := false;
    for index := 0 to |line|
      invariant quoted == QuotedAt(line, index)
      invariant forall j :: 0 <= j < index ==> !OpenAt(line, ':', j)
    {
      if line[index] == '"' && (index == 0 || line[index - 1] != '^') {
        quoted := !quoted;
      } else if line[index] == ':' && !quoted {
        assert OpenAt(line, ':', index);
        return index;
      }
    }
    at := -1;
  }

  // ---------- Parsing a content line ----------

  datatype ParsedLine = ParsedLine(name: string, header: string, value: string)

  function LowerChar(c: char): char {
    if 'A' <= c <= 'Z' then (c as int + 32) as char else c
  }

  function Lower(s: string): (r: string)
    ensures |r| == |s| && forall i :: 0 <= i < |s| ==> r[i] == LowerChar(s[i])
  {
    if s == "" then "" else [LowerChar(s[0])] + Lower(s[1..])
  }

  /** Each capital becomes the small letter at its place in the alphabet, all else stays. */
  lemma {:induction false} LowerMeans(s: string, i: nat)
    requires i < |s|
    ensures 'A' <= s[i] <= 'Z' ==> Lower(s)[i] as int - 'a' as int == s[i] as int - 'A' as int
    ensures s[i] < 'A' || 'Z' < s[i] ==> Lower(s)[i] == s[i]
  {
    assert Lower(s)[i] == LowerChar(s[i]);
  }

  function NameOf(header: string): string {
    Lower(Trim(header[..IndexOf(header, ';')]))
  }

  function Parsed(line: string): Option<ParsedLine> {
    var at := NextOpen(line, ':', 0);
    if at == |line| || NameOf(line[..at]) == "" then None
    else Some(ParsedLine(NameOf(line[..at]), line[..at], line[at + 1..]))
  }

  method ParseContentLine(line: string) returns (parsed: Option<ParsedLine>)
    ensures parsed == Parsed(line)
  {
    var colonIndex := ContentLineColonIndex(line);
    if colonIndex < 0 {
      return None;
    }
    var header := line[..colonIndex];
    var name := Lower(Trim(header[..IndexOf(header, ';')]));
    parsed := if name == "" then None else Some(ParsedLine(name, header, line[colonIndex + 1..]));
  }

  /** The line is cut at its first colon outside quotes and nothing is lost. */
  lemma {:induction false} ParseCuts(line: string)
    ensures Parsed(line).Some? ==>
      var p := Parsed(line).value;
      p.header + ":" + p.value == line && Balanced(p.header) && Closed(p.header, ':')
  {
    var at := NextOpen(line, ':', 0);
    if at < |line| {
      ClosedHead(line, ':', at);
    }
  }

  /** A named property with separable segments and any value at all parses back. */
  lemma {:induction false} ParseBuilds(segments: seq<string>, value: string)
    requires Separable(segments) && Balanced(Join(segments, ";")) && Closed(Join(segments, ";"), ':')
    requires NameOf(segments[0]) != "" && ';' !in segments[0]
    ensures var header := Join(segments, ";");
      Parsed(header + ":" + value) == Some(ParsedLine(Lower(Trim(segments[0])), header, value))
      && Segments(header) == segments
  {
    var header := Join(segments, ";");
    var line := header + [':'] + value;
    CutAt(header, ':', value);
    SplitJoin(segments);
    assert line[..|header|] == header && line[|header| + 1..] == value;
    NameOfJoin(segments);
  }

  lemma {:induction false} NameOfJoin(segments: seq<string>)
    requires segments != [] && ';' !in segments[0]
    ensures NameOf(Join(segments, ";")) == NameOf(segments[0]) == Lower(Trim(segments[0]))
  {
    var first, header := segments[0], Join(segments, ";");
    assert IndexOf(first, ';') == |first|;
    assert first[..|first|] == first;
    if |segments| > 1 {
      assert header == first + [';'] + Join(segments[1..], ";");
      assert header[|first|] == ';';
      assert forall j :: 0 <= j < |first| ==> header[j] == first[j];
      assert IndexOf(header, ';') == |first|;
      assert header[..|first|] == first;
    }
  }

  // ---------- Parameters ----------

  datatype Parameter = Parameter(name: string, value: Option<string>)

  function Unquote(raw: string): string {
    if |raw| >= 2 && raw[0] == '"' && raw[|raw| - 1] == '"' then raw[1..|raw| - 1] else raw
  }

  function ParameterOf(segment: string): Parameter {
    var at := IndexOf(segment, '=');
    Parameter(Lower(Trim(segment[..at])), if at == |segment| then None else Some(Unquote(Trim(segment[at + 1..]))))
  }

  function ParametersOf(segments: seq<string>): (r: seq<Parameter>)
    ensures |r| == |segments| && forall i :: 0 <= i < |segments| ==> r[i] == ParameterOf(segments[i])
  {
    if segments == [] then [] else [ParameterOf(segments[0])] + ParametersOf(segments[1..])
  }

  /** `contentLineParameters`: one parameter for each segment after the property. */
  method ContentLineParameters(header: string) returns (parameters: seq<Parameter>)
    ensures parameters == ParametersOf(Segments(header)[1..])
  {
    var segments := ScanParameterSegments(header);
    parameters := ParametersOf(segments[1..]);
  }

  /** A parameter as written: quoted whenever the value needs it. */
  function ParameterText(p: Parameter, quoted: bool): string {
    if p.value.None? then p.name
    else p.name + "=" + if quoted then "\"" + p.value.value + "\"" else p.value.value
  }

  /** Names are lower case without blanks or punctuation; a quoted value holds no quote, and a
      bare one has no quote, semicolon or surrounding blanks. */
  predicate WritableParameter(p: Parameter, quoted: bool) {
    && p.name != "" && Lower(p.name) == p.name && Plain(p.name) && '=' !in p.name
    && (p.value.Some? ==>
          && '"' !in p.value.value && (quoted ==> (p.value.value == "" || p.value.value[|p.value.value| - 1] != '^'))
          && (!quoted ==> Plain(p.value.value)))
  }

  predicate Plain(s: string) {
    forall i :: 0 <= i < |s| ==> !Blank(s[i]) && s[i] != '"' && s[i] != ';'
  }

  lemma {:induction false} TrimIdle(s: string)
    requires s == "" || (!Blank(s[0]) && !Blank(s[|s| - 1]))
    ensures Trim(s) == s
  {
  }

  lemma {:induction false} NoQuotesNoQuoting(s: string, i: nat)
    requires i <= |s| && '"' !in s
    ensures !QuotedAt(s, i)
  {
    if i > 0 {
      NoQuotesNoQuoting(s, i - 1);
      assert s[i - 1] in s;
    }
  }

  /** Every writable parameter survives being written and read. */
  lemma {:induction false} ParameterReadsBack(p: Parameter, quoted: bool)
    requires WritableParameter(p, quoted)
    ensures var text := ParameterText(p, quoted);
      ParameterOf(text) == p && Closed(text, ';') && Balanced(text)
  {
    var text := ParameterText(p, quoted);
    TrimIdle(p.name);
    assert p.name[..|p.name|] == p.name;
    if p.value.None? {
      forall i | 0 <= i <= |text| ensures !QuotedAt(text, i) {
        NoQuotesNoQuoting(text, i);
      }
    } else {
      var v := p.value.value;
      var raw := if quoted then "\"" + v + "\"" else v;
      assert text == p.name + ['='] + raw;
      assert IndexOf(text, '=') == |p.name| by {
        assert text[|p.name|] == '=';
        assert forall j :: 0 <= j < |p.name| ==> text[j] == p.name[j] && text[j] in p.name;
      }
      assert text[..|p.name|] == p.name && text[|p.name| + 1..] == raw;
      TrimIdle(raw);
      if quoted {
        assert raw[1..|raw| - 1] == v;
      }
      RawValueScan(v, quoted);
      NameScan(p.name, raw);
    }
  }

  function ParameterTexts(ps: seq<Parameter>, quoted: seq<bool>): (r: seq<string>)
    requires |quoted| == |ps|
    ensures |r| == |ps| && forall i :: 0 <= i < |ps| ==> r[i] == ParameterText(ps[i], quoted[i])
  {
    seq(|ps|, i requires 0 <= i < |ps| => ParameterText(ps[i], quoted[i]))
  }

  /** A header written from writable parameters gives just these, in order. */
  lemma {:induction false} ParametersReadBack(property: string, ps: seq<Parameter>, quoted: seq<bool>)
    requires |quoted| == |ps| && Closed(property, ';') && Balanced(property)
    requires forall i :: 0 <= i < |ps| ==> WritableParameter(ps[i], quoted[i])
    ensures ParametersOf(Segments(Join([property] + ParameterTexts(ps, quoted), ";"))[1..]) == ps
  {
    var segments := [property] + ParameterTexts(ps, quoted);
    forall i | 0 <= i < |segments|
      ensures Closed(segments[i], ';') && Balanced(segments[i])
      ensures i > 0 ==> ParameterOf(segments[i]) == ps[i - 1]
    {
      if i > 0 {
        ParameterReadsBack(ps[i - 1], quoted[i - 1]);
      }
    }
    SplitJoin(segments);
  }

  lemma {:induction false} RawValueScan(v: string, quoted: bool)
    requires '"' !in v && (quoted ==> (v == "" || v[|v| - 1] != '^')) && (!quoted ==> ';' !in v)
    ensures var raw := if quoted then "\"" + v + "\"" else v;
      Balanced(raw) && Closed(raw, ';')
  {
    if quoted {
      var raw := "\"" + v + "\"";
      forall i | 1 <= i <= |v| + 1 ensures QuotedAt(raw, i) {
        InsideQuotes(v, i);
      }
      assert Toggles(raw, |v| + 1) by {
        assert v != "" ==> raw[|v|] == v[|v| - 1];
      }
      forall i | 0 <= i < |raw| ensures !OpenAt(raw, ';', i) {
      }
    } else {
      forall i | 0 <= i <= |v| ensures !QuotedAt(v, i) {
        NoQuotesNoQuoting(v, i);
      }
    }
  }

  lemma {:induction false} InsideQuotes(v: string, i: nat)
    requires '"' !in v && 1 <= i <= |v| + 1
    ensures QuotedAt("\"" + v + "\"", i)
  {
    var raw := "\"" + v + "\"";
    if i == 1 {
      assert Toggles(raw, 0) && !QuotedAt(raw, 0);
    } else {
      InsideQuotes(v, i - 1);
      assert raw[i - 1] == v[i - 2] && v[i - 2] in v;
    }
  }

  lemma {:induction false} NameScan(name: string, raw: string)
    requires Plain(name) && Balanced(raw) && Closed(raw, ';')
    ensures Balanced(name + ['='] + raw) && Closed(name + ['='] + raw, ';')
  {
    var head := name + ['='];
    assert '"' !in head;
    forall i | 0 <= i <= |head| ensures !QuotedAt(head, i) {
      NoQuotesNoQuoting(head, i);
    }
    var text := head + raw;
    forall i | 0 <= i <= |raw| ensures QuotedAt(text, |head| + i) == QuotedAt(raw, i) {
      QuotedSuffix(head, raw, i);
    }
    forall i | 0 <= i < |text| ensures !OpenAt(text, ';', i) {
      if i >= |head| {
        assert !OpenAt(raw, ';', i - |head|);
      } else {
        assert text[i] == head[i];
      }
    }
  }
}
