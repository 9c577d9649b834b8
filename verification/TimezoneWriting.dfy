/** The zones that a definition can be written for, and when two of them match: a statement about
    what is written, which names nothing of how the comparison reads it. */
module TimezoneWriting {
  import opened Common
  import opened StableJson
  import opened TimezoneProjection

  /** A UTC offset as it is spelt. */
  datatype Offset = Offset(negative: bool, hours: int, minutes: int, seconds: Option<int>, colon1: bool, colon2: bool)

  predicate InRange(o: Offset) {
    0 <= o.hours <= 23 && 0 <= o.minutes <= 59 && (o.seconds.Some? ==> 0 <= o.seconds.value <= 59)
  }

  function OffsetText(o: Offset): string
    requires InRange(o)
  {
    [if o.negative then '-' else '+'] + ClockText(o.hours, o.minutes, o.seconds, o.colon1, o.colon2)
  }

  function InSeconds(o: Offset): int {
    (if o.negative then -1 else 1)
    * (o.hours * 3600 + o.minutes * 60 + if o.seconds.Some? then o.seconds.value else 0)
  }

  /** One STANDARD or DAYLIGHT rule to be written: its dates packed into RDATE lines, its display
      names, and in which of two ways each line says that it has no parameters. */
  datatype Rules = Rules(
    kind: string, start: string, from: Offset, to: Offset, rule: Option<Json>, dates: seq<seq<string>>,
    names: seq<Property>, listed: nat -> bool)

  predicate Writable(w: Rules) {
    && (w.kind == "standard" || w.kind == "daylight") && InRange(w.from) && InRange(w.to)
    && (w.rule.Some? ==> w.rule.value.Obj? || w.rule.value.Arr?)
    && (forall texts <- w.dates :: texts != [])
    && (forall p <- w.names :: p.name == "tzname")
  }

  function Nothing(listed: bool): Json {
    if listed then Arr([]) else Obj([])
  }

  function Line(w: Rules, k: nat, name: string, kind: string, value: Json): Property {
    Property(name, Nothing(w.listed(k)), kind, [value])
  }

  function RuleLines(w: Rules): seq<Property> {
    if w.rule.None? then [] else [Line(w, 3, "rrule", "recur", w.rule.value)]
  }

  function DateLines(dates: seq<seq<string>>, listed: nat -> bool, k: nat): (r: seq<Property>)
    ensures |r| == |dates| && forall p <- r :: p.name == "rdate"
  {
    if dates == [] then []
    else [Property("rdate", Nothing(listed(k)), "date-time", TextsToJson(dates[0]))]
         + DateLines(dates[1..], listed, k + 1)
  }

  function FirstLines(w: Rules): seq<Property>
    requires Writable(w)
  {
    [Line(w, 0, "dtstart", "date-time", Str(w.start)),
     Line(w, 1, "tzoffsetfrom", "utc-offset", Str(OffsetText(w.from))),
     Line(w, 2, "tzoffsetto", "utc-offset", Str(OffsetText(w.to)))]
  }

  function Lines(w: Rules): seq<Property>
    requires Writable(w)
  {
    FirstLines(w) + (RuleLines(w) + (DateLines(w.dates, w.listed, 4) + w.names))
  }

  /** The component holds these lines, in any order. */
  ghost predicate IsObservance(o: Component, w: Rules) {
    && Writable(w) && o.name == w.kind && o.components == []
    && multiset(o.properties) == multiset(Lines(w))
  }

  /** What is written, in seconds and up to the order of keys and of dates. */
  function Fact(w: Rules): Observance {
    Observance(
      w.kind, w.start, InSeconds(w.from), InSeconds(w.to),
      if w.rule.None? then VUndefined else Meaning(w.rule.value),
      multiset(Concat(w.dates)))
  }

  function Facts(ws: seq<Rules>): (r: seq<Observance>)
    ensures |r| == |ws| && forall i :: 0 <= i < |ws| ==> r[i] == Fact(ws[i])
  {
    if ws == [] then [] else [Fact(ws[0])] + Facts(ws[1..])
  }

  predicate DistinctNames(ps: seq<Property>) {
    forall i, j :: 0 <= i < j < |ps| ==> ps[i].name != ps[j].name
  }

  ghost predicate Header(tzid: Property, rest: seq<Property>, ps: seq<Property>, id: string) {
    && tzid.name == "tzid" && tzid.kind == "text" && tzid.values == [Str(id)]
    && (tzid.parameters == Obj([]) || tzid.parameters == Arr([]))
    && (forall p <- rest :: p.name == "x-lic-location" || p.name == "x-proleptic-tzname") && DistinctNames(rest)
    && multiset(ps) == multiset([tzid] + rest)
  }

  /** The component is a zone of this identifier with these observances, and nothing but
      informational properties beside them, none of them twice. */
  ghost predicate IsZone(c: Component, id: string, ws: seq<Rules>) {
    && c.name == "vtimezone" && ws != [] && |c.components| == |ws|
    && (forall i :: 0 <= i < |ws| ==> IsObservance(c.components[i], ws[i]))
    && exists tzid, rest :: Header(tzid, rest, c.properties, id)
  }

  // ---------- What is written is well formed and means what it says ----------

  lemma {:induction false} OffsetWritten(o: Offset)
    requires InRange(o)
    ensures ParseOffsetSeconds(OffsetText(o)) == Some(InSeconds(o))
  {
    OffsetReadsBack(o.negative, o.hours, o.minutes, o.seconds, o.colon1, o.colon2);
  }

  lemma {:induction false} StringsWritten(texts: seq<string>)
    ensures (forall v <- TextsToJson(texts) :: v.Str?) && Strings(TextsToJson(texts)) == texts
  {
    if texts != [] {
      assert TextsToJson(texts)[1..] == TextsToJson(texts[1..]);
      StringsWritten(texts[1..]);
      assert texts == [texts[0]] + texts[1..];
    }
  }

  lemma {:induction false} DatesWritten(dates: seq<seq<string>>, listed: nat -> bool, k: nat)
    requires forall texts <- dates :: texts != []
    ensures forall p <- DateLines(dates, listed, k) :: ValidDates(p)
    ensures Dates(DateLines(dates, listed, k)) == Concat(dates)
  {
    if dates != [] {
      var lines := DateLines(dates, listed, k);
      assert dates[0] in dates && forall texts <- dates[1..] :: texts in dates;
      StringsWritten(dates[0]);
      DatesWritten(dates[1..], listed, k + 1);
      assert lines[1..] == DateLines(dates[1..], listed, k + 1);
    }
  }

  /** Which lines have which name. */
  lemma {:induction false} NamedLines(w: Rules, name: string)
    requires Writable(w)
    ensures Named(Lines(w), name)
         == if name == "rrule" then RuleLines(w)
            else if name == "rdate" then DateLines(w.dates, w.listed, 4)
            else if name == "tzname" then w.names
            else Named(FirstLines(w), name)
  {
    var dates := DateLines(w.dates, w.listed, 4);
    NamedConcat(FirstLines(w), RuleLines(w) + (dates + w.names), name);
    NamedConcat(RuleLines(w), dates + w.names, name);
    NamedConcat(dates, w.names, name);
    AllNamed(RuleLines(w), "rrule", name);
    AllNamed(dates, "rdate", name);
    AllNamed(w.names, "tzname", name);
    if name == "rrule" || name == "rdate" || name == "tzname" {
      NamedFirst(w, name);
    }
  }

  lemma {:induction false} NamedFirst(w: Rules, name: string)
    requires Writable(w)
    ensures Named(FirstLines(w), name)
         == if name == "dtstart" then [FirstLines(w)[0]]
            else if name == "tzoffsetfrom" then [FirstLines(w)[1]]
            else if name == "tzoffsetto" then [FirstLines(w)[2]]
            else []
  {
    var a, b, c := FirstLines(w)[0], FirstLines(w)[1], FirstLines(w)[2];
    assert [a, b, c][1..] == [b, c] && [b, c][1..] == [c] && [c][1..] == [];
    assert Named([c], name) == if name == "tzoffsetto" then [c] else [];
    assert Named([b, c], name) == (if name == "tzoffsetfrom" then [b] else []) + Named([c], name);
  }

  lemma {:induction false} LineRead(ps: seq<Property>, w: Rules, k: nat, name: string, kind: string, text: string)
    requires Named(ps, name) == [Line(w, k, name, kind, Str(text))]
    ensures SingleValue(ps, name, kind) == Some(text)
  {
  }

  lemma {:induction false} StartRead(w: Rules)
    requires Writable(w)
    ensures SingleValue(Lines(w), "dtstart", "date-time") == Some(w.start)
  {
    NamedFirst(w, "dtstart");
    NamedLines(w, "dtstart");
    LineRead(Lines(w), w, 0, "dtstart", "date-time", w.start);
  }

  lemma {:induction false} OffsetsRead(w: Rules)
    requires Writable(w)
    ensures OffsetOf(Lines(w), "tzoffsetfrom") == Some(InSeconds(w.from))
    ensures OffsetOf(Lines(w), "tzoffsetto") == Some(InSeconds(w.to))
  {
    NamedFirst(w, "tzoffsetfrom");
    NamedLines(w, "tzoffsetfrom");
    LineRead(Lines(w), w, 1, "tzoffsetfrom", "utc-offset", OffsetText(w.from));
    OffsetWritten(w.from);
    NamedFirst(w, "tzoffsetto");
    NamedLines(w, "tzoffsetto");
    LineRead(Lines(w), w, 2, "tzoffsetto", "utc-offset", OffsetText(w.to));
    OffsetWritten(w.to);
  }

  lemma {:induction false} LinesPermitted(w: Rules)
    requires Writable(w)
    ensures PermittedNames(Lines(w))
  {
    forall p | p in Lines(w) ensures p.name in PERMITTED_PROPERTIES {
      assert p in FirstLines(w) || p in RuleLines(w) || p in DateLines(w.dates, w.listed, 4) || p in w.names;
    }
  }

  lemma {:induction false} RuleRead(w: Rules)
    requires Writable(w)
    ensures forall p <- RuleLines(w) :: ValidRule(p)
  {
  }

  lemma {:induction false} LinesMean(w: Rules)
    requires Writable(w)
    ensures var o := Component(w.kind, Lines(w), []);
      WellFormedObservance(o) && ObservanceMeaning(o) == Fact(w)
  {
    hide Lines, SingleValue, OffsetOf, InSeconds, PermittedNames, DateLines, Writable, FirstLines;
    StartRead(w);
    OffsetsRead(w);
    LinesPermitted(w);
    NamedLines(w, "rrule");
    RuleRead(w);
    NamedLines(w, "rdate");
    DatesAllWritten(w);
    KindWritten(w);
  }

  lemma {:induction false} DatesAllWritten(w: Rules)
    requires Writable(w)
    ensures forall p <- DateLines(w.dates, w.listed, 4) :: ValidDates(p)
    ensures Dates(DateLines(w.dates, w.listed, 4)) == Concat(w.dates)
  {
    DatesWritten(w.dates, w.listed, 4);
  }

  lemma {:induction false} KindWritten(w: Rules)
    requires Writable(w)
    ensures w.kind == "standard" || w.kind == "daylight"
  {
  }

  lemma {:induction false} ObservanceWritten(o: Component, w: Rules)
    requires IsObservance(o, w)
    ensures WellFormedObservance(o) && ObservanceMeaning(o) == Fact(w)
  {
    LinesMean(w);
    PropertyOrderIrrelevant(Component(w.kind, Lines(w), []), o);
  }

  lemma {:induction false} NamedOnce(rest: seq<Property>, name: string)
    requires DistinctNames(rest)
    ensures |Named(rest, name)| <= 1
  {
    if rest != [] {
      NamedOnce(rest[1..], name);
      if rest[0].name == name && Named(rest[1..], name) != [] {
        assert Named(rest[1..], name)[0] in rest[1..];
      }
    }
  }

  lemma {:induction false} HeaderWritten(tzid: Property, rest: seq<Property>, ps: seq<Property>, id: string)
    requires Header(tzid, rest, ps, id)
    ensures (forall p <- ps :: p.name in PERMITTED_METADATA) && (forall p <- ps :: |Named(ps, p.name)| <= 1)
    ensures SingleValue(ps, "tzid", "text") == Some(id)
  {
    var written := [tzid] + rest;
    assert written[1..] == rest;
    NoneNamed(rest, "tzid");
    SameMembers(ps, written);
    SingleValueReordered(ps, written, "tzid", "text");
    forall p | p in ps ensures p.name in PERMITTED_METADATA {
      assert p in written;
    }
    forall p | p in ps ensures |Named(ps, p.name)| <= 1 {
      NamedContents(ps, written, p.name);
      OnlyOne(Named(ps, p.name), Named(written, p.name));
      NamedOnce(rest, p.name);
    }
  }

  lemma {:induction false} NoneNamed(ps: seq<Property>, name: string)
    requires forall p <- ps :: p.name != name
    ensures Named(ps, name) == []
  {
    if ps != [] {
      NoneNamed(ps[1..], name);
    }
  }

  lemma {:induction false} AllWritten(os: seq<Component>, ws: seq<Rules>)
    requires |os| == |ws| && forall i :: 0 <= i < |ws| ==> IsObservance(os[i], ws[i])
    ensures AllWellFormed(os) && ObservanceMeanings(os) == Facts(ws)
  {
    forall i | 0 <= i < |ws| ensures WellFormedObservance(os[i]) && ObservanceMeaning(os[i]) == Fact(ws[i]) {
      ObservanceWritten(os[i], ws[i]);
    }
  }

  lemma {:induction false} ZoneWritten(c: Component, id: string, ws: seq<Rules>)
    requires IsZone(c, id, ws)
    ensures WellFormedZone(c, id) && ObservanceMeanings(c.components) == Facts(ws)
  {
    hide Fact, IsObservance, Header;
    var tzid, rest :| Header(tzid, rest, c.properties, id);
    HeaderWritten(tzid, rest, c.properties, id);
    AllWritten(c.components, ws);
  }

  /** Two written zones match exactly when they say the same of the same number of observances. */
  lemma {:induction false} WrittenZonesMatch(a: Component, v: seq<Rules>, b: Component, w: seq<Rules>, id: string,
                                             orders: Orders)
    requires Total(orders) && Proper(a) && Proper(b) && IsZone(a, id, v) && IsZone(b, id, w)
    ensures MatchesBundledDefinition(a, Some(b), id, orders) <==> multiset(Facts(v)) == multiset(Facts(w))
  {
    ZoneWritten(a, id, v);
    ZoneWritten(b, id, w);
    MatchMeansSameZone(a, b, id, orders);
  }

  // ---------- Every well-formed zone can be written ----------

  lemma {:induction false} OffsetFound(text: string) returns (o: Offset)
    requires ParseOffsetSeconds(text).Some?
    ensures InRange(o) && OffsetText(o) == text
  {
    var negative, h, m, s, colon1, colon2 := OffsetOnlySpellings(text);
    o := Offset(negative, h, m, s, colon1, colon2);
  }

  /** The one property behind a single value. */
  lemma {:induction false} SingleFound(ps: seq<Property>, name: string, kind: string)
    requires SingleValue(ps, name, kind).Some?
    ensures var p := Named(ps, name);
      |p| == 1 && p[0] == Property(name, Nothing(p[0].parameters.Arr?), kind, [Str(SingleValue(ps, name, kind).value)])
  {
    var p := Named(ps, name)[0];
    assert p in Named(ps, name);
    assert p.values == [p.values[0]];
  }

  lemma {:induction false} TextsFound(vs: seq<Json>)
    requires forall v <- vs :: v.Str?
    ensures TextsToJson(Strings(vs)) == vs && |Strings(vs)| == |vs|
  {
    if vs != [] {
      assert vs[0] in vs && vs[0] == Str(vs[0].s);
      TextsFound(vs[1..]);
      assert Strings(vs)[1..] == Strings(vs[1..]);
      assert vs == [vs[0]] + vs[1..];
    }
  }

  function Packed(ps: seq<Property>): (r: seq<seq<string>>)
    requires forall p <- ps :: ValidDates(p)
    ensures |r| == |ps|
  {
    if ps == [] then [] else
      assert ValidDates(ps[0]);
      [Strings(ps[0].values)] + Packed(ps[1..])
  }

  lemma {:induction false} PackedFilled(ps: seq<Property>)
    requires forall p <- ps :: ValidDates(p)
    ensures forall texts <- Packed(ps) :: texts != []
  {
    if ps != [] {
      assert ValidDates(ps[0]);
      TextsFound(ps[0].values);
      PackedFilled(ps[1..]);
    }
  }

  lemma {:induction false} LineOfDates(p: Property)
    requires ValidDates(p) && p.name == "rdate"
    ensures p == Property("rdate", Nothing(p.parameters.Arr?), "date-time", TextsToJson(Strings(p.values)))
  {
    TextsFound(p.values);
  }

  /** The choice of how to say nothing is the one these lines make, from `k` on. */
  predicate AsListed(ps: seq<Property>, listed: nat -> bool, k: nat) {
    forall i :: 0 <= i < |ps| ==> listed(k + i) == ps[i].parameters.Arr?
  }

  lemma {:induction false} ListedRest(ps: seq<Property>, listed: nat -> bool, k: nat)
    requires ps != [] && AsListed(ps, listed, k)
    ensures listed(k) == ps[0].parameters.Arr? && AsListed(ps[1..], listed, k + 1)
  {
    assert listed(k + 0) == ps[0].parameters.Arr?;
    forall i | 0 <= i < |ps[1..]| ensures listed(k + 1 + i) == ps[1..][i].parameters.Arr? {
      assert listed(k + (i + 1)) == ps[i + 1].parameters.Arr?;
    }
  }

  lemma {:induction false} PackedStep(ps: seq<Property>, listed: nat -> bool, k: nat)
    requires ps != [] && forall p <- ps :: ValidDates(p)
    ensures ValidDates(ps[0]) && forall p <- ps[1..] :: ValidDates(p)
    ensures DateLines(Packed(ps), listed, k)
         == [Property("rdate", Nothing(listed(k)), "date-time", TextsToJson(Strings(ps[0].values)))]
            + DateLines(Packed(ps[1..]), listed, k + 1)
  {
    assert ps[0] in ps;
    assert Packed(ps)[1..] == Packed(ps[1..]);
  }

  lemma {:induction false} DatesFound(ps: seq<Property>, listed: nat -> bool, k: nat)
    requires (forall p <- ps :: ValidDates(p)) && (forall p <- ps :: p.name == "rdate")
    requires AsListed(ps, listed, k)
    ensures DateLines(Packed(ps), listed, k) == ps
  {
    if ps == [] {
      assert DateLines(Packed(ps), listed, k) == [];
    } else {
      PackedStep(ps, listed, k);
      hide *;
      assert ps[0] in ps;
      LineOfDates(ps[0]);
      ListedRest(ps, listed, k);
      DatesFound(ps[1..], listed, k + 1);
    }
  }

  /** The lines of an observance, grouped by name. */
  function Grouped(ps: seq<Property>): seq<Property> {
    (Named(ps, "dtstart") + Named(ps, "tzoffsetfrom") + Named(ps, "tzoffsetto"))
    + (Named(ps, "rrule") + (Named(ps, "rdate") + Named(ps, "tzname")))
  }

  lemma {:induction false} SixCounts(a: seq<Property>, b: seq<Property>, c: seq<Property>, d: seq<Property>,
                                     e: seq<Property>, f: seq<Property>, p: Property)
    ensures multiset((a + b + c) + (d + (e + f)))[p]
         == multiset(a)[p] + multiset(b)[p] + multiset(c)[p] + multiset(d)[p] + multiset(e)[p] + multiset(f)[p]
  {
  }

  lemma {:induction false} GroupedCount(ps: seq<Property>, p: Property)
    requires PermittedNames(ps)
    ensures multiset(ps)[p] == multiset(Grouped(ps))[p]
  {
    NamedCount(ps, "dtstart", p);
    NamedCount(ps, "tzoffsetfrom", p);
    NamedCount(ps, "tzoffsetto", p);
    NamedCount(ps, "rrule", p);
    NamedCount(ps, "rdate", p);
    NamedCount(ps, "tzname", p);
    SixCounts(Named(ps, "dtstart"), Named(ps, "tzoffsetfrom"), Named(ps, "tzoffsetto"), Named(ps, "rrule"),
              Named(ps, "rdate"), Named(ps, "tzname"), p);
    if p in multiset(ps) {
      assert p in ps;
    }
  }

  lemma {:induction false} GroupedContents(ps: seq<Property>)
    requires PermittedNames(ps)
    ensures multiset(ps) == multiset(Grouped(ps))
  {
    hide Grouped;
    forall p ensures multiset(ps)[p] == multiset(Grouped(ps))[p] {
      GroupedCount(ps, p);
    }
  }

  predicate FirstListed(ps: seq<Property>) {
    ps != [] && ps[0].parameters.Arr?
  }

  /** How the lines of an observance say that they have no parameters. */
  function ListedIn(ps: seq<Property>): nat -> bool {
    var dates := Named(ps, "rdate");
    (k: nat) =>
      if k == 0 then FirstListed(Named(ps, "dtstart"))
      else if k == 1 then FirstListed(Named(ps, "tzoffsetfrom"))
      else if k == 2 then FirstListed(Named(ps, "tzoffsetto"))
      else if k == 3 then FirstListed(Named(ps, "rrule"))
      else 4 <= k < 4 + |dates| && dates[k - 4].parameters.Arr?
  }

  lemma {:induction false} LineFound(ps: seq<Property>, w: Rules, k: nat, name: string, kind: string, text: string)
    requires SingleValue(ps, name, kind) == Some(text) && w.listed(k) == FirstListed(Named(ps, name))
    ensures Named(ps, name) == [Line(w, k, name, kind, Str(text))]
  {
    SingleFound(ps, name, kind);
  }

  lemma {:induction false} FirstFound(ps: seq<Property>, w: Rules)
    requires Writable(w) && w.listed == ListedIn(ps)
    requires SingleValue(ps, "dtstart", "date-time") == Some(w.start)
    requires SingleValue(ps, "tzoffsetfrom", "utc-offset") == Some(OffsetText(w.from))
    requires SingleValue(ps, "tzoffsetto", "utc-offset") == Some(OffsetText(w.to))
    ensures FirstLines(w) == Named(ps, "dtstart") + Named(ps, "tzoffsetfrom") + Named(ps, "tzoffsetto")
  {
    hide SingleValue, Line;
    LineFound(ps, w, 0, "dtstart", "date-time", w.start);
    LineFound(ps, w, 1, "tzoffsetfrom", "utc-offset", OffsetText(w.from));
    LineFound(ps, w, 2, "tzoffsetto", "utc-offset", OffsetText(w.to));
  }

  function FirstValue(ps: seq<Property>): Option<Json> {
    if ps == [] || ps[0].values == [] then None else Some(ps[0].values[0])
  }

  lemma {:induction false} RuleLine(p: Property)
    requires ValidRule(p) && p.name == "rrule"
    ensures p == Property("rrule", Nothing(p.parameters.Arr?), "recur", [p.values[0]])
  {
    assert p.values == [p.values[0]];
  }

  lemma {:induction false} RuleFound(ps: seq<Property>, w: Rules)
    requires |Named(ps, "rrule")| <= 1 && (forall p <- Named(ps, "rrule") :: ValidRule(p)) && w.listed == ListedIn(ps)
    requires w.rule == FirstValue(Named(ps, "rrule"))
    ensures RuleLines(w) == Named(ps, "rrule")
  {
    var rules := Named(ps, "rrule");
    if rules != [] {
      assert rules[0] in rules && ValidRule(rules[0]);
      assert ListedIn(ps)(3) == FirstListed(rules);
      RuleLine(rules[0]);
      assert rules == [rules[0]];
    }
  }

  lemma {:induction false} RuleKind(ps: seq<Property>)
    requires |Named(ps, "rrule")| <= 1 && forall p <- Named(ps, "rrule") :: ValidRule(p)
    ensures var rule := FirstValue(Named(ps, "rrule")); rule.Some? ==> rule.value.Obj? || rule.value.Arr?
  {
    if Named(ps, "rrule") != [] {
      assert Named(ps, "rrule")[0] in Named(ps, "rrule");
    }
  }

  lemma {:induction false} RulesFound(o: Component) returns (w: Rules)
    requires WellFormedObservance(o)
    ensures Writable(w) && w.kind == o.name && Lines(w) == Grouped(o.properties)
  {
    var ps := o.properties;
    var from := OffsetFound(SingleValue(ps, "tzoffsetfrom", "utc-offset").value);
    var to := OffsetFound(SingleValue(ps, "tzoffsetto", "utc-offset").value);
    RuleKind(ps);
    PackedFilled(Named(ps, "rdate"));
    w := Rules(o.name, SingleValue(ps, "dtstart", "date-time").value, from, to, FirstValue(Named(ps, "rrule")),
               Packed(Named(ps, "rdate")), Named(ps, "tzname"), ListedIn(ps));
    FoundLines(ps, w);
  }

  lemma {:induction false} AllDatesFound(ps: seq<Property>, w: Rules)
    requires forall p <- Named(ps, "rdate") :: ValidDates(p)
    requires w.listed == ListedIn(ps) && w.dates == Packed(Named(ps, "rdate"))
    ensures DateLines(w.dates, w.listed, 4) == Named(ps, "rdate")
  {
    DatesFound(Named(ps, "rdate"), w.listed, 4);
  }

  lemma {:induction false} FoundLines(ps: seq<Property>, w: Rules)
    requires Writable(w) && w.listed == ListedIn(ps) && w.names == Named(ps, "tzname")
    requires |Named(ps, "rrule")| <= 1 && (forall p <- Named(ps, "rrule") :: ValidRule(p))
    requires forall p <- Named(ps, "rdate") :: ValidDates(p)
    requires SingleValue(ps, "dtstart", "date-time") == Some(w.start)
    requires SingleValue(ps, "tzoffsetfrom", "utc-offset") == Some(OffsetText(w.from))
    requires SingleValue(ps, "tzoffsetto", "utc-offset") == Some(OffsetText(w.to))
    requires w.rule == FirstValue(Named(ps, "rrule"))
    requires w.dates == Packed(Named(ps, "rdate"))
    ensures Lines(w) == Grouped(ps)
  {
    hide Named, ValidRule, ValidDates, ListedIn, FirstLines, RuleLines, DateLines, FirstValue, Writable, SingleValue;
    FirstFound(ps, w);
    RuleFound(ps, w);
    AllDatesFound(ps, w);
  }

  lemma {:induction false} ObservanceFound(o: Component) returns (w: Rules)
    requires WellFormedObservance(o)
    ensures IsObservance(o, w)
  {
    w := RulesFound(o);
    GroupedContents(o.properties);
  }

  lemma {:induction false} AllFound(os: seq<Component>) returns (ws: seq<Rules>)
    requires AllWellFormed(os)
    ensures |ws| == |os| && forall i :: 0 <= i < |ws| ==> IsObservance(os[i], ws[i])
  {
    if os == [] {
      ws := [];
    } else {
      hide IsObservance, WellFormedObservance;
      assert os[0] in os;
      var w := ObservanceFound(os[0]);
      var rest := AllFound(os[1..]);
      ws := [w] + rest;
    }
  }

  lemma {:induction false} HeaderContents(ps: seq<Property>)
    requires forall p <- ps :: p.name in PERMITTED_METADATA
    ensures multiset(ps)
         == multiset(Named(ps, "tzid") + (Named(ps, "x-lic-location") + Named(ps, "x-proleptic-tzname")))
  {
    var grouped := Named(ps, "tzid") + (Named(ps, "x-lic-location") + Named(ps, "x-proleptic-tzname"));
    forall p ensures multiset(ps)[p] == multiset(grouped)[p] {
      NamedCount(ps, "tzid", p);
      NamedCount(ps, "x-lic-location", p);
      NamedCount(ps, "x-proleptic-tzname", p);
      if p in multiset(ps) {
        assert p in ps;
      }
    }
  }

  lemma {:induction false} HeaderFound(ps: seq<Property>, id: string) returns (tzid: Property, rest: seq<Property>)
    requires (forall p <- ps :: p.name in PERMITTED_METADATA) && (forall p <- ps :: |Named(ps, p.name)| <= 1)
    requires SingleValue(ps, "tzid", "text") == Some(id)
    ensures Header(tzid, rest, ps, id)
  {
    SingleFound(ps, "tzid", "text");
    tzid := Named(ps, "tzid")[0];
    var a, b := Named(ps, "x-lic-location"), Named(ps, "x-proleptic-tzname");
    rest := a + b;
    HeaderContents(ps);
    assert Named(ps, "tzid") == [tzid];
    OneEach(ps, "x-lic-location");
    OneEach(ps, "x-proleptic-tzname");
    TwoNames(a, b);
  }

  lemma {:induction false} TwoNames(a: seq<Property>, b: seq<Property>)
    requires |a| <= 1 && |b| <= 1
    requires (forall p <- a :: p.name == "x-lic-location") && (forall p <- b :: p.name == "x-proleptic-tzname")
    ensures DistinctNames(a + b)
    ensures forall p <- a + b :: p.name == "x-lic-location" || p.name == "x-proleptic-tzname"
  {
    assert |a| == 1 ==> a[0] in a;
    assert |b| == 1 ==> b[0] in b;
  }

  lemma {:induction false} OneEach(ps: seq<Property>, name: string)
    requires forall p <- ps :: |Named(ps, p.name)| <= 1
    ensures |Named(ps, name)| <= 1
  {
    if Named(ps, name) != [] {
      assert Named(ps, name)[0] in Named(ps, name);
    }
  }

  lemma {:induction false} ZoneFound(c: Component, id: string) returns (ws: seq<Rules>)
    requires WellFormedZone(c, id)
    ensures IsZone(c, id, ws)
  {
    ws := AllFound(c.components);
    var tzid, rest := HeaderFound(c.properties, id);
  }

  /** An embedded definition is accepted exactly when both it and the bundled one are written for
      the identifier, and say the same of the same number of observances. */
  lemma {:induction false} MatchMeansSameWriting(embedded: Component, bundled: Component, id: string, orders: Orders)
    requires Total(orders) && Proper(embedded) && Proper(bundled)
    ensures MatchesBundledDefinition(embedded, Some(bundled), id, orders)
      <==> exists v, w :: IsZone(embedded, id, v) && IsZone(bundled, id, w) && multiset(Facts(v)) == multiset(Facts(w))
  {
    if MatchesBundledDefinition(embedded, Some(bundled), id, orders) {
      var v := ZoneFound(embedded, id);
      var w := ZoneFound(bundled, id);
      WrittenZonesMatch(embedded, v, bundled, w, id, orders);
    }
    if v, w :| IsZone(embedded, id, v) && IsZone(bundled, id, w) && multiset(Facts(v)) == multiset(Facts(w)) {
      WrittenZonesMatch(embedded, v, bundled, w, id, orders);
    }
  }
}
