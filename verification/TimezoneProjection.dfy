/** Decides whether an embedded VTIMEZONE means the same as the bundled rules for its
    identifier (section 3.6.5 of RFC 5545), by comparing canonical texts. */
module TimezoneProjection {
  import opened Common
  import opened StableJson

  datatype Property = Property(name: string, parameters: Json, kind: string, values: seq<Json>)

  datatype Component = Component(name: string, properties: seq<Property>, components: seq<Component>)

  /** The two orders in play: on object keys (`localeCompare`) and on texts (`<`). */
  datatype Orders = Orders(keys: (string, string) -> bool, texts: (string, string) -> bool)

  ghost predicate Total(o: Orders) {
    TotalOrder(o.keys) && TotalOrder(o.texts)
  }

  /** Every value held is a finite JavaScript value. */
  ghost predicate ProperProperties(ps: seq<Property>) {
    forall p <- ps, v <- p.values :: WellFormed(v)
  }

  ghost predicate Proper(c: Component) {
    forall o <- c.components :: ProperProperties(o.properties)
  }

  // ---------- Reading single properties ----------

  function Named(ps: seq<Property>, name: string): (r: seq<Property>)
    ensures forall p <- r :: p in ps && p.name == name
    ensures forall p <- ps :: p.name == name ==> p in r
  {
    if ps == [] then []
    else if ps[0].name == name then [ps[0]] + Named(ps[1..], name)
    else Named(ps[1..], name)
  }

  predicate HasNoParameters(parameters: Json) {
    (parameters.Obj? && parameters.entries == []) || parameters == Arr([])
  }

  function SingleValue(ps: seq<Property>, name: string, kind: string): Option<string> {
    var matches := Named(ps, name);
    if |matches| != 1 then None
    else if !HasNoParameters(matches[0].parameters) || matches[0].kind != kind then None
    else if |matches[0].values| != 1 || !matches[0].values[0].Str? then None
    else Some(matches[0].values[0].s)
  }

  function TwoDigits(s: string): (r: Option<int>)
    ensures r.Some? ==> |s| >= 2 && 0 <= r.value < 100
  {
    if |s| < 2 || !IsDigit(s[0]) || !IsDigit(s[1]) then None
    else Some((s[0] as int - '0' as int) * 10 + (s[1] as int - '0' as int))
  }

  function SkipColon(s: string): string {
    if s != "" && s[0] == ':' then s[1..] else s
  }

  function SecondsPart(rest: string): (r: Option<int>)
    ensures r.Some? ==> 0 <= r.value < 100
  {
    if rest == "" then Some(0)
    else if |SkipColon(rest)| != 2 then None
    else TwoDigits(SkipColon(rest))
  }

  /** Hours, minutes and optional seconds, each colon optional. */
  function Clock(text: string): (r: Option<(int, int, int)>)
    ensures r.Some? ==> 0 <= r.value.0 < 100 && 0 <= r.value.1 < 100 && 0 <= r.value.2 < 100
  {
    match TwoDigits(text)
    case None => None
    case Some(hours) =>
      var afterHours := SkipColon(text[2..]);
      match TwoDigits(afterHours)
      case None => None
      case Some(minutes) =>
        match SecondsPart(afterHours[2..])
        case None => None
        case Some(seconds) => Some((hours, minutes, seconds))
  }

  /** A UTC offset in seconds: a sign and a clock time below 24 hours. */
  function ParseOffsetSeconds(value: string): (r: Option<int>)
    ensures r.Some? ==> -86399 <= r.value <= 86399
  {
    if value == "" || (value[0] != '+' && value[0] != '-') then None
    else
      match Clock(value[1..])
      case None => None
      case Some((hours, minutes, seconds)) =>
        if hours > 23 || minutes > 59 || seconds > 59 then None
        else
          var magnitude := hours * 3600 + minutes * 60 + seconds;
          Some(if value[0] == '-' then -magnitude else magnitude)
  }

  function TwoDigitText(n: int): string
    requires 0 <= n < 100
  {
    [Digit(n / 10), Digit(n % 10)]
  }

  /** Every spelling of a clock time: with or without colons, with or without seconds. */
  function ClockText(h: int, m: int, s: Option<int>, colon1: bool, colon2: bool): string
    requires 0 <= h < 100 && 0 <= m < 100 && (s.Some? ==> 0 <= s.value < 100)
  {
    TwoDigitText(h) + ((if colon1 then ":" else "") + (TwoDigitText(m) + SecondsText(s, colon2)))
  }

  function SecondsText(s: Option<int>, colon: bool): string
    requires s.Some? ==> 0 <= s.value < 100
  {
    if s.None? then "" else (if colon then ":" else "") + TwoDigitText(s.value)
  }

  function SecondsOf(s: Option<int>): int {
    if s.Some? then s.value else 0
  }

  lemma {:induction false} TwoDigitsRead(n: int, rest: string)
    requires 0 <= n < 100
    ensures TwoDigits(TwoDigitText(n) + rest) == Some(n) && (TwoDigitText(n) + rest)[2..] == rest
    ensures SkipColon(TwoDigitText(n) + rest) == TwoDigitText(n) + rest
    ensures SkipColon(":" + (TwoDigitText(n) + rest)) == TwoDigitText(n) + rest
  {
    assert (TwoDigitText(n) + rest)[0] == Digit(n / 10) && (TwoDigitText(n) + rest)[1] == Digit(n % 10);
  }

  lemma {:induction false} SecondsRead(s: Option<int>, colon: bool)
    requires s.Some? ==> 0 <= s.value < 100
    ensures SecondsPart(SecondsText(s, colon)) == Some(SecondsOf(s))
  {
    if s.Some? {
      TwoDigitsRead(s.value, "");
      assert TwoDigitText(s.value) + "" == TwoDigitText(s.value);
      assert SecondsText(s, colon) != "";
    }
  }

  lemma {:induction false} ClockRead(h: int, m: int, s: Option<int>, colon1: bool, colon2: bool)
    requires 0 <= h < 100 && 0 <= m < 100 && (s.Some? ==> 0 <= s.value < 100)
    ensures Clock(ClockText(h, m, s, colon1, colon2)) == Some((h, m, SecondsOf(s)))
  {
    var minutes := TwoDigitText(m) + SecondsText(s, colon2);
    var rest := (if colon1 then ":" else "") + minutes;
    TwoDigitsRead(h, rest);
    TwoDigitsRead(m, SecondsText(s, colon2));
    assert SkipColon(rest) == minutes by {
      if !colon1 {
        assert rest == minutes;
      }
    }
    SecondsRead(s, colon2);
  }

  /** Every spelling of an offset reads back as that many seconds, out-of-range fields not at all. */
  lemma {:induction false} OffsetReadsBack(negative: bool, h: int, m: int, s: Option<int>, colon1: bool, colon2: bool)
    requires 0 <= h < 100 && 0 <= m < 100 && (s.Some? ==> 0 <= s.value < 100)
    ensures var magnitude := h * 3600 + m * 60 + SecondsOf(s);
      ParseOffsetSeconds([if negative then '-' else '+'] + ClockText(h, m, s, colon1, colon2))
         == if h <= 23 && m <= 59 && SecondsOf(s) <= 59 then Some(if negative then -magnitude else magnitude) else None
  {
    var value := [if negative then '-' else '+'] + ClockText(h, m, s, colon1, colon2);
    ClockRead(h, m, s, colon1, colon2);
    assert value[1..] == ClockText(h, m, s, colon1, colon2);
  }

  lemma {:induction false} TwoDigitsSpelling(s: string)
    requires TwoDigits(s).Some?
    ensures s == TwoDigitText(TwoDigits(s).value) + s[2..]
  {
    var n := TwoDigits(s).value;
    var tens, ones := s[0] as int - '0' as int, s[1] as int - '0' as int;
    assert 0 <= ones < 10 && n == tens * 10 + ones;
    assert n / 10 == tens && n % 10 == ones;
    assert s == [s[0], s[1]] + s[2..];
  }

  lemma {:induction false} SkipColonSpelling(s: string) returns (colon: bool)
    ensures s == (if colon then ":" else "") + SkipColon(s)
  {
    colon := s != "" && s[0] == ':';
  }

  /** What may follow the minutes: nothing, or seconds with or without a colon. */
  lemma {:induction false} SecondsSpelling(rest: string) returns (s: Option<int>, colon: bool)
    requires rest == "" || (TwoDigits(SkipColon(rest)).Some? && SkipColon(rest)[2..] == "")
    ensures s == if rest == "" then None else TwoDigits(SkipColon(rest))
    ensures s.Some? ==> 0 <= s.value < 100
    ensures rest == SecondsText(s, colon)
  {
    s, colon := None, false;
    if rest != "" {
      s := TwoDigits(SkipColon(rest));
      TwoDigitsSpelling(SkipColon(rest));
      colon := SkipColonSpelling(rest);
    }
  }

  /** With OffsetReadsBack: nothing but the spellings of in-range offsets is accepted. */
  lemma {:induction false} OffsetOnlySpellings(value: string)
    returns (negative: bool, h: int, m: int, s: Option<int>, colon1: bool, colon2: bool)
    requires ParseOffsetSeconds(value).Some?
    ensures 0 <= h <= 23 && 0 <= m <= 59 && 0 <= SecondsOf(s) <= 59
    ensures value == [if negative then '-' else '+'] + ClockText(h, m, s, colon1, colon2)
  {
    negative := value[0] == '-';
    var text := value[1..];
    assert value == [value[0]] + text;
    h := TwoDigits(text).value;
    TwoDigitsSpelling(text);
    colon1 := SkipColonSpelling(text[2..]);
    var afterHours := SkipColon(text[2..]);
    m := TwoDigits(afterHours).value;
    TwoDigitsSpelling(afterHours);
    s, colon2 := SecondsSpelling(afterHours[2..]);
  }

  // ---------- What a VTIMEZONE means ----------

  /** One STANDARD or DAYLIGHT rule, with its offsets in seconds, its recurrence rule up to
      the order of keys, and its extra dates in no particular order. */
  datatype Observance = Observance(
    kind: string, start: string, offsetFrom: int, offsetTo: int, rule: Value, dates: multiset<string>)

  predicate ValidRule(p: Property) {
    HasNoParameters(p.parameters) && p.kind == "recur" && |p.values| == 1 && (p.values[0].Obj? || p.values[0].Arr?)
  }

  predicate ValidDates(p: Property) {
    HasNoParameters(p.parameters) && p.kind == "date-time" && p.values != [] && forall v <- p.values :: v.Str?
  }

  const PERMITTED_PROPERTIES := {"dtstart", "rdate", "rrule", "tzname", "tzoffsetfrom", "tzoffsetto"}

  const PERMITTED_METADATA := {"tzid", "x-lic-location", "x-proleptic-tzname"}

  function OffsetOf(ps: seq<Property>, name: string): Option<int> {
    match SingleValue(ps, name, "utc-offset")
    case None => None
    case Some(text) => ParseOffsetSeconds(text)
  }

  predicate PermittedNames(ps: seq<Property>) {
    forall p <- ps :: p.name in PERMITTED_PROPERTIES
  }

  predicate WellFormedRules(ps: seq<Property>) {
    && PermittedNames(ps)
    && SingleValue(ps, "dtstart", "date-time").Some?
    && OffsetOf(ps, "tzoffsetfrom").Some?
    && OffsetOf(ps, "tzoffsetto").Some?
    && |Named(ps, "rrule")| <= 1
    && (forall p <- Named(ps, "rrule") :: ValidRule(p))
    && (forall p <- Named(ps, "rdate") :: ValidDates(p))
  }

  predicate WellFormedObservance(o: Component) {
    (o.name == "standard" || o.name == "daylight") && o.components == [] && WellFormedRules(o.properties)
  }

  predicate AllWellFormed(os: seq<Component>) {
    forall o <- os :: WellFormedObservance(o)
  }

  predicate WellFormedZone(c: Component, id: string) {
    && c.name == "vtimezone" && c.components != []
    && (forall p <- c.properties :: p.name in PERMITTED_METADATA)
    && (forall p <- c.properties :: |Named(c.properties, p.name)| <= 1)
    && SingleValue(c.properties, "tzid", "text") == Some(id)
    && AllWellFormed(c.components)
  }

  function Strings(vs: seq<Json>): seq<string>
    requires forall v <- vs :: v.Str?
  {
    if vs == [] then [] else [vs[0].s] + Strings(vs[1..])
  }

  function Dates(ps: seq<Property>): seq<string>
    requires forall p <- ps :: ValidDates(p)
  {
    if ps == [] then []
    else
      assert ValidDates(ps[0]);
      Strings(ps[0].values) + Dates(ps[1..])
  }

  function RuleOf(ps: seq<Property>): Json
    requires WellFormedRules(ps)
  {
    var rules := Named(ps, "rrule");
    if rules == [] then Undefined else rules[0].values[0]
  }

  function ObservanceMeaning(o: Component): Observance
    requires WellFormedObservance(o)
  {
    var ps := o.properties;
    Observance(
      o.name,
      SingleValue(ps, "dtstart", "date-time").value,
      OffsetOf(ps, "tzoffsetfrom").value,
      OffsetOf(ps, "tzoffsetto").value,
      Meaning(RuleOf(ps)),
      multiset(Dates(Named(ps, "rdate"))))
  }

  function ObservanceMeanings(os: seq<Component>): (r: seq<Observance>)
    requires AllWellFormed(os)
    ensures |r| == |os| && forall i :: 0 <= i < |os| ==> r[i] == ObservanceMeaning(os[i])
  {
    if os == [] then [] else [ObservanceMeaning(os[0])] + ObservanceMeanings(os[1..])
  }

  /** The reference: both are well formed for this identifier and hold the same observances. */
  ghost predicate SameZone(a: Component, b: Component, id: string) {
    && WellFormedZone(a, id) && WellFormedZone(b, id)
    && multiset(ObservanceMeanings(a.components)) == multiset(ObservanceMeanings(b.components))
  }

  // ---------- The canonical form ----------

  function TextsToJson(ss: seq<string>): (r: seq<Json>)
    ensures |r| == |ss| && forall i :: 0 <= i < |ss| ==> r[i] == Str(ss[i])
  {
    if ss == [] then [] else [Str(ss[0])] + TextsToJson(ss[1..])
  }

  function Shape(kind: string, start: string, offsetFrom: int, offsetTo: int, rule: Json, dates: seq<string>): Json {
    Arr([Str(kind), Str(start), Num(Decimal(offsetFrom)), Num(Decimal(offsetTo)), rule, Arr(TextsToJson(dates))])
  }

  function RulesForm(kind: string, ps: seq<Property>, orders: Orders): Json
    requires WellFormedRules(ps)
  {
    Shape(
      kind,
      SingleValue(ps, "dtstart", "date-time").value,
      OffsetOf(ps, "tzoffsetfrom").value,
      OffsetOf(ps, "tzoffsetto").value,
      RuleOf(ps),
      Sort(Dates(Named(ps, "rdate")), orders.texts))
  }

  function ObservanceForm(o: Component, orders: Orders): Json
    requires WellFormedObservance(o)
  {
    RulesForm(o.name, o.properties, orders)
  }

  function ObservanceForms(os: seq<Component>, orders: Orders): (r: seq<Json>)
    requires AllWellFormed(os)
    ensures |r| == |os| && forall i :: 0 <= i < |os| ==> r[i] == ObservanceForm(os[i], orders)
  {
    if os == [] then [] else [ObservanceForm(os[0], orders)] + ObservanceForms(os[1..], orders)
  }

  function ByText(orders: Orders): (Json, Json) -> bool {
    (x: Json, y: Json) => orders.texts(StableJson.StableJson(x, orders.keys), StableJson.StableJson(y, orders.keys))
  }

  function Normalized(c: Component, id: string, orders: Orders): Option<Json> {
    if WellFormedZone(c, id)
    then Some(Arr([Str(id), Arr(Sort(ObservanceForms(c.components, orders), ByText(orders)))]))
    else None
  }

  predicate MatchesBundledDefinition(embedded: Component, bundled: Option<Component>, id: string, orders: Orders) {
    && bundled.Some?
    && Normalized(embedded, id, orders).Some? && Normalized(bundled.value, id, orders).Some?
    && StableJson.StableJson(Normalized(embedded, id, orders).value, orders.keys)
       == StableJson.StableJson(Normalized(bundled.value, id, orders).value, orders.keys)
  }

  // ---------- The canonical form decides the meaning ----------

  lemma {:induction false} InsertByText(x: Json, s: seq<Json>, orders: Orders)
    ensures Texts(Insert(x, s, ByText(orders)), orders.keys)
         == Insert(StableJson.StableJson(x, orders.keys), Texts(s, orders.keys), orders.texts)
  {
    if s != [] {
      assert Texts(s, orders.keys)[1..] == Texts(s[1..], orders.keys);
      InsertByText(x, s[1..], orders);
      assert Texts([x] + s, orders.keys) == [StableJson.StableJson(x, orders.keys)] + Texts(s, orders.keys);
    }
  }

  lemma {:induction false} SortByText(s: seq<Json>, orders: Orders)
    ensures Texts(Sort(s, ByText(orders)), orders.keys) == Sort(Texts(s, orders.keys), orders.texts)
  {
    if s != [] {
      SortByText(s[1..], orders);
      InsertByText(s[0], Sort(s[1..], ByText(orders)), orders);
    }
  }

  lemma {:induction false} SameTextsSameMeanings(a: seq<Json>, b: seq<Json>, keys: (string, string) -> bool)
    requires TotalOrder(keys)
    requires forall j <- a + b :: WellFormed(j)
    ensures Texts(a, keys) == Texts(b, keys) <==> Meanings(a) == Meanings(b)
  {
    forall i | 0 <= i < |a| && i < |b|
      ensures Texts(a, keys)[i] == Texts(b, keys)[i] <==> Meanings(a)[i] == Meanings(b)[i]
    {
      assert a[i] in a + b && b[i] in a + b;
      StableJsonIsFaithful(a[i], b[i], keys);
    }
  }

  lemma {:induction false} StringsWellFormed(ss: seq<string>)
    ensures WellFormed(Arr(TextsToJson(ss)))
  {
  }

  lemma {:induction false} SixWellFormed(a: Json, b: Json, c: Json, d: Json, e: Json, f: Json)
    requires WellFormed(a) && WellFormed(b) && WellFormed(c) && WellFormed(d) && WellFormed(e) && WellFormed(f)
    ensures WellFormed(Arr([a, b, c, d, e, f]))
  {
  }

  lemma {:induction false} SixEqual<T(!new)>(x: seq<T>, y: seq<T>)
    requires |x| == |y| == 6
    ensures x == y <==> x[0] == y[0] && x[1] == y[1] && x[2] == y[2] && x[3] == y[3] && x[4] == y[4] && x[5] == y[5]
  {
  }

  lemma {:induction false} MeaningsOfSix(a: Json, b: Json, c: Json, d: Json, e: Json, f: Json)
    ensures Meanings([a, b, c, d, e, f])
         == [Meaning(a), Meaning(b), Meaning(c), Meaning(d), Meaning(e), Meaning(f)]
  {
    hide Meaning, Meanings;
    SixEqual(Meanings([a, b, c, d, e, f]),
             [Meaning(a), Meaning(b), Meaning(c), Meaning(d), Meaning(e), Meaning(f)]);
  }

  lemma {:induction false} RuleWellFormed(ps: seq<Property>)
    requires WellFormedRules(ps) && ProperProperties(ps)
    ensures WellFormed(RuleOf(ps))
  {
    var rules := Named(ps, "rrule");
    if rules != [] {
      assert rules[0] in ps && rules[0].values[0] in rules[0].values;
    }
  }

  lemma {:induction false} FormWellFormed(o: Component, orders: Orders)
    requires WellFormedObservance(o) && ProperProperties(o.properties)
    ensures WellFormed(ObservanceForm(o, orders))
  {
    var f := ObservanceForm(o, orders).items;
    RuleWellFormed(o.properties);
    DecimalIsNumber(OffsetOf(o.properties, "tzoffsetfrom").value);
    DecimalIsNumber(OffsetOf(o.properties, "tzoffsetto").value);
    StringsWellFormed(Sort(Dates(Named(o.properties, "rdate")), orders.texts));
    SixWellFormed(f[0], f[1], f[2], f[3], f[4], f[5]);
  }

  lemma {:induction false} DecimalIsNumber(n: int)
    ensures NumberText(Decimal(n))
  {
  }

  lemma {:induction false} MeaningOfStrings(a: seq<string>, b: seq<string>)
    ensures Meanings(TextsToJson(a)) == Meanings(TextsToJson(b)) <==> a == b
  {
    if Meanings(TextsToJson(a)) == Meanings(TextsToJson(b)) {
      assert |a| == |Meanings(TextsToJson(a))| == |Meanings(TextsToJson(b))| == |b|;
      forall i | 0 <= i < |a| ensures a[i] == b[i] {
        assert Meanings(TextsToJson(a))[i] == VStr(a[i]);
        assert Meanings(TextsToJson(b))[i] == VStr(b[i]);
      }
    }
  }

  /** Two observance forms are written alike exactly when the observances mean the same. */
  lemma {:induction false} FormDecidesMeaning(o: Component, q: Component, orders: Orders)
    requires Total(orders)
    requires WellFormedObservance(o) && ProperProperties(o.properties)
    requires WellFormedObservance(q) && ProperProperties(q.properties)
    ensures StableJson.StableJson(ObservanceForm(o, orders), orders.keys)
         == StableJson.StableJson(ObservanceForm(q, orders), orders.keys)
        <==> ObservanceMeaning(o) == ObservanceMeaning(q)
  {
    FormWellFormed(o, orders);
    FormWellFormed(q, orders);
    StableJsonIsFaithful(ObservanceForm(o, orders), ObservanceForm(q, orders), orders.keys);
    FormMeaning(o, q, orders);
  }

  function ShapeValues(k: string, s: string, f: int, t: int, rule: Value, d: seq<string>): seq<Value> {
    [VStr(k), VStr(s), VNum(Decimal(f)), VNum(Decimal(t)), rule, VArr(Meanings(TextsToJson(d)))]
  }

  lemma {:induction false} ShapeMeans(k: string, s: string, f: int, t: int, r: Json, d: seq<string>)
    ensures Meaning(Shape(k, s, f, t, r, d)) == VArr(ShapeValues(k, s, f, t, Meaning(r), d))
  {
    hide Meanings;
    MeaningsOfSix(Str(k), Str(s), Num(Decimal(f)), Num(Decimal(t)), r, Arr(TextsToJson(d)));
  }

  lemma {:induction false} ShapeMeaning(k: string, s: string, f: int, t: int, r: Json, d: seq<string>,
                     k': string, s': string, f': int, t': int, r': Json, d': seq<string>)
    ensures Meaning(Shape(k, s, f, t, r, d)) == Meaning(Shape(k', s', f', t', r', d'))
        <==> k == k' && s == s' && f == f' && t == t' && Meaning(r) == Meaning(r') && d == d'
  {
    hide Meaning, Meanings, Shape;
    DecimalInjective(f, f');
    DecimalInjective(t, t');
    MeaningOfStrings(d, d');
    ShapeMeans(k, s, f, t, r, d);
    ShapeMeans(k', s', f', t', r', d');
    SixEqual(ShapeValues(k, s, f, t, Meaning(r), d), ShapeValues(k', s', f', t', Meaning(r'), d'));
  }

  lemma {:induction false} FormMeaning(o: Component, q: Component, orders: Orders)
    requires TotalOrder(orders.texts) && WellFormedObservance(o) && WellFormedObservance(q)
    ensures Meaning(ObservanceForm(o, orders)) == Meaning(ObservanceForm(q, orders))
        <==> ObservanceMeaning(o) == ObservanceMeaning(q)
  {
    var m, n := ObservanceMeaning(o), ObservanceMeaning(q);
    var d, d' := Dates(Named(o.properties, "rdate")), Dates(Named(q.properties, "rdate"));
    SortCanonical(d, d', orders.texts);
    ShapeMeaning(m.kind, m.start, m.offsetFrom, m.offsetTo, RuleOf(o.properties), Sort(d, orders.texts),
                 n.kind, n.start, n.offsetFrom, n.offsetTo, RuleOf(q.properties), Sort(d', orders.texts));
  }

  lemma {:induction false} FormsWellFormed(c: Component, orders: Orders)
    requires Proper(c) && AllWellFormed(c.components)
    ensures forall f <- ObservanceForms(c.components, orders) :: WellFormed(f)
    ensures forall f <- Sort(ObservanceForms(c.components, orders), ByText(orders)) :: WellFormed(f)
  {
    var forms := ObservanceForms(c.components, orders);
    forall i | 0 <= i < |forms| ensures WellFormed(forms[i]) {
      assert c.components[i] in c.components;
      FormWellFormed(c.components[i], orders);
    }
    SortContents(forms, ByText(orders));
    forall f | f in Sort(forms, ByText(orders)) ensures WellFormed(f) {
      assert f in multiset(Sort(forms, ByText(orders)));
      assert f in forms;
    }
  }

  lemma {:induction false} ZoneText(id: string, a: seq<Json>, b: seq<Json>, keys: (string, string) -> bool)
    requires TotalOrder(keys)
    requires (forall j <- a :: WellFormed(j)) && (forall j <- b :: WellFormed(j))
    ensures StableJson.StableJson(Arr([Str(id), Arr(a)]), keys) == StableJson.StableJson(Arr([Str(id), Arr(b)]), keys)
        <==> Texts(a, keys) == Texts(b, keys)
  {
    var za, zb := [Str(id), Arr(a)], [Str(id), Arr(b)];
    StableJsonIsFaithful(Arr(za), Arr(zb), keys);
    assert Meanings(za) == [VStr(id), VArr(Meanings(a))] && Meanings(zb) == [VStr(id), VArr(Meanings(b))];
    assert Meanings(za)[1] == VArr(Meanings(a)) && Meanings(zb)[1] == VArr(Meanings(b));
    SameTextsSameMeanings(a, b, keys);
  }

  lemma {:induction false} IndexDecides(a: Component, i: nat, b: Component, j: nat, orders: Orders)
    requires Total(orders) && Proper(a) && Proper(b) && i < |a.components| && j < |b.components|
    requires AllWellFormed(a.components) && AllWellFormed(b.components)
    ensures Texts(ObservanceForms(a.components, orders), orders.keys)[i]
         == Texts(ObservanceForms(b.components, orders), orders.keys)[j]
        <==> ObservanceMeanings(a.components)[i] == ObservanceMeanings(b.components)[j]
  {
    var o, q := a.components[i], b.components[j];
    assert o in a.components && q in b.components;
    FormDecidesMeaning(o, q, orders);
  }

  lemma {:induction false} KernelOfForms(a: Component, b: Component, orders: Orders)
    requires Total(orders) && Proper(a) && Proper(b)
    requires AllWellFormed(a.components) && AllWellFormed(b.components)
    ensures SameKernel(
      Texts(ObservanceForms(a.components, orders), orders.keys),
      Texts(ObservanceForms(b.components, orders), orders.keys),
      ObservanceMeanings(a.components), ObservanceMeanings(b.components))
  {
    forall i, j | 0 <= i < |a.components| && 0 <= j < |b.components|
      ensures Texts(ObservanceForms(a.components, orders), orders.keys)[i]
           == Texts(ObservanceForms(b.components, orders), orders.keys)[j]
          <==> ObservanceMeanings(a.components)[i] == ObservanceMeanings(b.components)[j]
    {
      IndexDecides(a, i, b, j, orders);
    }
  }

  lemma {:induction false} FormsDecideContents(a: Component, b: Component, orders: Orders)
    requires Total(orders) && Proper(a) && Proper(b)
    requires AllWellFormed(a.components) && AllWellFormed(b.components)
    ensures multiset(Texts(ObservanceForms(a.components, orders), orders.keys))
         == multiset(Texts(ObservanceForms(b.components, orders), orders.keys))
        <==> multiset(ObservanceMeanings(a.components)) == multiset(ObservanceMeanings(b.components))
  {
    KernelOfForms(a, b, orders);
    SameKernelSameContents(
      Texts(ObservanceForms(a.components, orders), orders.keys),
      Texts(ObservanceForms(b.components, orders), orders.keys),
      ObservanceMeanings(a.components), ObservanceMeanings(b.components));
  }

  lemma {:induction false} CanonicalTexts(id: string, a: seq<Json>, b: seq<Json>, orders: Orders)
    requires Total(orders)
    requires (forall j <- Sort(a, ByText(orders)) :: WellFormed(j))
      && (forall j <- Sort(b, ByText(orders)) :: WellFormed(j))
    ensures StableJson.StableJson(Arr([Str(id), Arr(Sort(a, ByText(orders)))]), orders.keys)
         == StableJson.StableJson(Arr([Str(id), Arr(Sort(b, ByText(orders)))]), orders.keys)
        <==> multiset(Texts(a, orders.keys)) == multiset(Texts(b, orders.keys))
  {
    ZoneText(id, Sort(a, ByText(orders)), Sort(b, ByText(orders)), orders.keys);
    SortByText(a, orders);
    SortByText(b, orders);
    SortCanonical(Texts(a, orders.keys), Texts(b, orders.keys), orders.texts);
  }

  /** The text that stands for a well-formed zone. */
  function CanonicalText(c: Component, id: string, orders: Orders): string
    requires AllWellFormed(c.components)
  {
    StableJson.StableJson(Arr([Str(id), Arr(Sort(ObservanceForms(c.components, orders), ByText(orders)))]), orders.keys)
  }

  lemma {:induction false} TextsDecide(a: Component, b: Component, id: string, orders: Orders)
    requires Total(orders) && Proper(a) && Proper(b) && AllWellFormed(a.components) && AllWellFormed(b.components)
    ensures CanonicalText(a, id, orders) == CanonicalText(b, id, orders)
      <==> (multiset(Texts(ObservanceForms(a.components, orders), orders.keys))
            == multiset(Texts(ObservanceForms(b.components, orders), orders.keys)))
  {
    FormsWellFormed(a, orders);
    FormsWellFormed(b, orders);
    CanonicalTexts(id, ObservanceForms(a.components, orders), ObservanceForms(b.components, orders), orders);
  }

  lemma {:induction false} TextDecidesContents(a: Component, b: Component, id: string, orders: Orders)
    requires Total(orders) && Proper(a) && Proper(b) && AllWellFormed(a.components) && AllWellFormed(b.components)
    ensures CanonicalText(a, id, orders) == CanonicalText(b, id, orders)
      <==> multiset(ObservanceMeanings(a.components)) == multiset(ObservanceMeanings(b.components))
  {
    TextsDecide(a, b, id, orders);
    FormsDecideContents(a, b, orders);
  }

  lemma {:induction false} MatchComparesTexts(embedded: Component, bundled: Component, id: string, orders: Orders)
    requires WellFormedZone(embedded, id) && WellFormedZone(bundled, id)
    ensures MatchesBundledDefinition(embedded, Some(bundled), id, orders)
      <==> CanonicalText(embedded, id, orders) == CanonicalText(bundled, id, orders)
  {
  }

  /** Main result: an embedded definition is accepted exactly when both are well formed for
      the identifier and hold the same observances the same number of times. */
  lemma {:induction false} MatchMeansSameZone(embedded: Component, bundled: Component, id: string, orders: Orders)
    requires Total(orders) && Proper(embedded) && Proper(bundled)
    ensures MatchesBundledDefinition(embedded, Some(bundled), id, orders) <==> SameZone(embedded, bundled, id)
  {
    if WellFormedZone(embedded, id) && WellFormedZone(bundled, id) {
      MatchComparesTexts(embedded, bundled, id, orders);
      TextDecidesContents(embedded, bundled, id, orders);
    }
  }

  // ---------- What the meaning does not depend on ----------

  lemma {:induction false} NamedContents(a: seq<Property>, b: seq<Property>, name: string)
    requires multiset(a) == multiset(b)
    ensures multiset(Named(a, name)) == multiset(Named(b, name))
  {
    forall p ensures multiset(Named(a, name))[p] == multiset(Named(b, name))[p] {
      NamedCount(a, name, p);
      NamedCount(b, name, p);
    }
  }

  lemma {:induction false} NamedCount(ps: seq<Property>, name: string, p: Property)
    ensures multiset(Named(ps, name))[p] == if p.name == name then multiset(ps)[p] else 0
  {
    if ps != [] {
      assert ps == [ps[0]] + ps[1..];
      NamedCount(ps[1..], name, p);
    }
  }

  lemma {:induction false} DatesContents(a: seq<Property>, b: seq<Property>)
    requires multiset(a) == multiset(b)
    requires (forall p <- a :: ValidDates(p)) && (forall p <- b :: ValidDates(p))
    ensures multiset(Dates(a)) == multiset(Dates(b))
  {
    if a == [] {
      assert |b| == |multiset(b)| == 0;
    } else {
      assert |b| == |multiset(b)| == |multiset(a)|;
      assert a[0] in multiset(b);
      var j :| 0 <= j < |b| && b[j] == a[0];
      WithoutOne(a, 0);
      WithoutOne(b, j);
      RemoveBoth(multiset(Without(a, 0)), multiset(Without(b, j)), a[0]);
      assert Without(a, 0) == a[1..];
      DatesContents(a[1..], Without(b, j));
      DatesWithout(b, j);
    }
  }

  lemma {:induction false} DatesWithout(ps: seq<Property>, j: nat)
    requires j < |ps| && forall p <- ps :: ValidDates(p)
    ensures forall p <- Without(ps, j) :: ValidDates(p)
    ensures ValidDates(ps[j])
    ensures multiset(Dates(ps)) == multiset(Strings(ps[j].values)) + multiset(Dates(Without(ps, j)))
  {
    assert ps[j] in ps;
    ValidWithout(ps, j);
    if j == 0 {
      assert Without(ps, 0) == ps[1..];
    } else {
      DatesWithout(ps[1..], j - 1);
      var rest := Without(ps, j);
      assert rest[0] == ps[0] && rest[1..] == Without(ps[1..], j - 1);
      DatesFirst(rest);
      DatesFirst(ps);
    }
  }

  lemma {:induction false} DatesFirst(ps: seq<Property>)
    requires ps != [] && forall p <- ps :: ValidDates(p)
    ensures ValidDates(ps[0]) && multiset(Dates(ps)) == multiset(Strings(ps[0].values)) + multiset(Dates(ps[1..]))
  {
    assert ps[0] in ps;
  }

  lemma {:induction false} ValidWithout(ps: seq<Property>, j: nat)
    requires j < |ps| && forall p <- ps :: ValidDates(p)
    ensures forall p <- Without(ps, j) :: ValidDates(p)
  {
    forall p | p in Without(ps, j) ensures ValidDates(p) {
      assert p in ps;
    }
  }

  /** A unique property stays unique under reordering. */
  lemma {:induction false} OnlyOne(a: seq<Property>, b: seq<Property>)
    requires multiset(a) == multiset(b)
    ensures |a| == |b| && (|a| == 1 ==> a == b)
  {
    assert |a| == |multiset(a)| == |multiset(b)| == |b|;
    if |a| == 1 {
      assert a[0] in multiset(b);
    }
  }

  lemma {:induction false} SingleValueReordered(a: seq<Property>, b: seq<Property>, name: string, kind: string)
    requires multiset(a) == multiset(b)
    ensures SingleValue(a, name, kind) == SingleValue(b, name, kind)
  {
    NamedContents(a, b, name);
    OnlyOne(Named(a, name), Named(b, name));
  }

  lemma {:induction false} SameMembers<T>(a: seq<T>, b: seq<T>)
    requires multiset(a) == multiset(b)
    ensures forall x :: x in a <==> x in b
  {
    forall x ensures x in a <==> x in b {
      assert x in a <==> x in multiset(a);
      assert x in b <==> x in multiset(b);
    }
  }

  /** The order of properties inside an observance does not matter. */
  lemma {:induction false} PropertyOrderIrrelevant(a: Component, b: Component)
    requires a.name == b.name && a.components == b.components && multiset(a.properties) == multiset(b.properties)
    requires WellFormedObservance(a)
    ensures WellFormedObservance(b) && ObservanceMeaning(a) == ObservanceMeaning(b)
  {
    var ps, qs := a.properties, b.properties;
    SameMembers(ps, qs);
    SingleValueReordered(ps, qs, "dtstart", "date-time");
    SingleValueReordered(ps, qs, "tzoffsetfrom", "utc-offset");
    SingleValueReordered(ps, qs, "tzoffsetto", "utc-offset");
    NamedContents(ps, qs, "rrule");
    OnlyOne(Named(ps, "rrule"), Named(qs, "rrule"));
    NamedContents(ps, qs, "rdate");
    SameMembers(Named(ps, "rdate"), Named(qs, "rdate"));
    SameMembers(Named(ps, "rrule"), Named(qs, "rrule"));
    DatesContents(Named(ps, "rdate"), Named(qs, "rdate"));
  }

  lemma {:induction false} NamedConcat(a: seq<Property>, b: seq<Property>, name: string)
    ensures Named(a + b, name) == Named(a, name) + Named(b, name)
  {
    if a == [] {
      assert a + b == b;
    } else {
      assert (a + b)[1..] == a[1..] + b;
      NamedConcat(a[1..], b, name);
    }
  }

  lemma {:induction false} StringsConcat(v: seq<Json>, w: seq<Json>)
    requires forall x <- v + w :: x.Str?
    ensures (forall x <- v :: x.Str?) && (forall x <- w :: x.Str?)
    ensures Strings(v + w) == Strings(v) + Strings(w)
  {
    assert (forall x <- v :: x in v + w) && (forall x <- w :: x in v + w);
    if v == [] {
      assert v + w == w;
    } else {
      assert (v + w)[1..] == v[1..] + w;
      StringsConcat(v[1..], w);
    }
  }

  /** Adding a display name changes nothing. */
  lemma {:induction false} NameIrrelevant(o: Component, tzname: Property)
    requires WellFormedObservance(o) && tzname.name == "tzname"
    ensures var named := o.(properties := o.properties + [tzname]);
      WellFormedObservance(named) && ObservanceMeaning(named) == ObservanceMeaning(o)
  {
    var ps, qs := o.properties, o.properties + [tzname];
    NamedAppended(ps, [tzname], "tzname", "dtstart");
    NamedAppended(ps, [tzname], "tzname", "tzoffsetfrom");
    NamedAppended(ps, [tzname], "tzname", "tzoffsetto");
    NamedAppended(ps, [tzname], "tzname", "rrule");
    NamedAppended(ps, [tzname], "tzname", "rdate");
  }

  lemma {:induction false} NamedAppended(ps: seq<Property>, extra: seq<Property>, own: string, name: string)
    requires forall p <- extra :: p.name == own
    ensures Named(ps + extra, name) == if name == own then Named(ps, name) + extra else Named(ps, name)
  {
    NamedConcat(ps, extra, name);
    AllNamed(extra, own, name);
  }

  lemma {:induction false} AllNamed(ps: seq<Property>, own: string, name: string)
    requires forall p <- ps :: p.name == own
    ensures Named(ps, name) == if name == own then ps else []
  {
    if ps != [] {
      AllNamed(ps[1..], own, name);
    }
  }

  lemma {:induction false} OthersAgree(ps: seq<Property>, one: seq<Property>, two: seq<Property>)
    requires (forall p <- one :: p.name == "rdate") && (forall p <- two :: p.name == "rdate")
    ensures forall name :: name != "rdate" ==> Named(ps + two, name) == Named(ps + one, name)
    ensures Named(ps + one, "rdate") == Named(ps, "rdate") + one
    ensures Named(ps + two, "rdate") == Named(ps, "rdate") + two
  {
    forall name ensures Named(ps + one, name) == if name == "rdate" then Named(ps, name) + one else Named(ps, name)
      ensures Named(ps + two, name) == if name == "rdate" then Named(ps, name) + two else Named(ps, name)
    {
      NamedAppended(ps, one, "rdate", name);
      NamedAppended(ps, two, "rdate", name);
    }
  }

  lemma {:induction false} SameButDates(ps: seq<Property>, qs: seq<Property>)
    requires WellFormedRules(ps) && PermittedNames(qs) && forall p <- Named(qs, "rdate") :: ValidDates(p)
    requires forall name :: name != "rdate" ==> Named(qs, name) == Named(ps, name)
    ensures WellFormedRules(qs)
  {
    assert Named(qs, "dtstart") == Named(ps, "dtstart") && Named(qs, "rrule") == Named(ps, "rrule");
    assert Named(qs, "tzoffsetfrom") == Named(ps, "tzoffsetfrom");
    assert Named(qs, "tzoffsetto") == Named(ps, "tzoffsetto");
  }

  /** Properties that differ only in how their dates are packed agree on everything else. */
  lemma {:induction false} OnlyDatesDiffer(ps: seq<Property>, one: seq<Property>, two: seq<Property>)
    requires (forall p <- one :: p.name == "rdate") && (forall p <- two :: p.name == "rdate" && ValidDates(p))
    requires WellFormedRules(ps + one)
    ensures WellFormedRules(ps + two)
    ensures forall name :: name != "rdate" ==> Named(ps + two, name) == Named(ps + one, name)
  {
    OthersAgree(ps, one, two);
    DatesStayValid(Named(ps, "rdate"), one, two);
    NamesStayPermitted(ps, one, two);
    SameButDates(ps + one, ps + two);
  }

  lemma {:induction false} DatesStayValid(ds: seq<Property>, one: seq<Property>, two: seq<Property>)
    requires (forall p <- ds + one :: ValidDates(p)) && (forall p <- two :: ValidDates(p))
    ensures forall p <- ds + two :: ValidDates(p)
  {
    forall p | p in ds + two ensures ValidDates(p) {
      assert p in ds ==> p in ds + one;
    }
  }

  lemma {:induction false} NamesStayPermitted(ps: seq<Property>, one: seq<Property>, two: seq<Property>)
    requires PermittedNames(ps + one) && forall p <- two :: p.name == "rdate"
    ensures PermittedNames(ps + two)
  {
    forall p | p in ps + two ensures p.name in PERMITTED_PROPERTIES {
      assert p in ps ==> p in ps + one;
    }
  }

  /** Splitting one RDATE into two changes nothing. */
  lemma {:induction false} PackingIrrelevant(o: Component, dates: Property, v: seq<Json>, w: seq<Json>)
    requires v != [] && w != [] && dates.name == "rdate" && dates.values == v + w
    requires var packed := o.(properties := o.properties + [dates]); WellFormedObservance(packed)
    ensures var packed := o.(properties := o.properties + [dates]);
      var split := o.(properties := o.properties + [dates.(values := v), dates.(values := w)]);
      WellFormedObservance(split) && ObservanceMeaning(split) == ObservanceMeaning(packed)
  {
    var ps := o.properties;
    var one, two := [dates], [dates.(values := v), dates.(values := w)];
    PackedDates(ps, dates, v, w);
    OnlyDatesDiffer(ps, one, two);
    FieldsDecide(o, ps + one, ps + two);
  }

  lemma {:induction false} FieldsDecide(o: Component, ps: seq<Property>, qs: seq<Property>)
    requires WellFormedObservance(o.(properties := ps)) && WellFormedRules(qs)
    requires Named(qs, "dtstart") == Named(ps, "dtstart") && Named(qs, "rrule") == Named(ps, "rrule")
    requires Named(qs, "tzoffsetfrom") == Named(ps, "tzoffsetfrom")
      && Named(qs, "tzoffsetto") == Named(ps, "tzoffsetto")
    requires Dates(Named(qs, "rdate")) == Dates(Named(ps, "rdate"))
    ensures WellFormedObservance(o.(properties := qs))
    ensures ObservanceMeaning(o.(properties := qs)) == ObservanceMeaning(o.(properties := ps))
  {
  }

  lemma {:induction false} PackedDates(ps: seq<Property>, dates: Property, v: seq<Json>, w: seq<Json>)
    requires v != [] && w != [] && dates.name == "rdate" && dates.values == v + w
    requires WellFormedRules(ps + [dates])
    ensures var two := [dates.(values := v), dates.(values := w)];
      && (forall p <- two :: ValidDates(p))
      && (forall p <- Named(ps + two, "rdate") :: ValidDates(p))
      && Dates(Named(ps + two, "rdate")) == Dates(Named(ps + [dates], "rdate"))
  {
    NamedAppended(ps, [dates], "rdate", "rdate");
    NamedAppended(ps, [dates.(values := v), dates.(values := w)], "rdate", "rdate");
    PackedAfter(Named(ps, "rdate"), dates, v, w);
  }

  lemma {:induction false} PackedAfter(before: seq<Property>, dates: Property, v: seq<Json>, w: seq<Json>)
    requires v != [] && w != [] && dates.values == v + w
    requires forall p <- before + [dates] :: ValidDates(p)
    ensures var two := [dates.(values := v), dates.(values := w)];
      && (forall p <- two :: ValidDates(p))
      && (forall p <- before + two :: ValidDates(p))
      && Dates(before + two) == Dates(before + [dates])
  {
    assert dates in before + [dates];
    SplitDates(dates, v, w);
    DatesConcat(before, [dates]);
    DatesConcat(before, [dates.(values := v), dates.(values := w)]);
  }

  lemma {:induction false} SplitDates(dates: Property, v: seq<Json>, w: seq<Json>)
    requires v != [] && w != [] && dates.values == v + w && ValidDates(dates)
    ensures var first, second := dates.(values := v), dates.(values := w);
      ValidDates(first) && ValidDates(second) && Dates([first, second]) == Dates([dates])
  {
    StringsConcat(v, w);
    var first, second := dates.(values := v), dates.(values := w);
    assert [first, second][1..] == [second];
    assert [second][1..] == [] && [dates][1..] == [];
    assert Dates([second]) == Strings(w) + Dates([]) == Strings(w);
    assert Dates([dates]) == Strings(v + w) + Dates([]) == Strings(v + w);
  }

  lemma {:induction false} DatesConcat(a: seq<Property>, b: seq<Property>)
    requires forall p <- a + b :: ValidDates(p)
    ensures (forall p <- a :: ValidDates(p)) && (forall p <- b :: ValidDates(p))
    ensures Dates(a + b) == Dates(a) + Dates(b)
  {
    assert (forall p <- a :: p in a + b) && (forall p <- b :: p in a + b);
    if a == [] {
      assert a + b == b;
    } else {
      assert (a + b)[1..] == a[1..] + b;
      DatesConcat(a[1..], b);
    }
  }

  /** Neither the order of the observances nor that of the zone's own properties matters. */
  lemma {:induction false} ZoneOrderIrrelevant(a: Component, b: Component, id: string)
    requires a.name == b.name && WellFormedZone(a, id)
    requires multiset(a.components) == multiset(b.components) && multiset(a.properties) == multiset(b.properties)
    ensures SameZone(a, b, id)
  {
    SameMembers(a.components, b.components);
    assert |a.components| == |multiset(a.components)| == |multiset(b.components)| == |b.components|;
    SameMembers(a.properties, b.properties);
    SingleValueReordered(a.properties, b.properties, "tzid", "text");
    forall p | p in b.properties ensures |Named(b.properties, p.name)| <= 1 {
      NamedContents(a.properties, b.properties, p.name);
      OnlyOne(Named(a.properties, p.name), Named(b.properties, p.name));
    }
    MeaningsContents(a.components, b.components);
  }

  /** Nor does an informational property the zone did not have yet. */
  lemma {:induction false} MetadataIrrelevant(a: Component, extra: Property, id: string)
    requires WellFormedZone(a, id)
    requires extra.name in PERMITTED_METADATA && Named(a.properties, extra.name) == []
    ensures SameZone(a, a.(properties := a.properties + [extra]), id)
  {
    var ps := a.properties + [extra];
    assert extra.name != "tzid";
    NamedAppended(a.properties, [extra], extra.name, "tzid");
    forall p | p in ps ensures |Named(ps, p.name)| <= 1 {
      NamedAppended(a.properties, [extra], extra.name, p.name);
    }
  }

  lemma {:induction false} MeaningsContents(a: seq<Component>, b: seq<Component>)
    requires multiset(a) == multiset(b)
    requires AllWellFormed(a) && AllWellFormed(b)
    ensures multiset(ObservanceMeanings(a)) == multiset(ObservanceMeanings(b))
  {
    ContentsFollow(a, b, ObservanceMeanings(a), ObservanceMeanings(b));
  }

  // ---------- The procedure itself ----------

  method NormalizeObservance(o: Component, orders: Orders) returns (r: Option<Json>)
    ensures r == if WellFormedObservance(o) then Some(ObservanceForm(o, orders)) else None
  {
    if (o.name != "standard" && o.name != "daylight") || |o.components| > 0 {
      return None;
    }
    r := NormalizeRules(o.name, o.properties, orders);
  }

  method AllPermitted(ps: seq<Property>) returns (ok: bool)
    ensures ok == PermittedNames(ps)
  {
    ok := !exists p <- ps :: p.name != "tzname" && p.name !in PERMITTED_PROPERTIES;
  }

  method NormalizeRules(kind: string, ps: seq<Property>, orders: Orders) returns (r: Option<Json>)
    ensures r == if WellFormedRules(ps) then Some(RulesForm(kind, ps, orders)) else None
  {
    var permitted := AllPermitted(ps);
    if !permitted {
      return None;
    }
    var start := SingleValue(ps, "dtstart", "date-time");
    var offsetFrom := OffsetOf(ps, "tzoffsetfrom");
    var offsetTo := OffsetOf(ps, "tzoffsetto");
    if start.None? || offsetFrom.None? || offsetTo.None? {
      return None;
    }
    var rule := RecurrenceRule(Named(ps, "rrule"));
    var dates := CollectDates(Named(ps, "rdate"));
    if rule.None? || dates.None? {
      return None;
    }
    r := Some(Shape(kind, start.value, offsetFrom.value, offsetTo.value, rule.value, Sort(dates.value, orders.texts)));
  }

  method RecurrenceRule(recurrence: seq<Property>) returns (r: Option<Json>)
    ensures r.Some? <==> |recurrence| <= 1 && forall p <- recurrence :: ValidRule(p)
    ensures r.Some? && recurrence == [] ==> r.value == Undefined
    ensures r.Some? && recurrence != [] ==> recurrence[0].values == [r.value]
  {
    if |recurrence| > 1 {
      return None;
    }
    if |recurrence| == 1 {
      if !ValidRule(recurrence[0]) {
        return None;
      }
      return Some(recurrence[0].values[0]);
    }
    r := Some(Undefined);
  }

  method CollectDates(recurrenceDates: seq<Property>) returns (r: Option<seq<string>>)
    ensures r.Some? <==> forall p <- recurrenceDates :: ValidDates(p)
    ensures r.Some? ==> r.value == Dates(recurrenceDates)
  {
    var dates: seq<string> := [];
    for k := 0 to |recurrenceDates|
      invariant forall p <- recurrenceDates[..k] :: ValidDates(p)
      invariant dates == Dates(recurrenceDates[..k])
    {
      var p := recurrenceDates[k];
      if !ValidDates(p) {
        return None;
      }
      assert recurrenceDates[..k + 1] == recurrenceDates[..k] + [p];
      DatesConcat(recurrenceDates[..k], [p]);
      assert Dates([p]) == Strings(p.values) + Dates([]);
      dates := dates + Strings(p.values);
    }
    assert recurrenceDates[..|recurrenceDates|] == recurrenceDates;
    r := Some(dates);
  }

  /** How often each name occurs; names that do not occur are not counted. */
  ghost predicate Counts(counts: map<string, nat>, ps: seq<Property>) {
    forall n :: (if n in counts then counts[n] else 0) == |Named(ps, n)|
  }

  lemma {:induction false} CountOne(counts: map<string, nat>, ps: seq<Property>, p: Property)
    requires Counts(counts, ps)
    ensures Counts(counts[p.name := (if p.name in counts then counts[p.name] else 0) + 1], ps + [p])
  {
    forall n ensures |Named(ps + [p], n)| == |Named(ps, n)| + (if n == p.name then 1 else 0) {
      NamedAppended(ps, [p], p.name, n);
    }
  }

  /** A count above one is a repeated name, and the other way round. */
  lemma {:induction false} RepeatsCounted(counts: map<string, nat>, ps: seq<Property>)
    requires Counts(counts, ps)
    ensures (forall n <- counts :: counts[n] <= 1) <==> forall p <- ps :: |Named(ps, p.name)| <= 1
  {
    forall n | n in counts && counts[n] > 1 ensures exists p <- ps :: |Named(ps, p.name)| > 1 {
      var p := Named(ps, n)[0];
      assert p in Named(ps, n);
      assert p in ps && p.name == n;
    }
  }

  method CountMetadata(ps: seq<Property>) returns (counts: map<string, nat>)
    ensures Counts(counts, ps)
  {
    counts := map[];
    for k := 0 to |ps|
      invariant Counts(counts, ps[..k])
    {
      var name := ps[k].name;
      CountOne(counts, ps[..k], ps[k]);
      assert ps[..k + 1] == ps[..k] + [ps[k]];
      counts := counts[name := (if name in counts then counts[name] else 0) + 1];
    }
    assert ps[..|ps|] == ps;
  }

  method NormalizeTimezone(c: Component, id: string, orders: Orders) returns (r: Option<Json>)
    ensures r == Normalized(c, id, orders)
  {
    if c.name != "vtimezone" || |c.components| == 0 {
      return None;
    }
    if exists p <- c.properties :: p.name !in PERMITTED_METADATA {
      return None;
    }
    if SingleValue(c.properties, "tzid", "text") != Some(id) {
      return None;
    }
    var counts := CountMetadata(c.properties);
    RepeatsCounted(counts, c.properties);
    if exists n <- counts :: counts[n] > 1 {
      return None;
    }
    var observances := NormalizeObservances(c.components, orders);
    if observances.None? {
      return None;
    }
    r := Some(Arr([Str(id), Arr(Sort(observances.value, ByText(orders)))]));
  }

  lemma {:induction false} PrefixForms(cs: seq<Component>, i: nat, orders: Orders)
    requires i < |cs| && AllWellFormed(cs[..i])
    ensures AllWellFormed(cs[..i + 1]) <==> WellFormedObservance(cs[i])
    ensures AllWellFormed(cs) ==> WellFormedObservance(cs[i])
    ensures WellFormedObservance(cs[i]) ==>
      ObservanceForms(cs[..i + 1], orders) == ObservanceForms(cs[..i], orders) + [ObservanceForm(cs[i], orders)]
  {
    var shorter, longer := cs[..i], cs[..i + 1];
    assert longer == shorter + [cs[i]];
    assert cs[i] in cs && cs[i] in longer;
    assert forall o <- longer :: o in shorter || o == cs[i];
    if WellFormedObservance(cs[i]) {
      FormsAppend(shorter, cs[i], orders);
    }
  }

  lemma {:induction false} WellFormedAppend(os: seq<Component>, o: Component)
    requires AllWellFormed(os) && WellFormedObservance(o)
    ensures AllWellFormed(os + [o])
  {
    forall x | x in os + [o] ensures WellFormedObservance(x) {
      assert x in os || x == o;
    }
  }

  lemma {:induction false} FormsAppend(os: seq<Component>, o: Component, orders: Orders)
    requires AllWellFormed(os) && WellFormedObservance(o)
    ensures AllWellFormed(os + [o])
    ensures ObservanceForms(os + [o], orders) == ObservanceForms(os, orders) + [ObservanceForm(o, orders)]
  {
    WellFormedAppend(os, o);
    var longer, before := ObservanceForms(os + [o], orders), ObservanceForms(os, orders);
    forall i | 0 <= i < |os| ensures longer[i] == before[i] {
      assert (os + [o])[i] == os[i];
    }
    OneMore(longer, before);
  }

  lemma {:induction false} OneMore<T>(longer: seq<T>, before: seq<T>)
    requires |longer| == |before| + 1 && forall i :: 0 <= i < |before| ==> longer[i] == before[i]
    ensures longer == before + [longer[|before|]]
  {
  }

  method NormalizeObservances(cs: seq<Component>, orders: Orders) returns (r: Option<seq<Json>>)
    ensures r.Some? <==> AllWellFormed(cs)
    ensures r.Some? ==> r.value == ObservanceForms(cs, orders)
  {
    var observances: seq<Json> := [];
    for i := 0 to |cs|
      invariant AllWellFormed(cs[..i]) && observances == ObservanceForms(cs[..i], orders)
    {
      var form := NormalizeObservance(cs[i], orders);
      PrefixForms(cs, i, orders);
      if form.None? {
        return None;
      }
      observances := observances + [form.value];
    }
    assert cs[..|cs|] == cs;
    r := Some(observances);
  }

  // ---------- Which zones a series uses ----------

  const EVENT_DATE_PROPERTIES := {"dtstart", "dtend", "recurrence-id", "rdate", "exdate"}

  function FirstText(c: Component, name: string): Option<string> {
    var matches := Named(c.properties, name);
    if matches == [] || matches[0].values == [] || !matches[0].values[0].Str? then None
    else Some(matches[0].values[0].s)
  }

  function Lookup(entries: seq<Entry>, key: string): Json {
    if entries == [] then Undefined
    else if entries[0].key == key then entries[0].value
    else Lookup(entries[1..], key)
  }

  /** The time zone parameter of a property, `Undefined` when it has none. */
  function ZoneParameter(p: Property): Json {
    if p.parameters.Obj? then Lookup(p.parameters.entries, "tzid") else Undefined
  }

  predicate OfSeries(e: Component, uid: string) {
    FirstText(e, "uid") == Some(uid)
  }

  predicate DateOf(e: Component, p: Property) {
    p in e.properties && p.name in EVENT_DATE_PROPERTIES
  }

  ghost predicate ZoneIn(e: Component, ps: seq<Property>, zone: string) {
    zone != "" && exists p <- ps :: DateOf(e, p) && ZoneParameter(p) == Str(zone)
  }

  ghost predicate BadDate(e: Component, ps: seq<Property>) {
    exists p <- ps :: DateOf(e, p) && BadParameter(p)
  }

  ghost predicate Uses(events: seq<Component>, uid: string, zone: string) {
    exists e <- events :: OfSeries(e, uid) && ZoneIn(e, e.properties, zone)
  }

  predicate BadParameter(p: Property) {
    !ZoneParameter(p).Undefined? && (!ZoneParameter(p).Str? || ZoneParameter(p) == Str(""))
  }

  ghost predicate UsesBadParameter(events: seq<Component>, uid: string) {
    exists e <- events :: OfSeries(e, uid) && BadDate(e, e.properties)
  }

  function Definitions(cs: seq<Component>, id: string): (r: seq<Component>)
    ensures forall d <- r :: d in cs && FirstText(d, "tzid") == Some(id)
  {
    if cs == [] then []
    else if FirstText(cs[0], "tzid") == Some(id) then [cs[0]] + Definitions(cs[1..], id)
    else Definitions(cs[1..], id)
  }

  /** A zone is supported when rules are bundled for it and any embedded definition is the
      only one and matches them. A bundled block that cannot be parsed is `None`. */
  predicate Supported(id: string, definitions: seq<Component>, bundled: map<string, Option<Component>>,
                      orders: Orders) {
    && id in bundled
    && var matching := Definitions(definitions, id);
       matching == [] || (|matching| == 1 && MatchesBundledDefinition(matching[0], bundled[id], id, orders))
  }

  /** The zones an event's dates name; stops at the first parameter that is not a zone name. */
  method CollectZones(e: Component) returns (bad: bool, zones: set<string>)
    ensures bad <==> BadDate(e, e.properties)
    ensures !bad ==> forall zone :: zone in zones <==> ZoneIn(e, e.properties, zone)
  {
    zones := {};
    for k := 0 to |e.properties|
      invariant !BadDate(e, e.properties[..k])
      invariant forall zone :: zone in zones <==> ZoneIn(e, e.properties[..k], zone)
    {
      var p := e.properties[k];
      assert e.properties[..k + 1] == e.properties[..k] + [p];
      if p.name in EVENT_DATE_PROPERTIES {
        var value := ZoneParameter(p);
        if !value.Undefined? {
          if !value.Str? || value.s == "" {
            assert p in e.properties && DateOf(e, p) && BadParameter(p);
            return true, zones;
          }
          zones := zones + {value.s};
        }
      }
    }
    assert e.properties[..|e.properties|] == e.properties;
    bad := false;
  }

  method CollectUsedZones(events: seq<Component>, uid: string) returns (bad: bool, used: set<string>)
    ensures bad <==> UsesBadParameter(events, uid)
    ensures !bad ==> forall zone :: zone in used <==> Uses(events, uid, zone)
  {
    used := {};
    for i := 0 to |events|
      invariant !UsesBadParameter(events[..i], uid)
      invariant forall zone :: zone in used <==> Uses(events[..i], uid, zone)
    {
      var e := events[i];
      assert e in events && events[..i + 1] == events[..i] + [e];
      if OfSeries(e, uid) {
        var zones;
        bad, zones := CollectZones(e);
        if bad {
          return;
        }
        used := used + zones;
      }
    }
    assert events[..|events|] == events;
    bad := false;
  }

  method HasUnsupportedTimezoneRules(events: seq<Component>, definitions: seq<Component>, uid: string,
                                     bundled: map<string, Option<Component>>, orders: Orders)
    returns (unsupported: bool)
    ensures unsupported <==>
      || UsesBadParameter(events, uid)
      || exists zone :: Uses(events, uid, zone) && !Supported(zone, definitions, bundled, orders)
  {
    var bad, used := CollectUsedZones(events, uid);
    if bad {
      return true;
    }
    var remaining := used;
    while remaining != {}
      invariant remaining <= used
      invariant forall zone <- used - remaining :: Supported(zone, definitions, bundled, orders)
    {
      var zone :| zone in remaining;
      if zone !in bundled {
        assert Uses(events, uid, zone);
        return true;
      }
      var matching := Definitions(definitions, zone);
      if |matching| != 0 && (|matching| != 1 || !MatchesBundledDefinition(matching[0], bundled[zone], zone, orders)) {
        assert Uses(events, uid, zone);
        return true;
      }
      remaining := remaining - {zone};
    }
    unsupported := false;
  }
}
