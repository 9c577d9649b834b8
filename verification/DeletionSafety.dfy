/** When deleting a calendar resource removes one complete VEVENT series and nothing else. */
module DeletionSafety {
  import opened Common

  /** A property by name with its first value; `None` when that value is not text. */
  datatype CalProperty = CalProperty(name: string, value: Option<string>)

  datatype CalComponent = CalComponent(name: string, properties: seq<CalProperty>, children: seq<CalComponent>)

  function PropertiesNamed(ps: seq<CalProperty>, name: string): (r: seq<CalProperty>)
    ensures forall p <- r :: p in ps && p.name == name
  {
    if ps == [] then []
    else if ps[0].name == name then [ps[0]] + PropertiesNamed(ps[1..], name)
    else PropertiesNamed(ps[1..], name)
  }

  predicate Master(event: CalComponent) {
    PropertiesNamed(event.properties, "recurrence-id") == []
  }

  /** One UID property with this text, and at most one RECURRENCE-ID. */
  predicate Belongs(event: CalComponent, uid: string) {
    && |PropertiesNamed(event.properties, "uid")| == 1
    && PropertiesNamed(event.properties, "uid")[0].value == Some(uid)
    && |PropertiesNamed(event.properties, "recurrence-id")| <= 1
  }

  predicate ChildAllowed(parent: CalComponent, child: CalComponent) {
    && (if parent.name == "vevent" then child.name == "valarm"
        else (child.name == "standard" || child.name == "daylight"))
    && child.children == []
  }

  predicate PartAllowed(part: CalComponent) {
    (part.name == "vevent" || part.name == "vtimezone") && forall child <- part.children :: ChildAllowed(part, child)
  }

  function Events(parts: seq<CalComponent>): (r: seq<CalComponent>)
    ensures forall e :: e in r <==> e in parts && e.name == "vevent"
  {
    if parts == [] then []
    else if parts[0].name == "vevent" then [parts[0]] + Events(parts[1..])
    else Events(parts[1..])
  }

  function Masters(events: seq<CalComponent>): nat {
    if events == [] then 0 else Masters(events[..|events| - 1]) + if Master(events[|events| - 1]) then 1 else 0
  }

  predicate AllBelong(events: seq<CalComponent>, uid: string) {
    forall event <- events :: Belongs(event, uid)
  }

  /** The resource is exactly one series: only events and time zones, every event belongs to
      one non-empty UID, and exactly one event is the master. */
  ghost predicate OneSeries(calendar: CalComponent) {
    && calendar.name == "vcalendar"
    && (forall part <- calendar.children :: PartAllowed(part))
    && Masters(Events(calendar.children)) == 1
    && exists uid :: uid != "" && AllBelong(Events(calendar.children), uid)
  }

  /** An unparseable resource is `None` and never safe. */
  ghost predicate Safe(resource: Option<CalComponent>) {
    resource.Some? && OneSeries(resource.value)
  }

  method AllPartsAllowed(parts: seq<CalComponent>) returns (ok: bool)
    ensures ok <==> forall part <- parts :: PartAllowed(part)
  {
    if exists part <- parts :: part.name != "vevent" && part.name != "vtimezone" {
      return false;
    }
    for i := 0 to |parts|
      invariant forall part <- parts[..i] :: PartAllowed(part)
    {
      assert parts[..i + 1] == parts[..i] + [parts[i]];
      if exists child <- parts[i].children :: !ChildAllowed(parts[i], child) {
        assert parts[i] in parts;
        return false;
      }
    }
    assert parts[..|parts|] == parts;
    ok := true;
  }

  lemma {:induction false} NoEventsNoMaster(events: seq<CalComponent>)
    ensures Masters(events) <= |events|
  {
    if events != [] {
      NoEventsNoMaster(events[..|events| - 1]);
    }
  }

  method IsSafeSingleVeventSeries(resource: Option<CalComponent>) returns (safe: bool)
    ensures safe <==> Safe(resource)
  {
    if resource.None? || resource.value.name != "vcalendar" {
      return false;
    }
    var components := resource.value.children;
    var events := Events(components);
    NoEventsNoMaster(events);
    if |events| == 0 {
      return false;
    }
    var allowed := AllPartsAllowed(components);
    if !allowed {
      return false;
    }
    var gathered, seriesUids, masterCount := GatherSeries(events);
    if !gathered {
      return false;
    }
    safe := |seriesUids| == 1 && masterCount == 1;
    SeriesDecided(events);
  }

  /** The UID an event must have: one property, with text, and at most one RECURRENCE-ID. */
  function UidOf(event: CalComponent): (r: Option<string>)
    ensures forall uid :: r == Some(uid) <==> uid != "" && Belongs(event, uid)
  {
    var uids := PropertiesNamed(event.properties, "uid");
    if |uids| != 1 || |PropertiesNamed(event.properties, "recurrence-id")| > 1 || uids[0].value == Some("") then None
    else uids[0].value
  }

  function Uids(events: seq<CalComponent>): set<string> {
    if events == [] then {}
    else
      var last := UidOf(events[|events| - 1]);
      Uids(events[..|events| - 1]) + if last.Some? then {last.value} else {}
  }

  method GatherSeries(events: seq<CalComponent>) returns (ok: bool, seriesUids: set<string>, masterCount: nat)
    ensures ok <==> forall event <- events :: UidOf(event).Some?
    ensures ok ==> masterCount == Masters(events) && seriesUids == Uids(events)
  {
    seriesUids, masterCount := {}, 0;
    for i := 0 to |events|
      invariant masterCount == Masters(events[..i]) && seriesUids == Uids(events[..i])
      invariant forall event <- events[..i] :: UidOf(event).Some?
    {
      var event := events[i];
      assert event in events;
      assert events[..i + 1] == events[..i] + [event] && events[..i + 1][..i] == events[..i];
      var uidProperties := PropertiesNamed(event.properties, "uid");
      var recurrenceProperties := PropertiesNamed(event.properties, "recurrence-id");
      if |uidProperties| != 1 || |recurrenceProperties| > 1 || uidProperties[0].value.None? {
        return false, seriesUids, masterCount;
      }
      var uid := uidProperties[0].value.value;
      if |uid| == 0 {
        return false, seriesUids, masterCount;
      }
      seriesUids := seriesUids + {uid};
      if |recurrenceProperties| == 0 {
        masterCount := masterCount + 1;
      }
    }
    assert events[..|events|] == events;
    ok := true;
  }

  lemma {:induction false} UidsAre(events: seq<CalComponent>, uid: string)
    ensures uid in Uids(events) <==> exists event <- events :: UidOf(event) == Some(uid)
  {
    if events != [] {
      var n := |events| - 1;
      UidsAre(events[..n], uid);
      assert events == events[..n] + [events[n]];
    }
  }

  /** One gathered UID means one series, and one series gathers one UID. */
  lemma {:induction false} SeriesDecided(events: seq<CalComponent>)
    requires events != [] && forall event <- events :: UidOf(event).Some?
    ensures |Uids(events)| == 1 <==> exists uid :: uid != "" && AllBelong(events, uid)
  {
    var first := UidOf(events[0]).value;
    assert events[0] in events;
    UidsAre(events, first);
    if |Uids(events)| == 1 {
      OnlyElement(Uids(events), first);
      forall event | event in events ensures Belongs(event, first) {
        UidsAre(events, UidOf(event).value);
      }
      assert first != "" && AllBelong(events, first);
    }
    if uid :| uid != "" && AllBelong(events, uid) {
      forall u ensures u in Uids(events) <==> u == uid {
        UidsAre(events, u);
        assert forall event <- events :: UidOf(event) == Some(uid);
      }
      assert Uids(events) == {uid};
    }
  }

  lemma {:induction false} OnlyElement<T>(s: set<T>, x: T)
    requires |s| == 1 && x in s
    ensures s == {x}
  {
    assert |s - {x}| == 0;
  }

  // ---------- The series, position by position ----------

  /** The property at this position is the only one of its name. */
  predicate OnlyAt(ps: seq<CalProperty>, k: nat, name: string) {
    k < |ps| && forall j :: 0 <= j < |ps| ==> (ps[j].name == name <==> j == k)
  }

  predicate AtMostOne(ps: seq<CalProperty>, name: string) {
    forall i, j :: 0 <= i < j < |ps| ==> !(ps[i].name == name && ps[j].name == name)
  }

  predicate Absent(ps: seq<CalProperty>, name: string) {
    forall i :: 0 <= i < |ps| ==> ps[i].name != name
  }

  lemma {:induction false} FirstProperty(ps: seq<CalProperty>, name: string)
    requires ps != []
    ensures ps[0].name == name ==>
      && !Absent(ps, name) && (AtMostOne(ps, name) <==> Absent(ps[1..], name))
      && (forall k: nat :: OnlyAt(ps, k, name) <==> k == 0 && Absent(ps[1..], name))
    ensures ps[0].name != name ==>
      && (Absent(ps, name) <==> Absent(ps[1..], name)) && (AtMostOne(ps, name) <==> AtMostOne(ps[1..], name))
      && (forall k: nat :: OnlyAt(ps, k, name) <==> k > 0 && OnlyAt(ps[1..], k - 1, name))
  {
    var rest := ps[1..];
    assert forall j :: 0 < j < |ps| ==> ps[j] == rest[j - 1];
    assert forall j :: 0 <= j < |rest| ==> rest[j] == ps[j + 1];
  }

  lemma {:induction false} NamedByPosition(ps: seq<CalProperty>, name: string)
    ensures PropertiesNamed(ps, name) == [] <==> Absent(ps, name)
    ensures |PropertiesNamed(ps, name)| <= 1 <==> AtMostOne(ps, name)
    ensures forall k: nat :: OnlyAt(ps, k, name) ==> PropertiesNamed(ps, name) == [ps[k]]
  {
    if ps != [] {
      NamedByPosition(ps[1..], name);
      FirstProperty(ps, name);
    }
  }

  lemma {:induction false} PositionOfOnly(ps: seq<CalProperty>, name: string) returns (k: nat)
    requires |PropertiesNamed(ps, name)| == 1
    ensures OnlyAt(ps, k, name)
  {
    FirstProperty(ps, name);
    NamedByPosition(ps[1..], name);
    if ps[0].name == name {
      k := 0;
    } else {
      var j := PositionOfOnly(ps[1..], name);
      k := j + 1;
    }
  }

  ghost predicate HasUid(event: CalComponent, uid: string) {
    exists k: nat :: OnlyAt(event.properties, k, "uid") && event.properties[k].value == Some(uid)
  }

  lemma {:induction false} BelongsByPosition(event: CalComponent, uid: string)
    ensures Belongs(event, uid) <==> HasUid(event, uid) && AtMostOne(event.properties, "recurrence-id")
    ensures Master(event) <==> Absent(event.properties, "recurrence-id")
  {
    NamedByPosition(event.properties, "uid");
    NamedByPosition(event.properties, "recurrence-id");
    if Belongs(event, uid) {
      var k := PositionOfOnly(event.properties, "uid");
    }
  }

  predicate IsMaster(part: CalComponent) {
    part.name == "vevent" && Absent(part.properties, "recurrence-id")
  }

  predicate OnlyMaster(parts: seq<CalComponent>, m: nat) {
    m < |parts| && forall i :: 0 <= i < |parts| ==> (IsMaster(parts[i]) <==> i == m)
  }

  lemma {:induction false} MastersFirst(e: CalComponent, events: seq<CalComponent>)
    ensures Masters([e] + events) == (if Master(e) then 1 else 0) + Masters(events)
  {
    if events == [] {
      assert [e] + events == [e] && [e][..0] == [];
    } else {
      var n := |events| - 1;
      assert ([e] + events)[..n + 1] == [e] + events[..n] && ([e] + events)[n + 1] == events[n];
      MastersFirst(e, events[..n]);
    }
  }

  predicate NoMaster(parts: seq<CalComponent>) {
    forall i :: 0 <= i < |parts| ==> !IsMaster(parts[i])
  }

  lemma {:induction false} FirstPart(parts: seq<CalComponent>)
    requires parts != []
    ensures NoMaster(parts) <==> !IsMaster(parts[0]) && NoMaster(parts[1..])
    ensures OnlyMaster(parts, 0) <==> IsMaster(parts[0]) && NoMaster(parts[1..])
    ensures forall m: nat :: m > 0 ==> (OnlyMaster(parts, m) <==> !IsMaster(parts[0]) && OnlyMaster(parts[1..], m - 1))
  {
    var rest := parts[1..];
    assert forall i :: 0 < i < |parts| ==> parts[i] == rest[i - 1];
    assert forall i :: 0 <= i < |rest| ==> rest[i] == parts[i + 1];
  }

  lemma {:induction false} MastersByPosition(parts: seq<CalComponent>)
    ensures Masters(Events(parts)) == 0 <==> NoMaster(parts)
    ensures Masters(Events(parts)) == 1 <==> exists m: nat :: OnlyMaster(parts, m)
  {
    if parts != [] {
      hide OnlyMaster, NoMaster;
      var rest := parts[1..];
      MastersByPosition(rest);
      BelongsByPosition(parts[0], "");
      MastersFirst(parts[0], Events(rest));
      FirstPart(parts);
      if IsMaster(parts[0]) && NoMaster(rest) {
        assert OnlyMaster(parts, 0);
      }
      if m: nat :| OnlyMaster(rest, m) && !IsMaster(parts[0]) {
        assert OnlyMaster(parts, m + 1);
      }
    } else {
      assert Events(parts) == [];
    }
  }

  /** A part of a series: a time zone with flat rules, or an event with flat alarms, one UID
      property, which is this one, and no second RECURRENCE-ID. */
  ghost predicate SeriesPart(part: CalComponent, uid: string) {
    && (part.name == "vtimezone" || part.name == "vevent")
    && (forall child <- part.children :: child.children == []
          && child.name in (if part.name == "vevent" then {"valarm"} else {"standard", "daylight"}))
    && (part.name == "vevent" ==> HasUid(part, uid) && AtMostOne(part.properties, "recurrence-id"))
  }

  ghost predicate AllOfSeries(parts: seq<CalComponent>, uid: string) {
    forall part <- parts :: SeriesPart(part, uid)
  }

  /** Safe means: a calendar of parts of one series with a non-empty UID, of which exactly one is
      an event without RECURRENCE-ID. */
  lemma {:induction false} SafeMeans(calendar: CalComponent)
    ensures Safe(Some(calendar)) <==>
      && calendar.name == "vcalendar"
      && (exists m: nat :: OnlyMaster(calendar.children, m))
      && exists uid :: uid != "" && AllOfSeries(calendar.children, uid)
  {
    var parts := calendar.children;
    MastersByPosition(parts);
    forall uid, part | part in parts
      ensures SeriesPart(part, uid) <==> PartAllowed(part) && (part.name == "vevent" ==> Belongs(part, uid))
    {
      BelongsByPosition(part, uid);
    }
    if OneSeries(calendar) {
      var uid :| uid != "" && AllBelong(Events(parts), uid);
      assert AllOfSeries(parts, uid);
    }
    if uid :| uid != "" && AllOfSeries(parts, uid) {
      assert AllBelong(Events(parts), uid);
    }
  }
}
