/** The bookkeeping of the PostgreSQL contract run: resources are recorded before they are
    asked for, so that a clean-up can find whatever an ambiguous failure left behind. */
module ContractCleanup {
  import opened Common

  type Id = nat

  /** What the run looks at in a container: the labels are owner, project and service. */
  datatype Container = Container(name: string, owner: string, project: string, service: string, running: bool)

  datatype Volume = Volume(owner: string, project: string, volume: string)

  type Tracked = seq<(string, string)>

  /** How a call to the daemon goes: normally; failing before or after its effect; with a bad
      exit status and no effect; with unusable output; or resolving to another container. */
  datatype Fault = Works | Lost | Late | Refused | Garbled | Strays(other: Id)

  datatype Answer<+T> = Failed | Status(code: nat) | Unusable | Info(value: T)

  // ---------- Ownership ----------

  /** Made by this run: the owner and project labels are its own, and it was recorded. */
  predicate Ours(c: Container, project: string, tracked: Tracked) {
    c.owner == project && c.project == project && (c.name, c.service) in tracked
  }

  predicate OurVolume(name: string, v: Volume, project: string, tracked: seq<string>) {
    v.owner == project && v.project == project && v.volume == name && name in tracked
  }

  function Cleared(containers: map<Id, Container>, project: string, tracked: Tracked): map<Id, Container> {
    map id | id in containers && !Ours(containers[id], project, tracked) :: containers[id]
  }

  function ClearedVolumes(volumes: map<string, Volume>, project: string, tracked: seq<string>): map<string, Volume> {
    map name | name in volumes && !OurVolume(name, volumes[name], project, tracked) :: volumes[name]
  }

  /** Nothing but recorded containers of this run was stopped or removed, and nothing appeared. */
  ghost predicate OnlyOurs(before: map<Id, Container>, after: map<Id, Container>, project: string, tracked: Tracked) {
    && after.Keys <= before.Keys
    && forall id <- before ::
      && (!Ours(before[id], project, tracked) ==> id in after && after[id] == before[id])
      && (id in after ==> after[id] == before[id] || after[id] == before[id].(running := false))
  }

  /** At most this container was stopped or removed. */
  ghost predicate JustOne(before: map<Id, Container>, after: map<Id, Container>, id: Id)
    requires id in before
  {
    after == before || after == before - {id} || after == before[id := before[id].(running := false)]
  }

  ghost predicate OnlyOurVolumes(before: map<string, Volume>, after: map<string, Volume>, project: string,
                                 tracked: seq<string>) {
    && after.Keys <= before.Keys
    && forall name <- before ::
      && (!OurVolume(name, before[name], project, tracked) ==> name in after)
      && (name in after ==> after[name] == before[name])
  }

  /** Container `id` has the recorded name without the labels that go with it. */
  predicate Holds(containers: map<Id, Container>, project: string, entry: (string, string), id: Id) {
    id in containers && containers[id].name == entry.0 && !Ours(containers[id], project, [entry])
  }

  /** A recorded name is held by something whose labels are not as expected. */
  ghost predicate Impostor(containers: map<Id, Container>, project: string, tracked: Tracked) {
    exists id, entry :: entry in tracked && Holds(containers, project, entry, id)
  }

  ghost predicate VolumeImpostor(volumes: map<string, Volume>, project: string, tracked: seq<string>) {
    exists name :: name in volumes && name in tracked && !OurVolume(name, volumes[name], project, tracked)
  }

  predicate OneHolder(containers: map<Id, Container>) {
    forall id, other | id in containers && other in containers && containers[id].name == containers[other].name ::
      id == other
  }

  ghost predicate Covered(containers: map<Id, Container>, volumes: map<string, Volume>, project: string,
                          tracked: Tracked, trackedVolumes: seq<string>) {
    && (forall id <- containers :: containers[id].owner == project ==> Ours(containers[id], project, tracked))
    && (forall name <- volumes :: volumes[name].owner == project ==>
        OurVolume(name, volumes[name], project, trackedVolumes))
  }

  ghost predicate NothingOwned(containers: map<Id, Container>, volumes: map<string, Volume>, project: string) {
    && (forall id <- containers :: containers[id].owner != project)
    && (forall name <- volumes :: volumes[name].owner != project)
  }

  predicate DistinctNames(tracked: Tracked) {
    forall i, j :: 0 <= i < j < |tracked| ==> tracked[i].0 != tracked[j].0
  }

  predicate NameGone(containers: map<Id, Container>, name: string) {
    forall id <- containers :: containers[id].name != name
  }

  ghost predicate NamesGone(containers: map<Id, Container>, volumes: map<string, Volume>, tracked: Tracked,
                            trackedVolumes: seq<string>) {
    && (forall entry <- tracked :: NameGone(containers, entry.0))
    && (forall name <- trackedVolumes :: name !in volumes)
  }

  // ---------- The daemon ----------

  class Daemon {
    var containers: map<Id, Container>
    var volumes: map<string, Volume>
    var clock: nat
    const faults: nat -> Fault

    constructor (containers: map<Id, Container>, volumes: map<string, Volume>, faults: nat -> Fault)
      ensures this.containers == containers && this.volumes == volumes && this.faults == faults && clock == 0
    {
      this.containers, this.volumes, this.faults := containers, volumes, faults;
      clock := 0;
    }

    /** From now on every call does what it says. */
    ghost predicate Calm()
      reads this
    {
      forall n :: n >= clock ==> faults(n) == Works
    }

    /** From now on a bad exit status of an inspection means that there is nothing to inspect. */
    ghost predicate Truthful()
      reads this
    {
      forall n :: n >= clock ==> faults(n) != Refused
    }

    method Tick() returns (fault: Fault)
      modifies `clock
      ensures clock == old(clock) + 1 && fault == faults(old(clock))
    {
      fault := faults(clock);
      clock := clock + 1;
    }

    method InspectContainer(name: string) returns (answer: Answer<(Id, Container)>)
      requires OneHolder(containers)
      modifies `clock
      ensures clock > old(clock)
      ensures answer.Info? ==> answer.value.0 in containers && containers[answer.value.0] == answer.value.1
      ensures answer.Status? ==> answer.code != 0
      ensures answer.Status? && old(faults(clock)) != Refused ==> NameGone(containers, name)
      ensures old(faults(clock)) == Works ==>
        (answer.Status? && NameGone(containers, name)) || (answer.Info? && answer.value.1.name == name)
    {
      var fault := Tick();
      if fault.Lost? || fault.Late? { return Failed; }
      if fault.Refused? { return Status(1); }
      if id :| id in containers && containers[id].name == name {
        return if fault.Garbled? then Unusable else Info((id, containers[id]));
      }
      if fault.Strays? && fault.other in containers { return Info((fault.other, containers[fault.other])); }
      return Status(1);
    }

    method InspectVolume(name: string) returns (answer: Answer<Volume>)
      modifies `clock
      ensures clock > old(clock)
      ensures answer.Info? ==> name in volumes && volumes[name] == answer.value
      ensures answer.Status? ==> answer.code != 0
      ensures answer.Status? && old(faults(clock)) != Refused ==> name !in volumes
      ensures old(faults(clock)) == Works ==> if name in volumes then answer.Info? else answer.Status?
    {
      var fault := Tick();
      if fault.Lost? || fault.Late? { return Failed; }
      if fault.Refused? { return Status(1); }
      if name in volumes { return if fault.Garbled? then Unusable else Info(volumes[name]); }
      return Status(1);
    }

    method Stop(id: Id) returns (done: Check)
      modifies `clock, `containers
      ensures clock > old(clock)
      ensures containers == old(containers)
        || (id in old(containers) && containers == old(containers)[id := old(containers)[id].(running := false)])
      ensures done.Pass? ==> id in containers && !containers[id].running
      ensures old(faults(clock)) == Works && id in old(containers) ==> done.Pass?
    {
      var fault := Tick();
      if fault.Lost? || fault.Refused? || id !in containers { return Fail; }
      containers := containers[id := containers[id].(running := false)];
      return if fault.Late? then Fail else Pass;
    }

    method Remove(id: Id) returns (done: Check)
      modifies `clock, `containers
      ensures clock > old(clock)
      ensures containers == old(containers) || containers == old(containers) - {id}
      ensures done.Pass? ==> containers == old(containers) - {id}
      ensures old(faults(clock)) == Works && id in old(containers) && !old(containers)[id].running ==> done.Pass?
    {
      var fault := Tick();
      if fault.Lost? || fault.Refused? || id !in containers || containers[id].running { return Fail; }
      containers := containers - {id};
      return if fault.Late? then Fail else Pass;
    }

    method RemoveVolume(name: string) returns (done: Check)
      modifies `clock, `volumes
      ensures clock > old(clock)
      ensures volumes == old(volumes) || volumes == old(volumes) - {name}
      ensures done.Pass? ==> volumes == old(volumes) - {name}
      ensures old(faults(clock)) == Works && name in old(volumes) ==> done.Pass?
    {
      var fault := Tick();
      if fault.Lost? || fault.Refused? || name !in volumes { return Fail; }
      volumes := volumes - {name};
      return if fault.Late? then Fail else Pass;
    }

    /** Are any containers with this owner label listed? */
    method ListContainers(owner: string) returns (some: Result<bool>)
      modifies `clock
      ensures clock > old(clock)
      ensures some.Ok? ==> (some.value <==> exists id :: id in containers && containers[id].owner == owner)
      ensures old(faults(clock)) == Works ==> some.Ok?
    {
      var fault := Tick();
      if fault.Lost? || fault.Late? || fault.Refused? { return Raise; }
      return Ok(exists id :: id in containers && containers[id].owner == owner);
    }

    method ListVolumes(owner: string) returns (some: Result<bool>)
      modifies `clock
      ensures clock > old(clock)
      ensures some.Ok? ==> (some.value <==> exists name :: name in volumes && volumes[name].owner == owner)
      ensures old(faults(clock)) == Works ==> some.Ok?
    {
      var fault := Tick();
      if fault.Lost? || fault.Late? || fault.Refused? { return Raise; }
      return Ok(exists name :: name in volumes && volumes[name].owner == owner);
    }

    /** A new container gets an unused id; a name in use is refused. */
    method Create(id: Id, c: Container) returns (done: Check)
      requires id !in containers && OneHolder(containers)
      modifies `clock, `containers
      ensures clock > old(clock) && OneHolder(containers)
      ensures containers == old(containers) || containers == old(containers)[id := c]
      ensures done.Pass? ==> containers == old(containers)[id := c]
    {
      var fault := Tick();
      var taken := exists other :: other in containers && containers[other].name == c.name;
      if fault.Lost? || fault.Refused? || taken { return Fail; }
      containers := containers[id := c];
      return if fault.Late? then Fail else Pass;
    }

    /** Creating a volume that exists already leaves it as it is. */
    method CreateVolume(name: string, v: Volume) returns (done: Check)
      modifies `clock, `volumes
      ensures clock > old(clock)
      ensures volumes == old(volumes) || (name !in old(volumes) && volumes == old(volumes)[name := v])
      ensures done.Pass? ==> name in volumes
    {
      var fault := Tick();
      if fault.Lost? || fault.Refused? { return Fail; }
      if name !in volumes {
        volumes := volumes[name := v];
      }
      return if fault.Late? then Fail else Pass;
    }
  }

  // ---------- The run ----------

  datatype Note = ForeignContainer | ContainerStuck | VolumeStuck | SecretsLeft | Unverified

  class Run {
    const project: string
    const daemon: Daemon
    var tracked: Tracked
    var trackedVolumes: seq<string>

    constructor (project: string, daemon: Daemon)
      requires OneHolder(daemon.containers)
      requires NothingOwned(daemon.containers, daemon.volumes, project)
      ensures this.project == project && this.daemon == daemon && tracked == [] && trackedVolumes == []
      ensures Valid()
    {
      this.project, this.daemon := project, daemon;
      tracked, trackedVolumes := [], [];
    }

    /** Everything that carries this run's owner label is recorded. */
    ghost predicate Valid()
      reads this, daemon
    {
      OneHolder(daemon.containers) && Covered(daemon.containers, daemon.volumes, project, tracked, trackedVolumes)
    }

    method CreateTrackedContainer(name: string, service: string, id: Id) returns (done: Check)
      requires Valid() && id !in daemon.containers
      modifies this`tracked, daemon`clock, daemon`containers
      ensures Valid() && tracked == old(tracked) + [(name, service)]
      ensures daemon.containers == old(daemon.containers)
        || daemon.containers == old(daemon.containers)[id := Container(name, project, project, service, false)]
      ensures done.Pass? ==> id in daemon.containers
    {
      tracked := tracked + [(name, service)];
      done := daemon.Create(id, Container(name, project, project, service, false));
    }

    method CreateTrackedVolume(name: string) returns (done: Check)
      requires Valid()
      modifies this`trackedVolumes, daemon`clock, daemon`volumes
      ensures Valid() && trackedVolumes == old(trackedVolumes) + [name]
      ensures daemon.volumes == old(daemon.volumes)
        || (name !in old(daemon.volumes)
            && daemon.volumes == old(daemon.volumes)[name := Volume(project, project, name)])
      ensures done.Pass? ==> name in daemon.volumes
    {
      trackedVolumes := trackedVolumes + [name];
      done := daemon.CreateVolume(name, Volume(project, project, name));
    }

    method RemoveContainer(name: string, service: string) returns (note: Option<Note>)
      requires OneHolder(daemon.containers)
      modifies daemon`clock, daemon`containers
      ensures daemon.clock > old(daemon.clock) && OneHolder(daemon.containers)
      ensures OnlyOurs(old(daemon.containers), daemon.containers, project, [(name, service)])
      ensures old(daemon.Calm()) ==> daemon.containers == Cleared(old(daemon.containers), project, [(name, service)])
      ensures old(daemon.Calm()) ==> (note.Some? <==> Impostor(old(daemon.containers), project, [(name, service)]))
    {
      ghost var entry := (name, service);
      var answer := daemon.InspectContainer(name);
      match answer {
        case Failed => return Some(ContainerStuck);
        case Status(_) =>
          return None;
        case Unusable => return Some(ContainerStuck);
        case Info(found) =>
          var (id, c) := found;
          if c.name != name { return Some(ContainerStuck); }
          if c.owner != project || c.project != project || c.service != service {
            assert Holds(old(daemon.containers), project, entry, id);
            return Some(ForeignContainer);
          }
          OnlyOneCleared(daemon.containers, project, entry, id);
          note := StopAndRemove(id);
      }
    }

    method StopAndRemove(id: Id) returns (note: Option<Note>)
      requires id in daemon.containers
      modifies daemon`clock, daemon`containers
      ensures daemon.clock > old(daemon.clock)
      ensures JustOne(old(daemon.containers), daemon.containers, id)
      ensures old(daemon.Calm()) ==> note.None? && daemon.containers == old(daemon.containers) - {id}
    {
      if daemon.containers[id].running {
        var stopped := daemon.Stop(id);
        if stopped.Fail? { return Some(ContainerStuck); }
      }
      var removed := daemon.Remove(id);
      return if removed.Fail? then Some(ContainerStuck) else None;
    }

    method RemoveTrackedVolume(name: string) returns (note: Option<Note>)
      modifies daemon`clock, daemon`volumes
      ensures daemon.clock > old(daemon.clock)
      ensures OnlyOurVolumes(old(daemon.volumes), daemon.volumes, project, [name])
      ensures old(daemon.Calm()) ==> daemon.volumes == ClearedVolumes(old(daemon.volumes), project, [name])
      ensures old(daemon.Calm()) ==> (note.Some? <==> VolumeImpostor(old(daemon.volumes), project, [name]))
    {
      var answer := daemon.InspectVolume(name);
      match answer {
        case Failed => return Some(VolumeStuck);
        case Status(_) => return None;
        case Unusable => return Some(VolumeStuck);
        case Info(v) =>
          if v.owner != project || v.project != project || v.volume != name {
            assert !OurVolume(name, v, project, [name]);
            return Some(VolumeStuck);
          }
          assert OurVolume(name, v, project, [name]);
          var removed := daemon.RemoveVolume(name);
          return if removed.Fail? then Some(VolumeStuck) else None;
      }
    }

    /** Nothing of this run is listed, and no recorded name can be inspected. */
    method VerifyBaseline() returns (verified: bool)
      requires OneHolder(daemon.containers)
      modifies daemon`clock
      ensures daemon.clock > old(daemon.clock)
      ensures verified ==> NothingOwned(daemon.containers, daemon.volumes, project)
      ensures verified && old(daemon.Truthful()) ==>
        NamesGone(daemon.containers, daemon.volumes, tracked, trackedVolumes)
      ensures old(daemon.Calm()) ==>
        (verified <==> NothingOwned(daemon.containers, daemon.volumes, project)
                       && NamesGone(daemon.containers, daemon.volumes, tracked, trackedVolumes))
    {
      var containersLeft := daemon.ListContainers(project);
      if containersLeft.Raise? { return false; }
      var volumesLeft := daemon.ListVolumes(project);
      if volumesLeft.Raise? || containersLeft.value || volumesLeft.value { return false; }
      for i := 0 to |tracked|
        invariant daemon.clock > old(daemon.clock)
        invariant old(daemon.Truthful()) ==> forall j :: 0 <= j < i ==> NameGone(daemon.containers, tracked[j].0)
      {
        var answer := daemon.InspectContainer(tracked[i].0);
        if !answer.Status? {
          return false;
        }
      }
      for i := 0 to |trackedVolumes|
        invariant daemon.clock > old(daemon.clock)
        invariant old(daemon.Truthful()) ==> forall j :: 0 <= j < i ==> trackedVolumes[j] !in daemon.volumes
      {
        var answer := daemon.InspectVolume(trackedVolumes[i]);
        if !answer.Status? { return false; }
      }
      assert old(daemon.Truthful()) ==> NamesGone(daemon.containers, daemon.volumes, tracked, trackedVolumes);
      return true;
    }

    method RemoveContainers() returns (notes: seq<Note>)
      requires OneHolder(daemon.containers)
      modifies daemon`clock, daemon`containers
      ensures daemon.clock >= old(daemon.clock) && OneHolder(daemon.containers)
      ensures OnlyOurs(old(daemon.containers), daemon.containers, project, tracked)
      ensures old(daemon.Calm()) ==> daemon.containers == Cleared(old(daemon.containers), project, tracked)
      ensures old(daemon.Calm()) && DistinctNames(tracked) ==>
        (notes != [] <==> Impostor(old(daemon.containers), project, tracked))
    {
      notes := [];
      ghost var before := daemon.containers;
      ghost var calm, distinct := daemon.Calm(), DistinctNames(tracked);
      var i := |tracked|;
      assert tracked[|tracked|..] == [];
      while i > 0
        invariant 0 <= i <= |tracked|
        invariant daemon.clock >= old(daemon.clock) && OneHolder(daemon.containers)
        invariant OnlyOurs(before, daemon.containers, project, tracked[i..])
        invariant calm ==> daemon.containers == Cleared(before, project, tracked[i..])
        invariant distinct ==> DistinctNames(tracked[i..])
        invariant calm && distinct ==> (notes != [] <==> Impostor(before, project, tracked[i..]))
      {
        i := i - 1;
        ghost var middle, rest, todo := daemon.containers, tracked[i + 1..], tracked[i..];
        var note := RemoveContainer(tracked[i].0, tracked[i].1);
        if note.Some? { notes := notes + [note.value]; }
        assert (tracked[i].0, tracked[i].1) == tracked[i];
        assert todo == [tracked[i]] + rest;
        ContainersMore(before, middle, daemon.containers, project, tracked[i], rest, todo);
      }
      assert tracked[0..] == tracked;
    }

    method RemoveVolumes() returns (notes: seq<Note>)
      modifies daemon`clock, daemon`volumes
      ensures daemon.clock >= old(daemon.clock)
      ensures OnlyOurVolumes(old(daemon.volumes), daemon.volumes, project, trackedVolumes)
      ensures old(daemon.Calm()) ==> daemon.volumes == ClearedVolumes(old(daemon.volumes), project, trackedVolumes)
      ensures old(daemon.Calm()) ==> (notes != [] <==> VolumeImpostor(old(daemon.volumes), project, trackedVolumes))
    {
      notes := [];
      ghost var before := daemon.volumes;
      ghost var calm := daemon.Calm();
      var i := |trackedVolumes|;
      while i > 0
        invariant 0 <= i <= |trackedVolumes|
        invariant daemon.clock >= old(daemon.clock)
        invariant OnlyOurVolumes(before, daemon.volumes, project, trackedVolumes[i..])
        invariant calm ==> daemon.volumes == ClearedVolumes(before, project, trackedVolumes[i..])
        invariant calm ==> (notes != [] <==> VolumeImpostor(before, project, trackedVolumes[i..]))
      {
        i := i - 1;
        ghost var middle, rest := daemon.volumes, trackedVolumes[i + 1..];
        var note := RemoveTrackedVolume(trackedVolumes[i]);
        if note.Some? { notes := notes + [note.value]; }
        assert trackedVolumes[i..] == [trackedVolumes[i]] + rest;
        VolumesMore(before, middle, daemon.volumes, project, trackedVolumes[i], rest);
      }
      assert trackedVolumes[0..] == trackedVolumes;
    }

    /** Removes what was recorded, checks what is left, and reports every doubt. */
    method Cleanup(secretsGone: bool) returns (notes: seq<Note>)
      requires Valid()
      modifies daemon`clock, daemon`containers, daemon`volumes
      ensures OnlyOurs(old(daemon.containers), daemon.containers, project, tracked)
      ensures OnlyOurVolumes(old(daemon.volumes), daemon.volumes, project, trackedVolumes)
      ensures notes == [] ==> NothingOwned(daemon.containers, daemon.volumes, project)
      ensures notes == [] && old(daemon.Truthful()) ==>
        NamesGone(daemon.containers, daemon.volumes, tracked, trackedVolumes)
      ensures old(daemon.Calm()) && DistinctNames(tracked) ==>
        (notes == [] <==> secretsGone && !Impostor(old(daemon.containers), project, tracked)
                          && !VolumeImpostor(old(daemon.volumes), project, trackedVolumes))
    {
      var containerNotes := RemoveContainers();
      var volumeNotes := RemoveVolumes();
      notes := containerNotes + volumeNotes;
      if !secretsGone { notes := notes + [SecretsLeft]; }
      var verified := VerifyBaseline();
      if !verified { notes := notes + [Unverified]; }
      if old(daemon.Calm()) && secretsGone && containerNotes == [] && volumeNotes == [] && DistinctNames(tracked) {
        NothingLeft(old(daemon.containers), old(daemon.volumes), project, tracked, trackedVolumes);
      }
    }
  }

  // ---------- One more recorded name ----------

  lemma {:induction false} OnlyOursMore(a: map<Id, Container>, b: map<Id, Container>, c: map<Id, Container>,
                                        project: string, entry: (string, string), rest: Tracked)
    requires OnlyOurs(a, b, project, rest) && OnlyOurs(b, c, project, [entry])
    ensures OnlyOurs(a, c, project, [entry] + rest)
  {
    forall id | id in a
      ensures !Ours(a[id], project, [entry] + rest) ==> id in c && c[id] == a[id]
      ensures id in c ==> c[id] == a[id] || c[id] == a[id].(running := false)
    {
      OursMore(a[id], project, entry, rest);
      if id in b {
        assert Ours(b[id], project, [entry]) <==> Ours(a[id], project, [entry]);
      }
    }
  }

  lemma {:induction false} OursMore(c: Container, project: string, entry: (string, string), rest: Tracked)
    ensures Ours(c, project, [entry] + rest) <==> Ours(c, project, [entry]) || Ours(c, project, rest)
  {
  }

  lemma {:induction false} OnlyOneCleared(a: map<Id, Container>, project: string, entry: (string, string), id: Id)
    requires OneHolder(a) && id in a && Ours(a[id], project, [entry])
    ensures Cleared(a, project, [entry]) == a - {id} && !Impostor(a, project, [entry])
    ensures forall b :: JustOne(a, b, id) ==> OnlyOurs(a, b, project, [entry]) && OneHolder(b)
  {
  }

  lemma {:induction false} ClearedMore(a: map<Id, Container>, project: string, entry: (string, string), rest: Tracked)
    ensures Cleared(Cleared(a, project, rest), project, [entry]) == Cleared(a, project, [entry] + rest)
  {
    forall id | id in a
      ensures Ours(a[id], project, [entry] + rest) <==> Ours(a[id], project, [entry]) || Ours(a[id], project, rest) {
      OursMore(a[id], project, entry, rest);
    }
  }

  lemma {:induction false} ImpostorMore(a: map<Id, Container>, project: string, entry: (string, string), rest: Tracked)
    requires DistinctNames([entry] + rest)
    ensures Impostor(Cleared(a, project, rest), project, [entry]) <==> Impostor(a, project, [entry])
    ensures Impostor(a, project, [entry] + rest) <==> Impostor(a, project, [entry]) || Impostor(a, project, rest)
  {
    var b := Cleared(a, project, rest);
    if id, e :| e in [entry] && Holds(b, project, e, id) {
      assert Holds(a, project, entry, id);
    }
    if id, e :| e in [entry] && Holds(a, project, e, id) {
      NameNotInRest(a[id], project, entry, rest);
      assert Holds(b, project, entry, id);
    }
  }

  lemma {:induction false} ContainersMore(a: map<Id, Container>, b: map<Id, Container>, c: map<Id, Container>,
                                          project: string, entry: (string, string), rest: Tracked, todo: Tracked)
    requires OnlyOurs(a, b, project, rest) && OnlyOurs(b, c, project, [entry]) && todo == [entry] + rest
    ensures OnlyOurs(a, c, project, todo)
    ensures b == Cleared(a, project, rest) && c == Cleared(b, project, [entry]) ==> c == Cleared(a, project, todo)
    ensures b == Cleared(a, project, rest) && DistinctNames(todo) ==>
      (Impostor(a, project, todo) <==> Impostor(b, project, [entry]) || Impostor(a, project, rest))
  {
    OnlyOursMore(a, b, c, project, entry, rest);
    ClearedMore(a, project, entry, rest);
    if DistinctNames(todo) {
      ImpostorMore(a, project, entry, rest);
    }
  }

  lemma {:induction false} NameNotInRest(c: Container, project: string, entry: (string, string), rest: Tracked)
    requires DistinctNames([entry] + rest) && c.name == entry.0
    ensures !Ours(c, project, rest)
  {
    var all := [entry] + rest;
    forall j | 0 <= j < |rest| ensures rest[j].0 != c.name {
      assert all[0].0 != all[j + 1].0;
    }
  }

  lemma {:induction false} VolumesMore(a: map<string, Volume>, b: map<string, Volume>, c: map<string, Volume>,
                                       project: string, name: string, rest: seq<string>)
    requires OnlyOurVolumes(a, b, project, rest) && OnlyOurVolumes(b, c, project, [name])
    ensures OnlyOurVolumes(a, c, project, [name] + rest)
    ensures ClearedVolumes(ClearedVolumes(a, project, rest), project, [name])
      == ClearedVolumes(a, project, [name] + rest)
  {
  }

  lemma {:induction false} NothingLeft(a: map<Id, Container>, v: map<string, Volume>, project: string,
                                       tracked: Tracked, trackedVolumes: seq<string>)
    requires Covered(a, v, project, tracked, trackedVolumes)
    requires !Impostor(a, project, tracked) && !VolumeImpostor(v, project, trackedVolumes)
    ensures NothingOwned(Cleared(a, project, tracked), ClearedVolumes(v, project, trackedVolumes), project)
    ensures NamesGone(Cleared(a, project, tracked), ClearedVolumes(v, project, trackedVolumes), tracked, trackedVolumes)
  {
    var left := Cleared(a, project, tracked);
    forall entry, id | entry in tracked && id in left ensures left[id].name != entry.0 {
      assert !Holds(a, project, entry, id);
    }
  }
}
