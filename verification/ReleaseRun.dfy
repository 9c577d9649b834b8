/** One release run: preflight, activation, and recovery, statement by statement. */
module ReleaseRun {
  import opened Common
  import opened ReleaseModel
  import opened ReleaseProtocol
  import opened ReleaseRecord
  import opened Release

  /** The only canonical writes a run may make: forward to the candidate or back again, each
      losing something other than what it checked exactly when an edit lands in its gap. */
  predicate Legitimate(w: Write, plan: Plan) {
    && (|| (w.checked == plan.original && w.written == plan.updated)
        || (w.checked == plan.updated && w.written == plan.original))
    && (Clobbers(w) <==> ForeignGap(w))
  }

  ghost predicate Extends(before: seq<Write>, after: seq<Write>, plan: Plan) {
    before <= after && forall i :: |before| <= i < |after| ==> Legitimate(after[i], plan)
  }

  /** The plan edits exactly one reference in the file it read. */
  ghost predicate Planned(plan: Plan, config: Config) {
    && plan.previousTag != "" && plan.previousTag != config.candidateTag
    && Count(plan.original, plan.previousTag) == 1
    && plan.updated == Replace(plan.original, plan.previousTag, config.candidateTag)
    && ServerImage(plan.baseline) == Some(plan.previousTag)
  }

  /** The sources a run may start the server from: the file with the candidate overlay, the
      file with the rollback overlay, or the saved original with the rollback overlay, and
      that last one only when it renders to the baseline with the previous image. */
  predicate LegitimateSwitch(w: Switch, plan: Plan, config: Config) {
    || w.files == Saved([OverlayText(config.candidateTag)])
    || w.files == Saved([OverlayText(plan.previousId)])
    || (w.files == Given([plan.original, OverlayText(plan.previousId)])
        && ServerImage(plan.baseline).Some? && w.model == Some(WithServerImage(plan.baseline, plan.previousId)))
  }

  ghost predicate Switches(before: seq<Switch>, after: seq<Switch>, plan: Plan, config: Config) {
    before <= after && forall i :: |before| <= i < |after| ==> LegitimateSwitch(after[i], plan, config)
  }

  /** The hooks that must pass before anything is switched. */
  const BEFORE_SWITCH := [BackupHook, DependenciesHook, BackupHook, DependenciesHook]

  /** The hooks that must pass after each change of the server or the file. */
  const AFTER_CHANGE := [HealthHook, DependenciesHook]

  class Runner {
    const host: Host
    const config: Config
    var phase: Phase
    var record: Option<Record>

    constructor (host: Host, config: Config)
      ensures this.host == host && this.config == config && phase == Preflight && record == None
    {
      this.host, this.config := host, config;
      phase, record := Preflight, None;
    }

    /** What the candidate changes in the rendered configuration: the server image only. */
    predicate ChangesOnlyImage(plan: Plan) {
      && host.render([plan.original]) == Some(plan.baseline) && ServerImage(plan.baseline).Some?
      && var target := Some(WithServerImage(plan.baseline, config.candidateTag));
         && host.render([plan.original, OverlayText(config.candidateTag)]) == target
         && host.render([plan.updated]) == target
    }

    // ---------- A world in which a release can succeed ----------

    /** The canonical file refers once to an image that is there and is not the candidate. */
    predicate GoodFile(v: View) {
      && v.trail.file.Regular? && host.render([v.trail.file.bytes]).Some?
      && ServerImage(host.render([v.trail.file.bytes]).value).Some?
      && GoodReference(v, v.trail.file.bytes, ServerImage(host.render([v.trail.file.bytes]).value).value)
    }

    predicate GoodReference(v: View, text: string, tag: string) {
      && ImageName(tag) && tag != config.candidateTag && Count(text, tag) == 1
      && v.Resolved(tag).Some? && ImageId(v.Resolved(tag).value)
    }

    /** What a release would do to this file. */
    function PlanIn(v: View): Plan
      requires GoodFile(v)
    {
      var text := v.trail.file.bytes;
      var baseline := host.render([text]).value;
      var tag := ServerImage(baseline).value;
      Plan(text, Replace(text, tag, config.candidateTag), tag, v.Resolved(tag).value, baseline)
    }

    /** The candidate tag is there and right, or loading the archive will put it right. */
    ghost predicate CanLoad(v: View) {
      if config.candidateTag in v.tags then v.tags[config.candidateTag] == config.candidateId
      else forall k :: v.trail.clock <= k ==> LoadsCandidate(host.oracle(k))
    }

    predicate LoadsCandidate(t: Tick) {
      config.candidateTag in t.loaded && t.loaded[config.candidateTag] == config.candidateId
    }

    /** The archive is the one asked for and names the candidate alone, for the right platform. */
    ghost predicate GoodArchive(v: View) {
      && CanLoad(v) && host.archiveSha256 == config.archiveSha256
      && CheckSavedImageTags(host.archive, config.candidateTag)
      && config.candidateId in host.platform && host.platform[config.candidateId] == "linux/amd64"
    }

    /** The server runs the previous image from the file, and the candidate changes its image only. */
    ghost predicate GoodServer(v: View, plan: Plan) {
      && v.trail.file == Regular(plan.original) && ChangesOnlyImage(plan)
      && StartedOn(v.trail.file, v.service, plan.previousId)
      && v.Resolved(plan.previousTag) == Some(plan.previousId)
    }

    ghost predicate GoodStart(v: View) {
      GoodFile(v) && GoodServer(v, PlanIn(v)) && GoodArchive(v)
    }

    /** A container's hash says what its configuration renders to. */
    ghost predicate HashesFollow() {
      forall x, y :: host.render(x) == host.render(y) ==> host.hashOf(x) == host.hashOf(y)
    }

    /** The candidate can be started over the original text. */
    ghost predicate CanActivate(v: View, plan: Plan) {
      && v.trail.file == Regular(plan.original) && ChangesOnlyImage(plan) && HashesFollow()
      && v.Resolved(config.candidateTag) == Some(config.candidateId)
    }

    /** The candidate runs, from a configuration with the hash of the updated text. */
    predicate CanVerify(service: Option<Container>, plan: Plan) {
      && service == Some(Container(config.candidateId, host.hashOf([plan.updated])))
      && ServerImage(plan.baseline).Some?
      && host.render([plan.updated]) == Some(WithServerImage(plan.baseline, config.candidateTag))
    }

    /** These texts render to a configuration with this server image. */
    predicate Selects(texts: seq<string>, image: string) {
      host.render(texts).Some? && ServerImage(host.render(texts).value) == Some(image)
    }

    predicate KnownText(f: File, plan: Plan) {
      Content(f) == Some(plan.original) || Content(f) == Some(plan.updated)
    }

    /** The previous image and its tag are there. */
    predicate HasPrevious(v: View, plan: Plan) {
      v.Resolved(plan.previousId) == Some(plan.previousId) && v.Resolved(plan.previousTag) == Some(plan.previousId)
    }

    /** The previous image can be started: from the file if it holds a known text, else from the
        saved copy. */
    predicate CanReturn(v: View, plan: Plan) {
      && v.trail.file.Regular? && HasPrevious(v, plan)
      && if KnownText(v.trail.file, plan)
          then Selects([v.trail.file.bytes, OverlayText(plan.previousId)], plan.previousId)
         else SavedRenders(plan)
    }

    /** The saved copy renders to the baseline with the previous image. */
    predicate SavedRenders(plan: Plan) {
      && ServerImage(plan.baseline).Some?
      && host.render([plan.original, OverlayText(plan.previousId)])
         == Some(WithServerImage(plan.baseline, plan.previousId))
    }

    /** The previous image can be started from either text. */
    predicate CanReturnFromBoth(v: View, plan: Plan) {
      && HasPrevious(v, plan) && plan.previousId != config.candidateTag && plan.previousTag != config.candidateTag
      && Selects([plan.original, OverlayText(plan.previousId)], plan.previousId)
      && Selects([plan.updated, OverlayText(plan.previousId)], plan.previousId)
    }

    /** Everything a release needs is there, and everything it needs to go back. */
    ghost predicate GoodWorld(v: View) {
      GoodStart(v) && HashesFollow() && CanReturnFromBoth(v, PlanIn(v))
    }

    /** From creating the operation directory to the first record on disk. */
    method Prepare() returns (r: Result<Plan>)
      requires host.records == [] && record == None
      modifies `record, host`trail, host`records, host`saved
      ensures host.OnlyEdits()
      ensures r.Ok? ==> Saves(r.value)
      ensures r.Ok? ==> host.records == [RecordWrite(Record(Prepared, r.value), NoFault)]
      ensures r.Raise? ==>
        if record.None? then host.records == []
        else |host.records| == 1 && host.records[0].entry == record.value && record.value.phase.Prepared?
      ensures r.Ok? ==>
        && Planned(r.value, config) && record == Some(Record(Prepared, r.value))
        && host.Resolved(r.value.previousTag) == Some(r.value.previousId)
      ensures r.Ok? && host.trail.edits == old(host.trail).edits ==>
        host.trail.file == Regular(r.value.original) && host.render([r.value.original]) == Some(r.value.baseline)
      ensures r.Ok? ==> host.Worked()
      ensures host.Quiet() && GoodFile(old(host.Now())) ==> r == Ok(PlanIn(old(host.Now())))
    {
      hide Traced, Undisturbed, Counted, GoodFile, PlanIn, Planned;
      var plan :- ReadPlan();
      var written := WritePrivateFiles(plan);
      if written.Fail? {
        return Raise;
      }
      record := Some(Record(Prepared, plan));
      :- host.WriteRecord(Record(Prepared, plan));
      r := Ok(plan);
    }

    /** The canonical text and what it renders to. */
    method ReadBaseline() returns (r: Result<(string, ComposeModel)>)
      modifies host`trail
      ensures host.OnlyEdits() && (r.Ok? ==> host.Worked())
      ensures r.Ok? && host.trail.edits == old(host.trail).edits ==>
        host.trail.file == Regular(r.value.0) && host.render([r.value.0]) == Some(r.value.1)
      ensures host.Quiet() && old(host.trail).file.Regular? && host.render([old(host.trail).file.bytes]).Some? ==> r.Ok?
    {
      hide Traced, Undisturbed, Counted;
      var made := host.Call();
      :- made;
      :- host.RequireRegular();
      var original :- host.ReadCanonical();
      AloneIs(host.trail.file);
      var baseline :- host.Model(Saved([]));
      AloneIs(host.trail.file);
      r := Ok((original, baseline));
    }

    method ReadPlan() returns (r: Result<Plan>)
      modifies host`trail
      ensures host.OnlyEdits()
      ensures r.Ok? ==> Planned(r.value, config) && host.Resolved(r.value.previousTag) == Some(r.value.previousId)
      ensures r.Ok? && host.trail.edits == old(host.trail).edits ==>
        host.trail.file == Regular(r.value.original) && host.render([r.value.original]) == Some(r.value.baseline)
      ensures r.Ok? ==> host.Worked()
      ensures host.Quiet() && GoodFile(old(host.Now())) ==> r == Ok(PlanIn(old(host.Now())))
    {
      hide Traced, Undisturbed, Counted;
      var read := ReadBaseline();
      var both :- read;
      var original, baseline := both.0, both.1;
      var previousTag :- OrRaise(ServerImage(baseline));
      :- Require(ImageName(previousTag));
      var previousId :- host.InspectImage(previousTag);
      :- Require(ImageId(previousId));
      :- Require(previousTag != config.candidateTag);
      var updated := Replace(original, previousTag, config.candidateTag);
      :- Require(Count(original, previousTag) == 1);
      r := Ok(Plan(original, updated, previousTag, previousId, baseline));
    }

    /** The original text and both overlays are on disk beside the record. */
    predicate Saves(plan: Plan)
      reads host`saved
    {
      && "canonical.before" in host.saved && host.saved["canonical.before"] == plan.original
      && "candidate.yaml" in host.saved && host.saved["candidate.yaml"] == OverlayText(config.candidateTag)
      && "rollback.yaml" in host.saved && host.saved["rollback.yaml"] == OverlayText(plan.previousId)
    }

    /** The backup of the canonical file and the two overlays. */
    method WritePrivateFiles(plan: Plan) returns (r: Check)
      modifies host`trail, host`saved
      ensures host.OnlyEdits() && r == Require(host.Worked()) && (r.Pass? ==> Saves(plan))
    {
      r := host.SaveFile("canonical.before", plan.original);
      if r.Pass? {
        r := host.SaveFile("candidate.yaml", OverlayText(config.candidateTag));
      }
      if r.Pass? {
        r := host.SaveFile("rollback.yaml", OverlayText(plan.previousId));
      }
    }

    /** The server runs this image and was started from the canonical file as it now is. */
    predicate Serves(image: string)
      reads host`trail, host`service
    {
      StartedOn(host.trail.file, host.service, image)
    }

    predicate StartedOn(f: File, service: Option<Container>, image: string) {
      Content(f).Some? && service == Some(Container(image, host.hashOf([Content(f).value])))
    }

    /** The hooks and the checks that the previous image is still what runs. */
    method CheckBaseline(plan: Plan) returns (r: Check)
      modifies `phase, host`trail, host`hooks
      ensures host.OnlyEdits()
      ensures r.Pass? ==> host.hooks == old(host.hooks) + [BackupHook, DependenciesHook]
      ensures r.Pass? ==> Serves(plan.previousId) && host.Worked()
      ensures host.Quiet() && old(Serves(plan.previousId)) ==> r.Pass?
    {
      hide Traced, Undisturbed, Counted;
      phase := BackupCheck;
      r := host.Invoke(BackupHook);
      if r.Fail? { return; }
      phase := DependencyCheck;
      r := host.Invoke(DependenciesHook);
      if r.Fail? { return; }
      r := host.CheckImage(plan.previousId);
      if r.Fail? { return; }
      AloneIs(host.trail.file);
      r := host.CheckServiceConfiguration(Saved([]));
      AloneIs(host.trail.file);
    }

    lemma {:induction false} AloneIs(f: File)
      ensures Content(f).Some? ==> [Content(f).value] + [] == [Content(f).value]
    {
    }

    /** The archive is the expected one, names only the candidate, and is loaded. */
    method CheckArchive(plan: Plan) returns (r: Result<()>)
      requires host.stage == Inside(false) && plan.previousTag != config.candidateTag
      modifies `phase, host`trail, host`tags, host`images, host`stage
      ensures host.OnlyEdits() && host.stage == Inside(false)
      ensures OnlyTag(old(host.tags), host.tags, config.candidateTag)
      ensures r.Ok? ==> host.Resolved(config.candidateTag) == Some(config.candidateId) && host.Worked()
      ensures old(host.images) <= host.images && (host.Quiet() && GoodArchive(old(host.Now())) ==> r.Ok?)
    {
      hide Traced, Undisturbed, Counted, CheckSavedImageTags, CanLoad;
      ghost var start := host.Now();
      phase := ImageCheck;
      :- host.Call();
      :- Require(host.archiveSha256 == config.archiveSha256);
      :- host.Call();
      :- Require(CheckSavedImageTags(host.archive, config.candidateTag));
      CanLoadLater(start, host.Now());
      var loaded := EnsureLoaded();
      :- loaded;
      var candidate :- host.InspectImage(config.candidateTag);
      :- Require(candidate == config.candidateId);
      var platform :- host.Platform(config.candidateTag);
      :- Require(platform == "linux/amd64");
      r := Ok(());
    }

    lemma {:induction false} CanLoadLater(v: View, w: View)
      requires v.trail.clock <= w.trail.clock && w == v.(trail := w.trail)
      ensures CanLoad(v) ==> CanLoad(w)
    {
    }

    /** Load the archive unless the candidate tag is there already, and rightly. */
    method EnsureLoaded() returns (r: Check)
      requires host.stage == Inside(false) && CheckSavedImageTags(host.archive, config.candidateTag)
      modifies host`trail, host`tags, host`images, host`stage
      ensures host.OnlyEdits() && host.stage == Inside(false)
      ensures OnlyTag(old(host.tags), host.tags, config.candidateTag)
      ensures old(host.images) <= host.images && (r.Pass? ==> host.Worked())
      ensures host.Quiet() && CanLoad(old(host.Now())) ==>
        r.Pass? && host.Resolved(config.candidateTag) == Some(config.candidateId)
    {
      hide Traced, Undisturbed, Counted, CheckSavedImageTags;
      ghost var start := host.Now();
      var existing := host.ListImages(config.candidateTag);
      if existing.Raise? {
        return Check.Fail;
      }
      if existing.value != [] {
        return Require(existing.value == [config.candidateId]);
      }
      var loaded := host.oracle(host.trail.clock).loaded;
      LoadKeepsOtherTags(host.tags, host.archive, loaded, config.candidateTag);
      CheckedArchiveNamesOnly(host.archive, config.candidateTag, config.candidateTag);
      assert CanLoad(start) ==> LoadsCandidate(host.oracle(host.trail.clock));
      r := host.LoadArchive();
    }

    method CheckProposed(plan: Plan) returns (r: Result<()>)
      modifies host`trail
      ensures host.OnlyEdits()
      ensures r.Ok? && host.trail.edits == old(host.trail).edits ==>
        var before := host.Rendered(Saved([]));
        && before.Some? && ServerImage(before.value).Some?
        && host.render([plan.updated]) == Some(WithServerImage(before.value, config.candidateTag))
      ensures r.Ok? ==> host.Worked()
      ensures host.Quiet() && old(host.trail).file == Regular(plan.original) && ChangesOnlyImage(plan) ==> r.Ok?
    {
      hide Traced, Undisturbed, Counted, SameExceptServerImage;
      assert [plan.original] + [] == [plan.original];
      var before :- host.Model(Saved([]));
      var after :- host.Model(Given([plan.updated]));
      SameExceptServerImageMeans(before, after, config.candidateTag);
      var same :- SameExceptServerImage(before, after, config.candidateTag);
      :- Require(same);
      r := Ok(());
    }

    /** The overlay, and the updated file itself, change the server image and nothing else. */
    method CheckRendering(plan: Plan) returns (r: Result<()>)
      modifies host`trail
      ensures host.OnlyEdits()
      ensures r.Ok? && host.trail.edits == old(host.trail).edits ==>
        var before := host.Rendered(Saved([]));
        && before.Some? && ServerImage(before.value).Some?
        && var target := Some(WithServerImage(before.value, config.candidateTag));
           host.Rendered(Saved([OverlayText(config.candidateTag)])) == target && host.render([plan.updated]) == target
      ensures r.Ok? && host.trail.edits == old(host.trail).edits && Content(host.trail.file) == Some(plan.original) ==>
        host.render([plan.original]) == Some(plan.baseline) ==> ChangesOnlyImage(plan)
      ensures r.Ok? ==> host.Worked()
      ensures host.Quiet() && old(host.trail).file == Regular(plan.original) && ChangesOnlyImage(plan) ==> r.Ok?
    {
      hide Traced, Undisturbed, Counted, SameExceptServerImage;
      assert [plan.original] + [] == [plan.original];
      assert [plan.original] + [OverlayText(config.candidateTag)] == [plan.original, OverlayText(config.candidateTag)];
      var before :- host.Model(Saved([]));
      var after :- host.Model(Saved([OverlayText(config.candidateTag)]));
      SameExceptServerImageMeans(before, after, config.candidateTag);
      var same :- SameExceptServerImage(before, after, config.candidateTag);
      :- Require(same);
      :- host.SiblingFile();
      var proposed := CheckProposed(plan);
      var removed := host.Call();
      :- Require(proposed.Ok? && removed.Pass?);
      r := Ok(());
    }

    /** The previous image still runs, its tag denotes it, and the file holds what was read. */
    method CheckUnchanged(plan: Plan) returns (r: Result<()>)
      modifies `phase, host`trail, host`hooks
      ensures host.OnlyEdits()
      ensures r.Ok? ==> host.hooks == old(host.hooks) + [BackupHook, DependenciesHook]
      ensures r.Ok? ==>
        && host.service.Some? && host.service.value.image == plan.previousId
        && Content(host.trail.file) == Some(plan.original) && host.Worked()
      ensures r.Ok? && host.trail.edits == old(host.trail).edits ==> Serves(plan.previousId)
      ensures host.Quiet() && GoodServer(old(host.Now()), plan) ==> r.Ok?
    {
      hide Traced, Undisturbed, Counted, ChangesOnlyImage;
      var baseline := CheckBaseline(plan);
      :- baseline;
      var id :- host.InspectImage(plan.previousTag);
      :- Require(id == plan.previousId);
      var current :- host.ReadCanonical();
      :- Require(current == plan.original);
      r := Ok(());
    }

    /** Everything after the first record and before the switch. */
    method CheckCandidate(plan: Plan) returns (r: Result<()>)
      requires host.stage == Inside(false) && plan.previousTag != config.candidateTag
      modifies `phase, host`trail, host`hooks, host`tags, host`images, host`stage
      ensures host.OnlyEdits() && host.stage == Inside(false)
      ensures OnlyTag(old(host.tags), host.tags, config.candidateTag)
      ensures r.Ok? ==> host.hooks == old(host.hooks) + BEFORE_SWITCH
      ensures r.Ok? ==>
        && host.service.Some? && host.service.value.image == plan.previousId
        && host.Resolved(config.candidateTag) == Some(config.candidateId)
        && Content(host.trail.file) == Some(plan.original)
      ensures r.Ok? && host.trail.edits == old(host.trail).edits ==> Serves(plan.previousId)
      ensures r.Ok? && host.trail.edits == old(host.trail).edits ==>
        host.render([plan.original]) == Some(plan.baseline) ==> ChangesOnlyImage(plan)
      ensures r.Ok? ==> host.Worked()
      ensures old(host.images) <= host.images
      ensures host.Quiet() && GoodServer(old(host.Now()), plan) && GoodArchive(old(host.Now())) ==> r.Ok?
    {
      hide Traced, Undisturbed, Counted, CheckSavedImageTags, ChangesOnlyImage, GoodServer, GoodArchive, CanLoad;
      hide StartedOn, OverlayText;
      ghost var start := host.Now();
      GoodServerMeans(start, plan);
      var baseline := CheckBaseline(plan);
      :- baseline;
      GoodArchiveStays(start, host.Now());
      var _ :- CheckArchive(plan);
      var _ :- CheckRendering(plan);
      GoodServerStays(start, host.Now(), plan);
      r := CheckUnchanged(plan);
    }

    lemma {:induction false} GoodServerMeans(v: View, plan: Plan)
      ensures GoodServer(v, plan) ==>
        v.trail.file == Regular(plan.original) && ChangesOnlyImage(plan)
        && StartedOn(v.trail.file, v.service, plan.previousId)
    {
    }

    lemma {:induction false} GoodServerStays(v: View, w: View, plan: Plan)
      requires OnlyTicked(host.oracle, v.trail, w.trail) && v.service == w.service
      requires OnlyTag(v.tags, w.tags, config.candidateTag) && v.images <= w.images
      ensures w.trail.edits == v.trail.edits && plan.previousTag != config.candidateTag && GoodServer(v, plan) ==>
        GoodServer(w, plan)
    {
    }

    lemma {:induction false} GoodArchiveStays(v: View, w: View)
      requires v.trail.clock <= w.trail.clock && w == v.(trail := w.trail)
      ensures GoodArchive(v) ==> GoodArchive(w)
    {
      CanLoadLater(v, w);
    }

    method ReplaceCanonical(plan: Plan, data: string, expected: string) returns (r: Check)
      requires host.stage == Inside(true) && Knows(host.oracle, host.trail, plan)
      requires
        || (data == plan.updated && expected == plan.original)
        || (data == plan.original && expected == plan.updated)
      modifies host`trail, host`stage
      ensures host.stage == Inside(true) && Knows(host.oracle, host.trail, plan)
      ensures Later(host.oracle, old(host.trail), host.trail)
      ensures Extends(old(host.trail).writes, host.trail.writes, plan)
      ensures |host.trail.writes| <= |old(host.trail).writes| + 1
      ensures |host.trail.writes| > |old(host.trail).writes| ==>
        host.trail.writes[|old(host.trail).writes|].written == data && Holds(host.oracle, host.trail, data)
      ensures r.Pass? ==> |host.trail.writes| == |old(host.trail).writes| + 1
      ensures host.trail.edits == old(host.trail).edits ==>
        host.trail.file ==
        if |host.trail.writes| > |old(host.trail).writes| then Regular(data) else old(host.trail).file
      ensures var s := CompareAndReplace(host.oracle, old(host.trail).clock, old(host.trail).file, data, expected);
        r == Require(s.ok) && host.trail == Swapped(old(host.trail), s)
      ensures r.Pass? ==> host.Worked()
      ensures host.Quiet() && old(host.trail).file == Regular(expected) ==> r.Pass?
    {
      ReplaceSucceeds(host.oracle, host.trail.clock, host.trail.file, data, expected);
      ReplaceClobbersOnlyInGap(host.oracle, host.trail.clock, host.trail.file, data, expected);
      ReplaceIsWhole(host.oracle, host.trail.clock, host.trail.file, data, expected);
      r := host.AtomicReplace(data, expected);
    }

    /** What activation did: one switch, forward, and at most one canonical write. Success means
        that the candidate runs and the file was rewritten forward. */
    ghost predicate Forwarded(v: View, w: View, plan: Plan, ok: bool) {
      && Later(host.oracle, v.trail, w.trail) && v.tags == w.tags && v.images == w.images
      && Forward(v.switches, w.switches)
      && Extends(v.trail.writes, w.trail.writes, plan)
      && (ok ==> Rewritten(v.trail, w.trail, plan) && w.service.Some? && w.service.value.image == config.candidateId)
      && (w.trail.edits == v.trail.edits ==>
            && w.switches[|v.switches|].model == RenderedIn(v, OverlayText(config.candidateTag))
            && (w.trail.file == v.trail.file || w.trail.file == Regular(plan.updated))
            && (ok ==> IsUpdated(w, plan)))
    }

    /** One canonical write was made, of the updated text. */
    predicate Rewritten(s: Trail, t: Trail, plan: Plan) {
      |t.writes| == |s.writes| + 1 && t.writes[|s.writes|].written == plan.updated
    }

    /** What the canonical file renders to with this overlay. */
    function RenderedIn(v: View, overlay: string): Option<ComposeModel> {
      var texts := TextsGiven(v.trail.file, Saved([overlay]));
      if texts.None? then None else host.render(texts.value)
    }

    /** Switch, check, rewrite the canonical file, verify, and record completion. */
    method Activate(plan: Plan) returns (r: Result<()>)
      requires host.stage == Inside(false) && Planned(plan, config) && Knows(host.oracle, host.trail, plan)
      requires host.records == [RecordWrite(Record(Prepared, plan), NoFault)]
      modifies `phase, `record, host`trail, host`hooks, host`service, host`switches
      modifies host`stage, host`records
      ensures host.stage == Inside(true) && Knows(host.oracle, host.trail, plan)
      ensures Forwarded(old(host.Now()), host.Now(), plan, r.Ok?)
      ensures old(host.hooks) <= host.hooks
      ensures r.Ok? ==> host.hooks == old(host.hooks) + AFTER_CHANGE + AFTER_CHANGE
      ensures InOrder(host.records, plan)
      ensures if r.Ok? then EndsWell(host.records, RecordComplete) else MayFollow(host.records, Recovering)
      ensures r.Ok? ==> host.Worked()
      ensures host.Quiet() && CanActivate(old(host.Now()), plan) ==> r.Ok?
    {
      hide Knows, Traced, Undisturbed, Counted, Forwarded, Rewrote, Planned;
      ghost var start := host.Now();
      r := SwitchForward(plan);
      ghost var switched := host.Now();
      SwitchedForwards(start, switched, plan);
      KnowsOn(host.oracle, start.trail, switched.trail, plan);
      if r.Ok? {
        r := Rewrite(plan);
        RewroteForwards(start, switched, host.Now(), plan, r.Ok?);
      }
    }

    lemma {:induction false} SwitchedForwards(v: View, w: View, plan: Plan)
      requires OnlyTicked(host.oracle, v.trail, w.trail) && v.tags == w.tags && v.images == w.images
      requires Forward(v.switches, w.switches)
      requires w.trail.edits == v.trail.edits ==>
        w.switches[|v.switches|].model == RenderedIn(v, OverlayText(config.candidateTag))
      ensures Forwarded(v, w, plan, false)
    {
    }

    /** What rewriting and verifying did, the server left as it was. */
    ghost predicate Rewrote(v: View, w: View, plan: Plan, ok: bool) {
      && Later(host.oracle, v.trail, w.trail) && w == v.(trail := w.trail)
      && Extends(v.trail.writes, w.trail.writes, plan)
      && (ok ==> Rewritten(v.trail, w.trail, plan) && w.service.Some? && w.service.value.image == config.candidateId)
      && (w.trail.edits == v.trail.edits ==>
            && (w.trail.file == v.trail.file || w.trail.file == Regular(plan.updated))
            && (ok ==> IsUpdated(w, plan)))
    }

    /** The file holds the updated text and the candidate was started from it. */
    predicate IsUpdated(w: View, plan: Plan) {
      w.trail.file == Regular(plan.updated) && StartedOn(w.trail.file, w.service, config.candidateId)
    }

    lemma {:induction false} RewroteForwards(u: View, v: View, w: View, plan: Plan, ok: bool)
      requires OnlyTicked(host.oracle, u.trail, v.trail) && Forwarded(u, v, plan, false) && Rewrote(v, w, plan, ok)
      ensures Forwarded(u, w, plan, ok)
    {
    }

    /** The canonical file is rewritten and everything verified once more. */
    method Rewrite(plan: Plan) returns (r: Result<()>)
      requires host.stage == Inside(true) && Planned(plan, config) && Knows(host.oracle, host.trail, plan)
      requires host.records == [RecordWrite(Record(Prepared, plan), NoFault)]
      modifies `phase, `record, host`trail, host`hooks, host`stage, host`records
      ensures host.stage == Inside(true) && Knows(host.oracle, host.trail, plan)
      ensures Later(host.oracle, old(host.trail), host.trail)
      ensures Rewrote(old(host.Now()), host.Now(), plan, r.Ok?)
      ensures old(host.hooks) <= host.hooks && (r.Ok? ==> host.hooks == old(host.hooks) + AFTER_CHANGE)
      ensures InOrder(host.records, plan)
      ensures if r.Ok? then EndsWell(host.records, RecordComplete) else MayFollow(host.records, Recovering)
      ensures r.Ok? ==> host.Worked()
      ensures host.Quiet() && old(host.trail).file == Regular(plan.original) && CanVerify(host.service, plan) ==> r.Ok?
    {
      hide Knows, Traced, Undisturbed, Counted, Rewrote, CanVerify, Planned;
      ghost var start := host.Now();
      phase := Canonical;
      var replaced := ReplaceCanonical(plan, plan.updated, plan.original);
      ghost var written := host.Now();
      ReplacedRewrote(start, written, plan);
      :- replaced;
      phase := Verification;
      r := Verify(plan);
      KnowsOn(host.oracle, written.trail, host.trail, plan);
      VerifiedRewrote(start, written, host.Now(), plan, r.Ok?);
    }

    lemma {:induction false} ReplacedRewrote(v: View, w: View, plan: Plan)
      requires Later(host.oracle, v.trail, w.trail) && w == v.(trail := w.trail)
      requires Extends(v.trail.writes, w.trail.writes, plan) && |w.trail.writes| <= |v.trail.writes| + 1
      requires w.trail.edits == v.trail.edits ==>
        w.trail.file == v.trail.file || w.trail.file == Regular(plan.updated)
      ensures Rewrote(v, w, plan, false)
    {
    }

    lemma {:induction false} VerifiedRewrote(u: View, v: View, w: View, plan: Plan, ok: bool)
      requires Rewrote(u, v, plan, false) && Rewritten(u.trail, v.trail, plan)
      requires v.trail.edits == u.trail.edits ==> v.trail.file == Regular(plan.updated)
      requires OnlyTicked(host.oracle, v.trail, w.trail) && w == v.(trail := w.trail)
      requires ok ==> w.service.Some? && w.service.value.image == config.candidateId
      requires ok && w.trail.edits == v.trail.edits ==> StartedOn(w.trail.file, w.service, config.candidateId)
      ensures Rewrote(u, w, plan, ok)
    {
    }

    /** One switch was made, to the canonical file with the candidate overlay. */
    ghost predicate Forward(before: seq<Switch>, after: seq<Switch>) {
      && |after| == |before| + 1 && before <= after
      && after[|before|].files == Saved([OverlayText(config.candidateTag)])
    }

    lemma {:induction false} UpdatedHash(plan: Plan)
      ensures ChangesOnlyImage(plan) && HashesFollow() ==>
        host.hashOf([plan.original, OverlayText(config.candidateTag)]) == host.hashOf([plan.updated])
    {
    }

    lemma {:induction false} ImageIsSet(m: ComposeModel, image: string)
      ensures ServerImage(m).Some? ==> ServerImage(WithServerImage(m, image)) == Some(image)
    {
    }

    /** The hooks that follow a change of the server or the file. */
    method CheckHealthy() returns (r: Check)
      modifies host`trail, host`hooks
      ensures host.OnlyEdits() && r == Require(host.Worked())
      ensures old(host.hooks) <= host.hooks
      ensures r.Pass? ==>
        host.hooks == old(host.hooks) + AFTER_CHANGE && host.trail.clock == old(host.trail).clock + 2
    {
      hide Traced, Undisturbed, Counted;
      r := host.Invoke(HealthHook);
      if r.Pass? {
        r := host.Invoke(DependenciesHook);
      }
    }

    method SwitchForward(ghost plan: Plan) returns (r: Result<()>)
      requires host.stage == Inside(false)
      modifies `phase, host`trail, host`hooks, host`service, host`switches, host`stage
      ensures host.OnlyEdits() && host.stage == Inside(true)
      ensures old(host.hooks) <= host.hooks && (r.Ok? ==> host.hooks == old(host.hooks) + AFTER_CHANGE)
      ensures Forward(old(host.switches), host.switches)
      ensures host.trail.edits == old(host.trail).edits ==>
        host.switches[|old(host.switches)|].model == old(host.Rendered(Saved([OverlayText(config.candidateTag)])))
      ensures r.Ok? ==> host.Worked()
      ensures host.Quiet() && CanActivate(old(host.Now()), plan) ==> r.Ok? && CanVerify(host.service, plan)
    {
      hide Traced, Undisturbed, Counted, HashesFollow;
      assert [plan.original] + [OverlayText(config.candidateTag)] == [plan.original, OverlayText(config.candidateTag)];
      UpdatedHash(plan);
      ImageIsSet(plan.baseline, config.candidateTag);
      var overlay := Saved([OverlayText(config.candidateTag)]);
      :- host.Up(overlay);
      phase := Health;
      :- host.CheckImage(config.candidateId);
      :- host.CheckServiceConfiguration(overlay);
      :- CheckHealthy();
      r := Ok(());
    }

    method Verify(plan: Plan) returns (r: Result<()>)
      requires Planned(plan, config)
      requires host.records == [RecordWrite(Record(Prepared, plan), NoFault)]
      modifies `record, host`trail, host`hooks, host`records
      ensures host.OnlyEdits() && InOrder(host.records, plan)
      ensures old(host.hooks) <= host.hooks && (r.Ok? ==> host.hooks == old(host.hooks) + AFTER_CHANGE)
      ensures if r.Ok? then EndsWell(host.records, RecordComplete)
              else MayFollow(host.records, Recovering)
      ensures r.Ok? ==> host.service.Some? && host.service.value.image == config.candidateId
      ensures r.Ok? && host.trail.edits == old(host.trail).edits ==>
        && Serves(config.candidateId)
        && host.Rendered(Saved([])) == Some(WithServerImage(plan.baseline, config.candidateTag))
      ensures r.Ok? ==> host.Worked()
      ensures host.Quiet() && old(host.trail).file == Regular(plan.updated) && CanVerify(host.service, plan) ==> r.Ok?
    {
      hide Traced, Undisturbed, Counted, Planned, CanVerify;
      var _ :- CheckSaved(plan);
      :- CheckHealthy();
      record := Some(Record(RecordComplete, plan));
      Appended(host.records, plan, RecordWrite(record.value, host.oracle(host.trail.clock).fault));
      :- host.WriteRecord(record.value);
      r := Ok(());
    }

    /** The candidate runs from the saved file, which renders to the baseline but for its image. */
    method CheckSaved(plan: Plan) returns (r: Result<()>)
      modifies host`trail
      ensures host.OnlyEdits()
      ensures r.Ok? ==> host.service.Some? && host.service.value.image == config.candidateId
      ensures r.Ok? && host.trail.edits == old(host.trail).edits ==>
        && Serves(config.candidateId) && ServerImage(plan.baseline).Some?
        && host.Rendered(Saved([])) == Some(WithServerImage(plan.baseline, config.candidateTag))
      ensures r.Ok? ==> host.Worked()
      ensures host.Quiet() && old(host.trail).file == Regular(plan.updated) && CanVerify(host.service, plan) ==> r.Ok?
    {
      hide Traced, Undisturbed, Counted, SameExceptServerImage;
      assert [plan.updated] + [] == [plan.updated];
      var running := CheckRunning();
      :- running;
      var saved :- host.Model(Saved([]));
      SameExceptServerImageMeans(plan.baseline, saved, config.candidateTag);
      var same :- SameExceptServerImage(plan.baseline, saved, config.candidateTag);
      :- Require(same);
      r := Ok(());
    }

    /** The candidate runs, started from the canonical file as it now is. */
    method CheckRunning() returns (r: Check)
      modifies host`trail
      ensures host.OnlyEdits() && (r.Pass? ==> Serves(config.candidateId) && host.Worked())
      ensures host.Quiet() && old(Serves(config.candidateId)) ==> r.Pass?
    {
      hide Traced, Undisturbed, Counted;
      r := host.CheckImage(config.candidateId);
      if r.Pass? {
        AloneIs(host.trail.file);
        r := host.CheckServiceConfiguration(Saved([]));
        AloneIs(host.trail.file);
      }
    }

    /** Bring the previous image back, from the saved copy when the file was changed. */
    method SwitchBack(plan: Plan, changed: bool) returns (r: Result<()>)
      requires host.stage == Inside(true)
      modifies host`trail, host`service, host`switches, host`stage
      ensures host.OnlyEdits() && host.stage == Inside(true)
      ensures Switches(old(host.switches), host.switches, plan, config) && |host.switches| <= |old(host.switches)| + 1
      ensures host.Quiet() && CanReturn(old(host.Now()), plan) && changed == !KnownText(old(host.trail).file, plan) ==>
        r.Ok? && host.service.Some? && host.service.value.image == plan.previousId
    {
      hide Traced, Undisturbed, Counted;
      if changed {
        :- host.SiblingFile();
        var restored := RestoreFromSaved(plan);
        var removed := host.Call();
        :- Require(restored.Ok? && removed.Pass?);
      } else {
        BothTexts(host.trail.file, OverlayText(plan.previousId));
        :- host.Up(Saved([OverlayText(plan.previousId)]));
      }
      r := Ok(());
    }

    lemma {:induction false} BothTexts(f: File, overlay: string)
      ensures Content(f).Some? ==> [Content(f).value] + [overlay] == [Content(f).value, overlay]
    {
    }

    method RestoreFromSaved(plan: Plan) returns (r: Result<()>)
      requires host.stage == Inside(true)
      modifies host`trail, host`service, host`switches, host`stage
      ensures host.OnlyEdits() && host.stage == Inside(true)
      ensures Switches(old(host.switches), host.switches, plan, config) && |host.switches| <= |old(host.switches)| + 1
      ensures host.Quiet() && HasPrevious(old(host.Now()), plan) && SavedRenders(plan) ==>
        r.Ok? && host.service.Some? && host.service.value.image == plan.previousId
    {
      hide Traced, Undisturbed, Counted, SameExceptServerImage;
      ImageIsSet(plan.baseline, plan.previousId);
      var files := Given([plan.original, OverlayText(plan.previousId)]);
      var saved :- host.Model(files);
      SameExceptServerImageMeans(plan.baseline, saved, plan.previousId);
      var same :- SameExceptServerImage(plan.baseline, saved, plan.previousId);
      :- Require(same);
      :- host.Up(files);
      r := Ok(());
    }

    /** What recovery did: at most one switch, from a known source, and canonical writes from the
        plan. Success means that the image that ran before runs again and its tag still denotes
        it, that the updated text was gone before the last three calls, and that the file holds
        the original exactly when the last edit since the last canonical write, if any, leaves it. */
    ghost predicate Reverted(v: View, w: View, plan: Plan, ok: bool) {
      && Later(host.oracle, v.trail, w.trail) && v.tags == w.tags && v.images == w.images
      && Switches(v.switches, w.switches, plan, config) && |w.switches| <= |v.switches| + 1
      && Extends(v.trail.writes, w.trail.writes, plan)
      && (ok ==> BackAsBefore(w, plan))
      && (w.trail.edits == v.trail.edits ==>
            && (w.trail.file == v.trail.file || w.trail.file == Regular(plan.original))
            && (ok && v.trail.file.Regular? ==> w.trail.file == Regular(plan.original)))
    }

    predicate BackAsBefore(w: View, plan: Plan) {
      RunsPrevious(w, plan) && TextIsBack(w.trail, plan)
    }

    predicate RunsPrevious(w: View, plan: Plan) {
      && w.service.Some? && w.service.value.image == plan.previousId
      && w.Resolved(plan.previousTag) == Some(plan.previousId)
    }

    predicate TextIsBack(t: Trail, plan: Plan) {
      && PutBackWasDone(host.oracle, t, plan)
      && (Content(t.file) == Some(plan.original) <==> Leaves(host.oracle, t, plan.original))
    }

    /** What the end of recovery did to the file. */
    ghost predicate Undone(s: Trail, t: Trail, plan: Plan, ok: bool) {
      && Later(host.oracle, s, t) && Extends(s.writes, t.writes, plan)
      && (ok ==> TextIsBack(t, plan))
      && (t.edits == s.edits ==>
            && (t.file == s.file || t.file == Regular(plan.original))
            && (ok ==> t.file == if Content(s.file) == Some(plan.updated) then Regular(plan.original) else s.file))
    }

    lemma {:induction false} NothingUndone(s: Trail, plan: Plan)
      ensures Undone(s, s, plan, false)
    {
    }

    lemma {:induction false} UndoneReverts(u: View, v: View, w: View, plan: Plan, ok: bool)
      requires OnlyTicked(host.oracle, u.trail, v.trail) && u.tags == v.tags && u.images == v.images
      requires Switches(u.switches, v.switches, plan, config) && |v.switches| <= |u.switches| + 1
      requires w == v.(trail := w.trail) && Undone(v.trail, w.trail, plan, ok) && (ok ==> RunsPrevious(v, plan))
      requires ok && v.trail.edits == u.trail.edits ==> KnownText(u.trail.file, plan)
      ensures Reverted(u, w, plan, ok)
    {
    }

    lemma {:induction false} RevertedOn(u: View, v: View, w: View, plan: Plan)
      requires Reverted(u, v, plan, false) && OnlyTicked(host.oracle, v.trail, w.trail) && w == v.(trail := w.trail)
      ensures Reverted(u, w, plan, false)
    {
    }

    /** The recovery path. */
    method Recover(plan: Plan) returns (r: Result<()>)
      requires host.stage == Inside(true) && Knows(host.oracle, host.trail, plan)
      requires InOrder(host.records, plan) && MayFollow(host.records, Recovering)
      modifies `record, host`trail, host`hooks, host`service, host`switches
      modifies host`stage, host`records
      ensures host.stage == Inside(true) && Knows(host.oracle, host.trail, plan)
      ensures Reverted(old(host.Now()), host.Now(), plan, r.Ok?)
      ensures old(host.hooks) <= host.hooks && (r.Ok? ==> host.hooks == old(host.hooks) + AFTER_CHANGE)
      ensures InOrder(host.records, plan)
      ensures if r.Ok? then EndsWell(host.records, RecordRolledBack)
              else MayFollow(host.records, RecordRecoveryIncomplete)
      ensures host.Quiet() && CanReturn(old(host.Now()), plan) ==>
        RunsPrevious(host.Now(), plan) && (r.Ok? <==> KnownText(old(host.trail).file, plan))
    {
      hide Knows, Traced, Undisturbed, Counted, Reverted, Undone, Selects, SavedRenders;
      ghost var start := host.Now();
      r := PrepareBack(plan);
      ghost var back := host.Now();
      KnowsOn(host.oracle, start.trail, back.trail, plan);
      NothingUndone(back.trail, plan);
      if r.Ok? {
        r := PutBackAndFinish(plan);
      }
      UndoneReverts(start, back, host.Now(), plan, r.Ok?);
    }

    /** Recovery until the previous image runs again over a known text. */
    method PrepareBack(plan: Plan) returns (r: Result<()>)
      requires host.stage == Inside(true) && InOrder(host.records, plan) && MayFollow(host.records, Recovering)
      modifies `record, host`trail, host`service, host`switches
      modifies host`stage, host`records
      ensures host.OnlyEdits() && host.stage == Inside(true)
      ensures Switches(old(host.switches), host.switches, plan, config) && |host.switches| <= |old(host.switches)| + 1
      ensures InOrder(host.records, plan) && Ends(host.records, Recovering)
      ensures r.Ok? ==> RunsPrevious(host.Now(), plan)
      ensures r.Ok? && host.trail.edits == old(host.trail).edits ==> KnownText(old(host.trail).file, plan)
      ensures host.Quiet() && CanReturn(old(host.Now()), plan) ==>
        RunsPrevious(host.Now(), plan) && (r.Ok? <==> KnownText(old(host.trail).file, plan))
    {
      hide Traced, Undisturbed, Counted;
      var judged := Judge(plan);
      var changed :- judged;
      var _ :- BringBack(plan, changed);
      :- Require(!changed);
      r := Ok(());
    }

    /** The start of recovery: is the file still one of the two known texts? */
    method Judge(plan: Plan) returns (changed: Result<bool>)
      requires InOrder(host.records, plan) && MayFollow(host.records, Recovering)
      modifies `record, host`trail, host`records
      ensures host.OnlyEdits()
      ensures InOrder(host.records, plan) && Ends(host.records, Recovering)
      ensures changed.Ok? ==> changed.value == !KnownText(host.trail.file, plan)
      ensures host.Quiet() && old(host.trail).file.Regular? ==> changed.Ok?
    {
      hide Traced, Undisturbed, Counted;
      record := Some(Record(Recovering, plan));
      Appended(host.records, plan, RecordWrite(record.value, host.oracle(host.trail.clock).fault));
      var _ := host.WriteRecord(record.value);
      var content :- host.ReadCanonical();
      changed := Ok(content != plan.original && content != plan.updated);
    }

    /** The end of recovery: the original text goes back, and the result is recorded. */
    method PutBackAndFinish(plan: Plan) returns (r: Result<()>)
      requires host.stage == Inside(true) && Knows(host.oracle, host.trail, plan)
      requires InOrder(host.records, plan) && Ends(host.records, Recovering)
      modifies `record, host`trail, host`hooks, host`stage, host`records
      ensures host.stage == Inside(true) && Knows(host.oracle, host.trail, plan)
      ensures Later(host.oracle, old(host.trail), host.trail)
      ensures old(host.hooks) <= host.hooks && (r.Ok? ==> host.hooks == old(host.hooks) + AFTER_CHANGE)
      ensures Undone(old(host.trail), host.trail, plan, r.Ok?)
      ensures InOrder(host.records, plan)
      ensures if r.Ok? then EndsWell(host.records, RecordRolledBack)
              else MayFollow(host.records, RecordRecoveryIncomplete)
      ensures host.Quiet() && old(host.trail).file.Regular? ==> r.Ok?
    {
      hide Knows, Holds, Traced, Undisturbed, Counted, Undone, PutBackDone, AfterPutBack;
      ghost var start := host.trail;
      r := PutBack(plan);
      ghost var done := host.trail;
      PutBackUndone(start, done, plan);
      if r.Ok? {
        r := FinishRecovery(plan);
        FinishedUndone(start, done, host.trail, plan, r.Ok?);
      }
    }

    /** Putting the text back, seen as part of the end of recovery. */
    lemma {:induction false} PutBackUndone(s: Trail, t: Trail, plan: Plan)
      requires Later(host.oracle, s, t) && Extends(s.writes, t.writes, plan)
      requires t == Swapped(s, AfterPutBack(host.oracle, s.clock, s.file, plan))
      ensures Undone(s, t, plan, false)
      ensures t.edits == s.edits && AfterPutBack(host.oracle, s.clock, s.file, plan).ok ==>
        t.file == if Content(s.file) == Some(plan.updated) then Regular(plan.original) else s.file
      ensures Calm(s, t) && s.file.Regular? ==> AfterPutBack(host.oracle, s.clock, s.file, plan).ok
    {
      PutBackUndisturbed(host.oracle, s.clock, s.file, plan);
    }

    lemma {:induction false} FinishedUndone(s: Trail, t: Trail, u: Trail, plan: Plan, ok: bool)
      requires Undone(s, t, plan, false) && OnlyTicked(host.oracle, t, u)
      requires Knows(host.oracle, t, plan) && Holds(host.oracle, t, plan.original) && PutBackDone(t, plan)
      requires t.edits == s.edits ==>
        t.file == if Content(s.file) == Some(plan.updated) then Regular(plan.original) else s.file
      requires ok ==> u.clock == t.clock + 3
      ensures Undone(s, u, plan, ok) && Knows(host.oracle, u, plan)
    {
      KnowsOn(host.oracle, t, u, plan);
      HoldsExactly(host.oracle, u, plan.original);
      if ok {
        PutBackStays(host.oracle, t, u, plan);
      }
    }

    /** The previous image runs again and its tag still denotes it. */
    method BringBack(plan: Plan, changed: bool) returns (r: Result<()>)
      requires host.stage == Inside(true)
      modifies host`trail, host`service, host`switches, host`stage
      ensures host.OnlyEdits() && host.stage == Inside(true)
      ensures Switches(old(host.switches), host.switches, plan, config) && |host.switches| <= |old(host.switches)| + 1
      ensures r.Ok? ==> RunsPrevious(host.Now(), plan)
      ensures host.Quiet() && CanReturn(old(host.Now()), plan) && changed == !KnownText(old(host.trail).file, plan) ==>
        r.Ok?
    {
      hide Traced, Undisturbed, Counted;
      var id :- host.InspectImage(plan.previousId);
      :- Require(id == plan.previousId);
      var _ :- SwitchBack(plan, changed);
      :- host.CheckImage(plan.previousId);
      var tagged :- host.InspectImage(plan.previousTag);
      :- Require(tagged == plan.previousId);
      r := Ok(());
    }

    /** The original text is put back over the updated one. */
    method PutBack(plan: Plan) returns (r: Result<()>)
      requires host.stage == Inside(true) && Knows(host.oracle, host.trail, plan)
      modifies host`trail, host`stage
      ensures host.stage == Inside(true) && Knows(host.oracle, host.trail, plan)
      ensures r.Ok? ==> Holds(host.oracle, host.trail, plan.original) && PutBackDone(host.trail, plan)
      ensures Later(host.oracle, old(host.trail), host.trail)
      ensures Extends(old(host.trail).writes, host.trail.writes, plan)
      ensures var s := AfterPutBack(host.oracle, old(host.trail).clock, old(host.trail).file, plan);
        (r.Ok? <==> s.ok) && host.trail == Swapped(old(host.trail), s)
    {
      hide Holds, Knows, Traced, Counted;
      ghost var before := host.trail;
      var read := host.ReadCanonical();
      KnowsOn(host.oracle, before, host.trail, plan);
      var current :- read;
      if current == plan.updated {
        var replaced := ReplaceCanonical(plan, plan.original, plan.updated);
        :- replaced;
      } else {
        OriginalUnlessEdited(host.oracle, host.trail, plan);
      }
      r := Ok(());
    }

    method FinishRecovery(plan: Plan) returns (r: Result<()>)
      requires InOrder(host.records, plan) && Ends(host.records, Recovering)
      modifies `record, host`trail, host`hooks, host`records
      ensures host.OnlyEdits() && (r.Ok? ==> host.trail.clock == old(host.trail).clock + 3)
      ensures old(host.hooks) <= host.hooks && (r.Ok? ==> host.hooks == old(host.hooks) + AFTER_CHANGE)
      ensures r == if host.Worked() then Ok(()) else Raise
      ensures InOrder(host.records, plan)
      ensures if r.Ok? then EndsWell(host.records, RecordRolledBack)
              else MayFollow(host.records, RecordRecoveryIncomplete)
    {
      hide Traced, Undisturbed, Counted;
      var healthy := CheckHealthy();
      :- healthy;
      record := Some(Record(RecordRolledBack, plan));
      Appended(host.records, plan, RecordWrite(Record(RecordRolledBack, plan), host.oracle(host.trail.clock).fault));
      :- host.WriteRecord(Record(RecordRolledBack, plan));
      r := Ok(());
    }

    /** Take the lock, mark it as owned, and give it up again when that fails. */
    method Acquire() returns (r: Check)
      requires host.stage == Outside
      modifies host`trail, host`lock, host`stage
      ensures host.OnlyEdits()
      ensures r.Pass? ==> !old(host.lock) && host.lock && host.stage == Inside(false)
      ensures r.Fail? ==> host.lock == old(host.lock) && (host.stage == Outside || host.stage == Freed(false))
      ensures r == Require(host.Worked() && !old(host.lock))
    {
      hide Traced, Undisturbed, Counted;
      r := host.TakeLock();
      if r.Fail? {
        return;
      }
      r := host.Call();
      if r.Pass? {
        r := host.Call();
      }
      if r.Fail? {
        host.FreeLock();
      }
    }

    lemma {:induction false} PlannedTag(plan: Plan)
      requires Planned(plan, config)
      ensures plan.previousTag != config.candidateTag
    {
    }

    /** The guarded preflight; its failure is recorded when there is a record to amend. */
    method Preflighted() returns (r: Result<Plan>)
      requires host.stage == Inside(false) && host.records == [] && record == None
      modifies `phase, `record, host`trail, host`records, host`hooks, host`saved
      modifies host`tags, host`images, host`stage
      ensures host.OnlyEdits() && host.stage == Inside(false)
      ensures OnlyTag(old(host.tags), host.tags, config.candidateTag)
      ensures r.Ok? ==> host.records == [RecordWrite(Record(Prepared, r.value), NoFault)]
      ensures r.Raise? ==>
        if record.None? then host.records == []
        else InOrder(host.records, record.value.plan) && Ends(host.records, PreflightFailed)
      ensures r.Ok? ==> host.hooks == old(host.hooks) + BEFORE_SWITCH && Saves(r.value)
      ensures r.Ok? ==>
        && Planned(r.value, config)
        && host.service.Some? && host.service.value.image == r.value.previousId
        && host.Resolved(config.candidateTag) == Some(config.candidateId)
        && Content(host.trail.file) == Some(r.value.original)
      ensures r.Ok? && host.trail.edits == old(host.trail).edits ==>
        host.trail.file == Regular(r.value.original) && Serves(r.value.previousId) && ChangesOnlyImage(r.value)
      ensures r.Ok? ==> host.Worked()
      ensures old(host.images) <= host.images
      ensures host.Quiet() && GoodStart(old(host.Now())) ==> r == Ok(PlanIn(old(host.Now())))
    {
      hide Traced, Undisturbed, Counted, GoodFile, PlanIn, CheckSavedImageTags, GoodServer, GoodArchive;
      hide ChangesOnlyImage, Planned;
      ghost var start := host.Now();
      r := Prepare();
      if r.Ok? {
        PlannedTag(r.value);
        GoodArchiveStays(start, host.Now());
        GoodServerStays(start, host.Now(), r.value);
        var checked := CheckCandidate(r.value);
        if checked.Ok? {
          return;
        }
      }
      RecordFailure();
      r := Raise;
    }

    /** A failed preflight is recorded when there is a record to amend. */
    method RecordFailure()
      requires if record.None? then host.records == []
               else |host.records| == 1 && host.records[0].entry == record.value && record.value.phase.Prepared?
      modifies `record, host`trail, host`records
      ensures host.OnlyEdits()
      ensures if record.None? then host.records == []
              else InOrder(host.records, record.value.plan) && Ends(host.records, PreflightFailed)
    {
      if record.Some? {
        record := Some(record.value.(phase := PreflightFailed));
        var _ := host.WriteRecord(record.value);
      }
    }

    /** Nothing was switched or written. */
    ghost predicate NothingDone(v: View, w: View) {
      && OnlyTicked(host.oracle, v.trail, w.trail) && v.service == w.service && v.switches == w.switches
      && OnlyTag(v.tags, w.tags, config.candidateTag)
    }

    /** Edits are the operator's, tags move only for the candidate, every canonical write goes
        from original to updated or back, and every switch uses one of the known sources. */
    ghost predicate WithinPlan(v: View, w: View, plan: Plan) {
      && v.trail.edits <= w.trail.edits && OnlyTag(v.tags, w.tags, config.candidateTag)
      && Extends(v.trail.writes, w.trail.writes, plan) && Switches(v.switches, w.switches, plan, config)
    }

    /** The plan is of a text the file held during the run, and the run began by switching
        forward; if nobody edited, to a configuration that differs from the baseline in the
        server image only. */
    ghost predicate Activated(v: View, w: View, plan: Plan) {
      && Planned(plan, config)
      && HeldWithin(host.oracle, v.trail, w.trail, plan.original)
      && SwitchedFirst(v.switches, w.switches)
      && (w.trail.edits == v.trail.edits ==>
            && ChangesOnlyImage(plan) && v.trail.file == Regular(plan.original)
            && w.switches[|v.switches|].model == Some(WithServerImage(plan.baseline, config.candidateTag))
            && (w.trail.file == Regular(plan.original) || w.trail.file == Regular(plan.updated)))
    }

    /** The first of one or two switches went forward. */
    ghost predicate SwitchedFirst(before: seq<Switch>, after: seq<Switch>) {
      && |before| < |after| <= |before| + 2
      && after[|before|].files == Saved([OverlayText(config.candidateTag)])
    }

    /** The candidate runs, and the file was rewritten once and forward. It holds the updated
        text exactly when the last edit since, if any, leaves that text. If nobody edited, the
        running configuration is exactly the updated one. */
    ghost predicate CompleteMeans(v: View, w: View, plan: Plan) {
      && w.service.Some? && w.service.value.image == config.candidateId
      && w.Resolved(config.candidateTag) == Some(config.candidateId)
      && |w.switches| == |v.switches| + 1 && Rewritten(v.trail, w.trail, plan)
      && (Content(w.trail.file) == Some(plan.updated) <==> Leaves(host.oracle, w.trail, plan.updated))
      && (w.trail.edits == v.trail.edits ==>
            && w.trail.file == Regular(plan.updated)
            && w.service == Some(Container(config.candidateId, host.hashOf([plan.updated]))))
    }

    /** The image that ran before runs again and its tag still denotes it. Before the last three
        calls the updated text was gone, and the file holds the original exactly when the last
        edit since the last canonical write, if any, leaves it. */
    ghost predicate RolledBackMeans(v: View, w: View, plan: Plan) {
      && v.service.Some? && v.service.value.image == plan.previousId && BackAsBefore(w, plan)
      && (w.trail.edits == v.trail.edits ==> w.trail.file == v.trail.file)
    }

    /** What the outcome of a run means: nothing is done before activation, and after it nothing
        raises. */
    ghost predicate Means(v: View, w: View, o: Outcome, plan: Plan) {
      && WithinPlan(v, w, plan)
      && (if o.Raised? || o.Failed? then NothingDone(v, w) else Activated(v, w, plan))
      && (o.Complete? ==> CompleteMeans(v, w, plan))
      && (o.RolledBack? ==> RolledBackMeans(v, w, plan))
    }

    /** The hooks that must pass before a switch did; all that follow did for a complete run, and
        the last two after a rollback. */
    predicate HooksFit(before: seq<Hook>, after: seq<Hook>, o: Outcome) {
      && before + BEFORE_SWITCH <= after
      && (o.Complete? ==> after == before + BEFORE_SWITCH + AFTER_CHANGE + AFTER_CHANGE)
      && (o.RolledBack? ==> EndsHealthy(before + BEFORE_SWITCH, after))
    }

    /** The last two hooks that passed are those that follow a change. */
    predicate EndsHealthy(before: seq<Hook>, after: seq<Hook>) {
      |before| + 2 <= |after| && before <= after && after[|after| - 2..] == AFTER_CHANGE
    }

    /** The whole transaction, for every schedule of failures and edits. */
    method Transaction() returns (o: Outcome, ghost plan: Plan)
      requires host.stage == Outside && phase == Preflight && record == None && host.records == []
      requires Traced(host.oracle, host.trail) && Counted(host.oracle, host.trail)
      modifies this, host
      ensures host.stage == Ended(o) && Traced(host.oracle, host.trail) && Means(old(host.Now()), host.Now(), o, plan)
      // The hooks that passed, and what was saved before anything was switched.
      ensures o.Raised? || o.Failed? || (HooksFit(old(host.hooks), host.hooks, o) && Saves(plan))
      // In a good world: complete exactly when no call fails, and not stuck when only one does.
      ensures Counted(host.oracle, host.trail) && old(host.trail).clock <= host.trail.clock
      ensures Validated(config) && !old(host.lock) && GoodWorld(old(host.Now())) ==>
        Fares(old(host.trail), host.trail, o)
      // The lock: untouched by a run that raised, else held exactly when recovery is incomplete.
      ensures o.Raised? ==> host.lock == old(host.lock)
      ensures !o.Raised? ==> !old(host.lock) && (host.lock <==> o.RecoveryIncomplete?)
      // The record: written in the order of the phases, and last with the phase of the outcome.
      ensures InOrder(host.records, plan) && RecordFits(o, host.records)
    {
      hide WithinPlan, NothingDone, Activated, CompleteMeans, RolledBackMeans;
      hide Traced, Undisturbed, Counted, GoodWorld, Validated, Means;
      ghost var start := host.Now();
      plan := Plan("", "", "", "", ComposeModel(map[], ""));
      if !Validated(config) {
        host.Finish(Raised);
        MeansNothing(start, host.Now(), plan);
        return Raised, plan;
      }
      var acquired := Acquire();
      if acquired.Fail? {
        host.Finish(Raised);
        MeansNothing(start, host.Now(), plan);
        return Raised, plan;
      }
      ghost var locked := host.Now();
      GoodWorldStays(start, locked);
      o, plan := RunLocked();
      MeansFromStart(start, locked, host.Now(), o, plan);
    }

    /** While nobody edits, taking the lock leaves a good world good. */
    lemma {:induction false} GoodWorldStays(v: View, w: View)
      requires OnlyTicked(host.oracle, v.trail, w.trail) && w == v.(trail := w.trail)
      ensures v.trail.edits == w.trail.edits && GoodWorld(v) ==> GoodWorld(w)
    {
      CanLoadLater(v, w);
    }

    lemma {:induction false} MeansNothing(v: View, w: View, plan: Plan)
      requires OnlyTicked(host.oracle, v.trail, w.trail) && w == v.(trail := w.trail)
      ensures Means(v, w, Raised, plan)
    {
    }

    /** Taking the lock changes nothing that the outcome speaks of. */
    lemma {:induction false} MeansFromStart(u: View, v: View, w: View, o: Outcome, plan: Plan)
      requires OnlyTicked(host.oracle, u.trail, v.trail) && v == u.(trail := v.trail)
      requires Means(v, w, o, plan)
      ensures Means(u, w, o, plan)
    {
      if HeldWithin(host.oracle, v.trail, w.trail, plan.original) {
        HeldEarlier(host.oracle, u.trail, v.trail, w.trail, plan.original);
      }
    }

    /** The locked section. */
    method RunLocked() returns (o: Outcome, ghost plan: Plan)
      requires host.stage == Inside(false) && host.lock && record == None && host.records == []
      requires Traced(host.oracle, host.trail)
      modifies this, host
      ensures host.stage == Ended(o) && !o.Raised? && (host.lock <==> o.RecoveryIncomplete?)
      ensures Traced(host.oracle, host.trail) && Means(old(host.Now()), host.Now(), o, plan)
      ensures InOrder(host.records, plan) && RecordFits(o, host.records)
      ensures o.Failed? || (HooksFit(old(host.hooks), host.hooks, o) && Saves(plan))
      ensures Later(host.oracle, old(host.trail), host.trail)
      ensures GoodWorld(old(host.Now())) ==> Fares(old(host.trail), host.trail, o)
    {
      hide Holds, Traced, Undisturbed, Counted, Means, Planned, GoodStart, PlanIn, CanReturnFromBoth, CanActivate, Ran;
      hide HooksFit, EndsHealthy, ChangesOnlyImage, Saves, StartedOn, OverlayText;
      ghost var start, before := host.Now(), host.hooks;
      var prepared := Preflighted();
      if prepared.Raise? {
        plan := if record.Some? then record.value.plan else Plan("", "", "", "", ComposeModel(map[], ""));
        o := Failed(phase);
        Conclude(o);
        MeansFailed(start, host.Now(), o, plan);
        return;
      }
      plan := prepared.value;
      HoldsWhatIsRead(host.oracle, host.trail, plan.original);
      ghost var ready, between := host.Now(), host.hooks;
      o := ActivateOrRecover(prepared.value);
      RanMeans(start, ready, host.Now(), o, plan);
      ReadyFares(start, ready, host.Now(), o, plan);
      HooksFitted(before, between, host.hooks, o);
    }

    lemma {:induction false} HooksFitted(a: seq<Hook>, b: seq<Hook>, c: seq<Hook>, o: Outcome)
      requires b == a + BEFORE_SWITCH && b <= c
      requires o.Complete? ==> c == b + AFTER_CHANGE + AFTER_CHANGE
      requires o.RolledBack? ==> EndsHealthy(b, c)
      ensures HooksFit(a, c, o)
    {
    }

    lemma {:induction false} MeansFailed(v: View, w: View, o: Outcome, plan: Plan)
      requires NothingDone(v, w) && o.Failed?
      ensures Means(v, w, o, plan)
    {
    }

    /** What was good at the start is good when the preflight is over. */
    lemma {:induction false} ReadyFares(u: View, v: View, w: View, o: Outcome, plan: Plan)
      requires NothingDone(u, v) && u.images <= v.images && v.trail.faults == u.trail.faults
      requires Ready(u, v, plan) && Ran(v, w, o, plan)
      requires Calm(u.trail, v.trail) && GoodStart(u) ==> plan == PlanIn(u)
      requires CanActivate(v, plan) && CanReturnFromBoth(v, plan) ==> Fares(v.trail, w.trail, o)
      ensures Later(host.oracle, u.trail, w.trail) && (GoodWorld(u) ==> Fares(u.trail, w.trail, o))
    {
    }

    /** What the preflight found. */
    ghost predicate Ready(v: View, w: View, plan: Plan) {
      && Planned(plan, config) && w.service.Some? && w.service.value.image == plan.previousId
      && w.Resolved(config.candidateTag) == Some(config.candidateId)
      && Content(w.trail.file) == Some(plan.original)
      && (w.trail.edits == v.trail.edits ==> w.trail.file == Regular(plan.original) && ChangesOnlyImage(plan))
    }

    /** What activation and recovery did, by their outcome. */
    ghost predicate Ran(v: View, w: View, o: Outcome, plan: Plan) {
      && (o.Complete? || o.RolledBack? || o.RecoveryIncomplete?)
      && Later(host.oracle, v.trail, w.trail) && v.tags == w.tags && v.images == w.images
      && Extends(v.trail.writes, w.trail.writes, plan) && Switches(v.switches, w.switches, plan, config)
      && SwitchedFirst(v.switches, w.switches)
      && (o.Complete? ==>
            && w.service.Some? && w.service.value.image == config.candidateId
            && |w.switches| == |v.switches| + 1 && Rewritten(v.trail, w.trail, plan)
            && (Content(w.trail.file) == Some(plan.updated) <==> Leaves(host.oracle, w.trail, plan.updated)))
      && (o.RolledBack? ==> BackAsBefore(w, plan))
      && (w.trail.edits == v.trail.edits ==> RanCalmly(v, w, o, plan))
    }

    /** The same for a run during which nobody edited. */
    ghost predicate RanCalmly(v: View, w: View, o: Outcome, plan: Plan) {
      && |w.switches| > |v.switches|
      && w.switches[|v.switches|].model == RenderedIn(v, OverlayText(config.candidateTag))
      && (o.Complete? ==> IsUpdated(w, plan))
      && (v.trail.file == Regular(plan.original) ==>
            && (w.trail.file == Regular(plan.original) || w.trail.file == Regular(plan.updated))
            && (o.RolledBack? ==> w.trail.file == Regular(plan.original)))
    }

    lemma {:induction false} RanMeans(u: View, v: View, w: View, o: Outcome, plan: Plan)
      requires NothingDone(u, v) && Traced(host.oracle, u.trail) && Ready(u, v, plan) && Ran(v, w, o, plan)
      ensures Means(u, w, o, plan)
    {
      HeldNow(host.oracle, u.trail, v.trail, w.trail, plan.original);
      assert [plan.original] + [OverlayText(config.candidateTag)] == [plan.original, OverlayText(config.candidateTag)];
    }

    /** Activation, and recovery when it fails: from here on nothing raises. */
    method ActivateOrRecover(plan: Plan) returns (o: Outcome)
      requires host.stage == Inside(false) && host.lock && Planned(plan, config)
      requires Knows(host.oracle, host.trail, plan)
      requires host.records == [RecordWrite(Record(Prepared, plan), NoFault)]
      modifies `phase, `record, host`trail, host`hooks, host`service, host`switches
      modifies host`stage, host`records, host`lock
      ensures host.stage == Ended(o) && (host.lock <==> o.RecoveryIncomplete?) && !o.Raised? && !o.Failed?
      ensures Traced(host.oracle, host.trail) && Ran(old(host.Now()), host.Now(), o, plan)
      ensures old(host.hooks) <= host.hooks
      ensures o.Complete? ==> host.hooks == old(host.hooks) + AFTER_CHANGE + AFTER_CHANGE
      ensures o.RolledBack? ==> EndsHealthy(old(host.hooks), host.hooks)
      ensures InOrder(host.records, plan) && RecordFits(o, host.records)
      ensures CanActivate(old(host.Now()), plan) && CanReturnFromBoth(old(host.Now()), plan) ==>
        Fares(old(host.trail), host.trail, o)
    {
      hide Knows, Traced, Undisturbed, Counted, Forwarded, Reverted, Planned, CanActivate, EndsHealthy, Ran;
      ghost var ready, before := host.Now(), host.hooks;
      phase := Activation;
      var activated := Activate(plan);
      ghost var switched, between := host.Now(), host.hooks;
      if activated.Ok? {
        o := Complete;
        Conclude(o);
        ForwardedRan(ready, switched, plan);
        ForwardedLater(ready, switched, plan);
        KnowsTraced(host.oracle, host.trail, plan);
        return;
      }
      o := RecoverOrGiveUp(plan);
      RevertedRan(ready, switched, host.Now(), o, plan);
      RecoveryFares(ready, switched, host.Now(), o, plan);
      if o.RolledBack? {
        HealthyEnd(before, between, host.hooks);
      }
    }

    lemma {:induction false} HealthyEnd(a: seq<Hook>, b: seq<Hook>, c: seq<Hook>)
      requires a <= b && c == b + AFTER_CHANGE
      ensures EndsHealthy(a, c)
    {
    }

    /** If nobody edits: complete exactly when no call fails, and not stuck when only one does. */
    predicate Fares(s: Trail, t: Trail, o: Outcome) {
      t.edits == s.edits ==>
        && (o.Complete? <==> t.faults == s.faults)
        && (t.faults <= s.faults + 1 ==> !o.RecoveryIncomplete?)
    }

    lemma {:induction false} RecoveryFares(u: View, v: View, w: View, o: Outcome, plan: Plan)
      requires o.RolledBack? || o.RecoveryIncomplete?
      requires Forwarded(u, v, plan, false) && Reverted(v, w, plan, o.RolledBack?)
      requires Calm(u.trail, v.trail) && CanActivate(u, plan) ==> false
      requires Calm(v.trail, w.trail) && CanReturn(v, plan) ==> (o.RolledBack? <==> KnownText(v.trail.file, plan))
      ensures CanActivate(u, plan) && CanReturnFromBoth(u, plan) ==> Fares(u.trail, w.trail, o)
    {
    }

    lemma {:induction false} ForwardedLater(v: View, w: View, plan: Plan)
      requires Forwarded(v, w, plan, true)
      ensures Later(host.oracle, v.trail, w.trail)
    {
    }

    lemma {:induction false} ForwardedRan(v: View, w: View, plan: Plan)
      requires Forwarded(v, w, plan, true) && Knows(host.oracle, w.trail, plan)
      ensures Ran(v, w, Complete, plan)
    {
      HoldsExactly(host.oracle, w.trail, plan.updated);
    }

    lemma {:induction false} RevertedRan(u: View, v: View, w: View, o: Outcome, plan: Plan)
      requires o.RolledBack? || o.RecoveryIncomplete?
      requires Forwarded(u, v, plan, false) && Reverted(v, w, plan, o.RolledBack?)
      ensures Ran(u, w, o, plan)
    {
    }

    /** What follows a failed activation. */
    method RecoverOrGiveUp(plan: Plan) returns (o: Outcome)
      requires host.stage == Inside(true) && host.lock && Knows(host.oracle, host.trail, plan)
      requires InOrder(host.records, plan) && MayFollow(host.records, Recovering)
      modifies `record, host`trail, host`hooks, host`service, host`switches
      modifies host`stage, host`records, host`lock
      ensures host.stage == Ended(o) && (o.RolledBack? || o.RecoveryIncomplete?)
      ensures (host.lock <==> o.RecoveryIncomplete?) && Traced(host.oracle, host.trail)
      ensures Reverted(old(host.Now()), host.Now(), plan, o.RolledBack?)
      ensures old(host.hooks) <= host.hooks && (o.RolledBack? ==> host.hooks == old(host.hooks) + AFTER_CHANGE)
      ensures InOrder(host.records, plan) && RecordFits(o, host.records)
      ensures host.Quiet() && CanReturn(old(host.Now()), plan) ==>
        RunsPrevious(host.Now(), plan) && (o.RolledBack? <==> KnownText(old(host.trail).file, plan))
    {
      hide Knows, Traced, Undisturbed, Counted, Reverted, CanReturn;
      ghost var start := host.Now();
      var recovered := Recover(plan);
      ghost var before := host.Now();
      KnowsTraced(host.oracle, host.trail, plan);
      if recovered.Ok? {
        o := RolledBack(phase);
        Conclude(o);
        return;
      }
      o := GiveUp(plan);
      RevertedOn(start, before, host.Now(), plan);
      RevertedLater(start, before, plan);
    }

    lemma {:induction false} RevertedLater(v: View, w: View, plan: Plan)
      requires Reverted(v, w, plan, false)
      ensures Later(host.oracle, v.trail, w.trail)
    {
    }

    /** Recovery failed: say so in the record and keep the lock. */
    method GiveUp(plan: Plan) returns (o: Outcome)
      requires host.stage == Inside(true) && host.lock
      requires InOrder(host.records, plan) && MayFollow(host.records, RecordRecoveryIncomplete)
      modifies `record, host`trail, host`stage, host`records
      ensures host.stage == Ended(o) && o == RecoveryIncomplete(phase) && host.OnlyEdits()
      ensures InOrder(host.records, plan) && RecordFits(o, host.records)
    {
      record := Some(Record(RecordRecoveryIncomplete, plan));
      Appended(host.records, plan, RecordWrite(record.value, host.oracle(host.trail.clock).fault));
      var _ := host.WriteRecord(record.value);
      o := RecoveryIncomplete(phase);
      host.Finish(o);
    }

    /** The `finally` block of a run that may unlock, and its result. */
    method Conclude(o: Outcome)
      requires host.stage.Inside?
      requires host.stage.dirty <==> o.Complete? || o.RolledBack?
      requires !o.Raised? && !o.RecoveryIncomplete?
      modifies host`lock, host`stage
      ensures !host.lock && host.stage == Ended(o)
    {
      host.FreeLock();
      host.Finish(o);
    }
  }
}
