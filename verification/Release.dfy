/** The release transaction itself: it switches the running server, rewrites the canonical
    file by compare-and-replace, verifies, and recovers when anything fails. Every external
    call consults an oracle that may fail it and may let an operator edit the file first. */
module Release {
  import opened Common
  import opened ReleaseModel
  import opened ReleaseProtocol
  import opened ReleaseRecord

  /** What the environment does at one external call: an operator's edit of the canonical file
      just before it, the fate of the call, whatever container an interrupted switch leaves
      behind, and where loading an archive puts the tags it names. */
  datatype Tick = Tick(edit: Option<File>, fault: Fault, leftover: Option<Container>, loaded: map<string, string>)

  datatype Container = Container(image: string, configHash: string)

  /** One rename over the canonical file: the content seen by the re-check, an edit that
      landed between re-check and rename, what was overwritten, what was written, and the call
      that was. */
  datatype Write = Write(checked: string, gap: Option<File>, before: File, written: string, at: nat)

  /** The write destroyed content other than what was checked. */
  predicate Clobbers(w: Write) {
    Content(w.before) != Some(w.checked)
  }

  predicate ForeignGap(w: Write) {
    w.gap.Some? && Content(w.gap.value) != Some(w.checked)
  }

  // ---------- Compare and replace ----------

  datatype Swap = Swap(ok: bool, file: File, write: Option<Write>, clock: nat, edits: nat, faults: nat)

  function Edited(t: Tick, f: File): File {
    if t.edit.Some? then t.edit.value else f
  }

  function EditCount(t: Tick): nat {
    if t.edit.Some? then 1 else 0
  }

  function FaultCount(t: Tick): nat {
    if t.fault.NoFault? then 0 else 1
  }

  /** The file as edits leave it over `k` ticks from `n`. */
  function EditedOver(o: nat -> Tick, n: nat, k: nat, f: File): File {
    if k == 0 then f else Edited(o(n + k - 1), EditedOver(o, n, k - 1, f))
  }

  function EditsOver(o: nat -> Tick, n: nat, k: nat): nat {
    if k == 0 then 0 else EditsOver(o, n, k - 1) + EditCount(o(n + k - 1))
  }

  function FaultsOver(o: nat -> Tick, n: nat, k: nat): nat {
    if k == 0 then 0 else FaultsOver(o, n, k - 1) + FaultCount(o(n + k - 1))
  }

  /** `atomic_replace`, call by call: hash, stat, temporary file, hash again, rename, sync. */
  function CompareAndReplace(o: nat -> Tick, n: nat, f: File, data: string, expected: string): Swap {
    var k := StopsAt(o, n, f, expected);
    if k > 0 then Stopped(o, n, k, f) else PutInPlace(o, n, f, data, expected)
  }

  /** The call before the rename that ends the attempt, or zero. */
  function StopsAt(o: nat -> Tick, n: nat, f: File, expected: string): (k: nat)
    ensures k <= 4
  {
    var k := StopsEarly(o, n, f, expected);
    if k > 0 then k
    else if o(n + 2).fault != NoFault then 3
    else if o(n + 3).fault != NoFault || Content(EditedOver(o, n, 4, f)) != Some(expected) then 4
    else 0
  }

  function StopsEarly(o: nat -> Tick, n: nat, f: File, expected: string): (k: nat)
    ensures k <= 2
  {
    if o(n).fault != NoFault || Content(EditedOver(o, n, 1, f)) != Some(expected) then 1
    else if o(n + 1).fault != NoFault || !EditedOver(o, n, 2, f).Regular? then 2
    else 0
  }

  function PutInPlace(o: nat -> Tick, n: nat, f: File, data: string, expected: string): Swap {
    if o(n + 4).fault == Before then Stopped(o, n, 5, f)
    else
      var write := Some(Write(expected, o(n + 4).edit, EditedOver(o, n, 5, f), data, n + 4));
      if o(n + 4).fault == Late then Swap(false, Regular(data), write, n + 5, EditsOver(o, n, 5), FaultsOver(o, n, 5))
      else
        Swap(o(n + 5).fault == NoFault, Edited(o(n + 5), Regular(data)), write, n + 6, EditsOver(o, n, 6),
             FaultsOver(o, n, 6))
  }

  function Stopped(o: nat -> Tick, n: nat, k: nat, f: File): Swap {
    Swap(false, EditedOver(o, n, k, f), None, n + k, EditsOver(o, n, k), FaultsOver(o, n, k))
  }

  /** A write happens only over content that was just checked, writes exactly the new data, and
      destroys anything else exactly when a foreign edit lands between re-check and rename. */
  lemma {:induction false} ReplaceClobbersOnlyInGap(o: nat -> Tick, n: nat, f: File, data: string, expected: string)
    ensures var s := CompareAndReplace(o, n, f, data, expected);
      s.write.Some? ==>
        var w := s.write.value;
        w.checked == expected && w.written == data && (Clobbers(w) <==> ForeignGap(w)) && n <= w.at < s.clock
  {
    assert EditedOver(o, n, 5, f) == Edited(o(n + 4), EditedOver(o, n, 4, f));
  }

  /** Whatever fails, the file holds the old content in full, the new content in full, or an
      operator's edit; and success means the new content was put in place. */
  lemma {:induction false} ReplaceIsWhole(o: nat -> Tick, n: nat, f: File, data: string, expected: string)
    ensures var s := CompareAndReplace(o, n, f, data, expected);
      && n < s.clock <= n + 6
      && (s.ok ==> s.write.Some?)
      && (s.file == f || s.file == Regular(data) || exists k :: n <= k < s.clock && o(k).edit == Some(s.file))
      && (s.edits == 0 ==> s.file == if s.write.Some? then Regular(data) else f)
  {
    var k := StopsAt(o, n, f, expected);
    if k > 0 || o(n + 4).fault == Before {
      EditedFrom(o, n, if k > 0 then k else 5, f);
    } else {
      var s := PutInPlace(o, n, f, data, expected);
      assert s.file == Regular(data) || o(n + 5).edit == Some(s.file);
    }
  }

  /** It succeeds only when no call fails, and then always, unless somebody edits or the file does
      not hold what is expected. */
  lemma {:induction false} ReplaceSucceeds(o: nat -> Tick, n: nat, f: File, data: string, expected: string)
    ensures var s := CompareAndReplace(o, n, f, data, expected);
      && (s.ok ==> s.faults == 0)
      && (s.faults == 0 && s.edits == 0 && f == Regular(expected) ==> s.ok)
  {
    var s := CompareAndReplace(o, n, f, data, expected);
    var k := s.clock - n;
    FaultsAre(o, n, k);
    if s.faults == 0 && s.edits == 0 && f == Regular(expected) {
      forall j: nat | j <= k ensures EditedOver(o, n, j, f) == f {
        EditsGrow(o, n, j, k);
        EditedFrom(o, n, j, f);
      }
      assert EditedOver(o, n, 1, f) == f;
    }
  }

  lemma {:induction false} EditsGrow(o: nat -> Tick, n: nat, j: nat, k: nat)
    requires j <= k
    ensures EditsOver(o, n, j) <= EditsOver(o, n, k)
  {
    if j < k {
      EditsGrow(o, n, j, k - 1);
    }
  }

  lemma {:induction false} FaultsAre(o: nat -> Tick, n: nat, k: nat)
    ensures FaultsOver(o, n, k) == 0 <==> forall j :: n <= j < n + k ==> o(j).fault.NoFault?
  {
    if k > 0 {
      FaultsAre(o, n, k - 1);
    }
  }

  lemma {:induction false} EditedFrom(o: nat -> Tick, n: nat, k: nat, f: File)
    ensures var g := EditedOver(o, n, k, f); g == f || exists j :: n <= j < n + k && o(j).edit == Some(g)
    ensures EditsOver(o, n, k) == 0 ==> EditedOver(o, n, k, f) == f
  {
    if k > 0 {
      EditedFrom(o, n, k - 1, f);
    }
  }

  /** The gap is real: an edit landing in it is lost although the re-check passed. */
  lemma {:induction false} GapLosesAnEdit()
    ensures var o := (k: nat) => Tick(if k == 4 then Some(Regular("foreign")) else None, NoFault, None, map[]);
      CompareAndReplace(o, 0, Regular("old"), "new", "old")
      == Swap(true, Regular("new"), Some(Write("old", Some(Regular("foreign")), Regular("foreign"), "new", 4)), 6, 1, 0)
  {
    var o := (k: nat) => Tick(if k == 4 then Some(Regular("foreign")) else None, NoFault, None, map[]);
    assert EditedOver(o, 0, 1, Regular("old")) == Regular("old");
    assert EditedOver(o, 0, 2, Regular("old")) == Regular("old");
    assert EditedOver(o, 0, 3, Regular("old")) == Regular("old");
    assert EditedOver(o, 0, 4, Regular("old")) == Regular("old");
    assert EditedOver(o, 0, 5, Regular("old")) == Regular("foreign");
    assert EditsOver(o, 0, 3) == 0;
    assert EditsOver(o, 0, 4) == 0;
    assert EditsOver(o, 0, 5) == 1;
    assert EditsOver(o, 0, 6) == 1;
    assert FaultsOver(o, 0, 3) == 0;
    assert FaultsOver(o, 0, 6) == 0;
  }

  // ---------- What the file holds ----------

  /** The canonical file and how it came to be: what it held at first, the canonical writes so
      far, the calls made, the operator's edits, the calls that failed, and what it holds. */
  datatype Trail = Trail(initial: File, writes: seq<Write>, clock: nat, edits: nat, faults: nat, file: File) {
    /** The first call after the last canonical write. */
    function Since(): nat {
      if writes == [] then 0 else writes[|writes| - 1].at + 1
    }

    /** What the last canonical write left, or what the file held at first. */
    function Base(): File {
      if writes == [] then initial else Regular(writes[|writes| - 1].written)
    }
  }

  function Ticked(t: Tick, s: Trail): Trail {
    s.(clock := s.clock + 1, edits := s.edits + EditCount(t), faults := s.faults + FaultCount(t),
       file := Edited(t, s.file))
  }

  function Written(s: Trail, w: Write): Trail {
    s.(writes := s.writes + [w], file := Regular(w.written))
  }

  /** The trail after an attempt to replace the file. */
  function Swapped(t: Trail, s: Swap): Trail {
    Trail(t.initial, t.writes + (if s.write.Some? then [s.write.value] else []), s.clock, t.edits + s.edits,
          t.faults + s.faults, s.file)
  }

  /** The file is what the last canonical write left, or the operator's last edit since. */
  predicate Traced(o: nat -> Tick, s: Trail) {
    s.Since() <= s.clock && s.file == EditedOver(o, s.Since(), s.clock - s.Since(), s.Base())
  }

  /** Nobody has edited the file since the last canonical write. */
  predicate Undisturbed(o: nat -> Tick, s: Trail) {
    s.Since() <= s.clock && LastEdit(o, s.Since(), s.clock - s.Since()).None?
  }

  /** Since the last canonical write nobody edited, or the last edit leaves this text. */
  predicate Leaves(o: nat -> Tick, s: Trail, text: string) {
    s.Since() <= s.clock && LeavesText(o, s.Since(), s.clock - s.Since(), text)
  }

  /** Unless someone has edited the file since the last canonical write, it holds this text. */
  predicate Holds(o: nat -> Tick, s: Trail, text: string) {
    Traced(o, s) && (Undisturbed(o, s) ==> Content(s.Base()) == Some(text))
  }

  /** Unless someone has edited the file since the last canonical write, it holds one of the
      two texts of the plan. */
  predicate Knows(o: nat -> Tick, s: Trail, plan: Plan) {
    Holds(o, s, plan.original) || Holds(o, s, plan.updated)
  }

  /** The edits and failures counted are those of all calls made. */
  predicate Counted(o: nat -> Tick, s: Trail) {
    s.edits == EditsOver(o, 0, s.clock) && s.faults == FaultsOver(o, 0, s.clock)
  }

  /** From one trail to a later one. */
  predicate Later(o: nat -> Tick, s: Trail, t: Trail) {
    s.edits <= t.edits && s.faults <= t.faults && s.clock <= t.clock && (Counted(o, s) ==> Counted(o, t))
  }

  /** Between the two, no call failed and nobody edited the file. */
  predicate Calm(s: Trail, t: Trail) {
    t.edits == s.edits && t.faults == s.faults
  }

  /** From one trail to a later one without a canonical write. */
  predicate OnlyTicked(o: nat -> Tick, s: Trail, t: Trail) {
    && Later(o, s, t) && (t.edits == s.edits ==> t.file == s.file)
    && s.initial == t.initial && s.writes == t.writes
    && (Traced(o, s) ==> Traced(o, t) && (Undisturbed(o, t) ==> Undisturbed(o, s)))
  }

  /** A write begins the history anew and leaves the counts. */
  lemma {:induction false} OneWrite(o: nat -> Tick, s: Trail, w: Write)
    requires w.at + 1 == s.clock
    ensures Traced(o, Written(s, w)) && Later(o, s, Written(s, w))
  {
  }

  lemma {:induction false} OverStep(o: nat -> Tick, n: nat, k: nat)
    ensures EditsOver(o, n, k + 1) == EditsOver(o, n, k) + EditCount(o(n + k))
    ensures FaultsOver(o, n, k + 1) == FaultsOver(o, n, k) + FaultCount(o(n + k))
  {
  }

  lemma {:induction false} FaultsSplit(o: nat -> Tick, n: nat, k: nat)
    ensures FaultsOver(o, 0, n + k) == FaultsOver(o, 0, n) + FaultsOver(o, n, k)
    ensures EditsOver(o, 0, n + k) == EditsOver(o, 0, n) + EditsOver(o, n, k)
  {
    if k > 0 {
      FaultsSplit(o, n, k - 1);
    }
  }

  lemma {:induction false} FaultsAtMostOne(o: nat -> Tick, n: nat, k: nat)
    ensures FaultsOver(o, n, k) <= 1 <==>
      forall i, j :: n <= i < j < n + k ==> o(i).fault.NoFault? || o(j).fault.NoFault?
  {
    if k > 0 {
      FaultsAtMostOne(o, n, k - 1);
      FaultsAre(o, n, k - 1);
    }
  }

  lemma {:induction false} EditsAre(o: nat -> Tick, n: nat, k: nat)
    ensures EditsOver(o, n, k) == 0 <==> forall j :: n <= j < n + k ==> o(j).edit.None?
  {
    if k > 0 {
      EditsAre(o, n, k - 1);
    }
  }

  /** What the counts of two trails say of the calls made between them. */
  lemma {:induction false} CountsMean(o: nat -> Tick, s: Trail, t: Trail)
    requires Counted(o, s) && Counted(o, t) && s.clock <= t.clock
    ensures s.faults == t.faults <==> forall j :: s.clock <= j < t.clock ==> o(j).fault.NoFault?
    ensures t.faults <= s.faults + 1
      <==> forall i, j :: s.clock <= i < j < t.clock ==> o(i).fault.NoFault? || o(j).fault.NoFault?
    ensures s.edits == t.edits <==> forall j :: s.clock <= j < t.clock ==> o(j).edit.None?
  {
    var n, k := s.clock, t.clock - s.clock;
    FaultsSplit(o, n, k);
    FaultsAre(o, n, k);
    FaultsAtMostOne(o, n, k);
    EditsAre(o, n, k);
  }

  lemma {:induction false} OneTick(o: nat -> Tick, s: Trail)
    ensures OnlyTicked(o, s, Ticked(o(s.clock), s))
  {
  }

  /** What the file holds, exactly, when it holds a text unless someone edits. */
  lemma {:induction false} HoldsExactly(o: nat -> Tick, s: Trail, text: string)
    requires Holds(o, s, text)
    ensures Content(s.file) == Some(text) <==> Leaves(o, s, text)
  {
    LastEditStands(o, s.Since(), s.clock - s.Since(), s.Base());
  }

  /** A text just read is what the file holds unless someone edits. */
  lemma {:induction false} HoldsWhatIsRead(o: nat -> Tick, s: Trail, text: string)
    requires Traced(o, s) && Content(s.file) == Some(text)
    ensures Holds(o, s, text)
  {
    LastEditStands(o, s.Since(), s.clock - s.Since(), s.Base());
  }

  /** After the calls before `n`, and after its last canonical write, the file held this text. */
  predicate HeldAt(o: nat -> Tick, s: Trail, n: nat, text: string) {
    s.Since() <= n && Content(EditedOver(o, s.Since(), n - s.Since(), s.Base())) == Some(text)
  }

  /** Between these two trails the file held this text. */
  ghost predicate HeldWithin(o: nat -> Tick, s: Trail, t: Trail, text: string) {
    exists n: nat :: s.clock <= n <= t.clock && HeldAt(o, s, n, text)
  }

  /** What is read now is held between any two trails before and after. */
  lemma {:induction false} HeldNow(o: nat -> Tick, s: Trail, t: Trail, u: Trail, text: string)
    requires OnlyTicked(o, s, t) && t.clock <= u.clock && Traced(o, s) && Content(t.file) == Some(text)
    ensures HeldWithin(o, s, u, text)
  {
    assert HeldAt(o, s, t.clock, text);
  }

  lemma {:induction false} HeldEarlier(o: nat -> Tick, s: Trail, t: Trail, u: Trail, text: string)
    requires OnlyTicked(o, s, t) && HeldWithin(o, t, u, text)
    ensures HeldWithin(o, s, u, text)
  {
    var n: nat :| t.clock <= n <= u.clock && HeldAt(o, t, n, text);
    assert HeldAt(o, s, n, text);
  }

  /** What holds unless someone edits goes on holding. */
  lemma {:induction false} KnowsOn(o: nat -> Tick, s: Trail, t: Trail, plan: Plan)
    requires OnlyTicked(o, s, t) && Knows(o, s, plan)
    ensures Knows(o, t, plan)
  {
  }

  lemma {:induction false} KnowsTraced(o: nat -> Tick, s: Trail, plan: Plan)
    requires Knows(o, s, plan)
    ensures Traced(o, s)
  {
  }

  lemma {:induction false} OriginalUnlessEdited(o: nat -> Tick, s: Trail, plan: Plan)
    requires Knows(o, s, plan) && Content(s.file) != Some(plan.updated)
    ensures Holds(o, s, plan.original)
  {
    LastEditStands(o, s.Since(), s.clock - s.Since(), s.Base());
  }

  // ---------- Putting the original back ----------

  function OrRaise<T>(o: Option<T>): Result<T> {
    if o.Some? then Ok(o.value) else Raise
  }

  /** The end of recovery: read the file again and undo the update if it is there. */
  function AfterPutBack(o: nat -> Tick, n: nat, f: File, plan: Plan): Swap {
    var f1 := Edited(o(n), f);
    if o(n).fault != NoFault || Content(f1) == None then
      Swap(false, f1, None, n + 1, EditCount(o(n)), FaultCount(o(n)))
    else if Content(f1) != Some(plan.updated) then
      Swap(true, f1, None, n + 1, EditCount(o(n)), FaultCount(o(n)))
    else
      var s := CompareAndReplace(o, n + 1, f1, plan.original, plan.updated);
      s.(edits := s.edits + EditCount(o(n)), faults := s.faults + FaultCount(o(n)))
  }

  /** The last edit over `k` ticks from `n`. */
  function LastEdit(o: nat -> Tick, n: nat, k: nat): Option<File> {
    if k == 0 then None else if o(n + k - 1).edit.Some? then o(n + k - 1).edit else LastEdit(o, n, k - 1)
  }

  lemma {:induction false} LastEditStands(o: nat -> Tick, n: nat, k: nat, f: File)
    ensures EditedOver(o, n, k, f) == if LastEdit(o, n, k).Some? then LastEdit(o, n, k).value else f
  {
    if k > 0 {
      LastEditStands(o, n, k - 1, f);
    }
  }

  /** Over these ticks nobody edits, or the last edit leaves this very text. */
  predicate LeavesText(o: nat -> Tick, n: nat, k: nat, text: string) {
    LastEdit(o, n, k).Some? ==> Content(LastEdit(o, n, k).value) == Some(text)
  }

  /** When it succeeds, the original is back exactly when the file, as read again, held it, or
      held the updated text and no edit after the rename put something else there. */
  lemma {:induction false} PutBackRestoresExactly(o: nat -> Tick, n: nat, f: File, plan: Plan)
    requires AfterPutBack(o, n, f, plan).ok
    ensures var seen := Content(Edited(o(n), f));
      Content(AfterPutBack(o, n, f, plan).file) == Some(plan.original)
      <==> if seen == Some(plan.updated) then LeavesText(o, n + 6, 1, plan.original) else seen == Some(plan.original)
  {
    LastEditStands(o, n + 6, 1, Regular(plan.original));
  }

  /** The updated text is not in the file, or it came by an edit just after the original was put
      in its place. */
  predicate PutBackDone(s: Trail, plan: Plan) {
    Content(s.file) == Some(plan.updated) ==> LastWrite(s, plan.original, 2)
  }

  /** The last canonical write wrote this text, `k` calls from the end. */
  predicate LastWrite(s: Trail, text: string, k: nat) {
    s.writes != [] && s.writes[|s.writes| - 1].written == text && s.writes[|s.writes| - 1].at + k == s.clock
  }

  /** The same three calls before the end. */
  predicate PutBackWasDone(o: nat -> Tick, s: Trail, plan: Plan) {
    && 3 <= s.clock && s.Since() <= s.clock - 3
    && (HeldAt(o, s, s.clock - 3, plan.updated) ==> LastWrite(s, plan.original, 5))
  }

  lemma {:induction false} PutBackStays(o: nat -> Tick, s: Trail, t: Trail, plan: Plan)
    requires PutBackDone(s, plan) && Traced(o, s) && OnlyTicked(o, s, t) && t.clock == s.clock + 3
    ensures PutBackWasDone(o, t, plan)
  {
  }

  /** Does a successful put-back that starts at `n`, with the three calls that end recovery,
      leave the original text? What was edited before the rename does not matter, and what was
      edited after it, last, decides. */
  predicate Restored(o: nat -> Tick, n: nat, f: File, plan: Plan) {
    var seen := Content(Edited(o(n), f));
    if seen == Some(plan.updated) then LeavesText(o, n + 6, 4, plan.original)
    else LeavesText(o, n + 1, 3, plan.original) && (LastEdit(o, n + 1, 3).None? ==> seen == Some(plan.original))
  }

  lemma {:induction false} RollbackRestoresExactly(o: nat -> Tick, n: nat, f: File, plan: Plan)
    requires AfterPutBack(o, n, f, plan).ok
    ensures var s := AfterPutBack(o, n, f, plan);
      Content(EditedOver(o, s.clock, 3, s.file)) == Some(plan.original) <==> Restored(o, n, f, plan)
  {
    var s := AfterPutBack(o, n, f, plan);
    LastEditStands(o, s.clock, 3, s.file);
    if Content(Edited(o(n), f)) == Some(plan.updated) {
      assert s.clock == n + 7 && s.file == Edited(o(n + 6), Regular(plan.original));
      LastEditStands(o, n + 6, 4, Regular(plan.original));
      EditedFromNext(o, n + 6, 3, Regular(plan.original));
    }
  }

  lemma {:induction false} EditedFromNext(o: nat -> Tick, n: nat, k: nat, f: File)
    ensures EditedOver(o, n + 1, k, Edited(o(n), f)) == EditedOver(o, n, k + 1, f)
  {
    if k > 0 {
      EditedFromNext(o, n, k - 1, f);
    }
  }

  /** A put-back during which nobody edits leaves the file or writes the original, and writes it
      exactly over the updated text when it succeeds. */
  lemma {:induction false} PutBackUndisturbed(o: nat -> Tick, n: nat, f: File, plan: Plan)
    ensures var s := AfterPutBack(o, n, f, plan);
      s.edits == 0 ==>
        && (s.file == f || s.file == Regular(plan.original))
        && (s.ok ==> s.file == if Content(f) == Some(plan.updated) then Regular(plan.original) else f)
        && (s.faults == 0 && f.Regular? ==> s.ok)
  {
    ReplaceIsWhole(o, n + 1, Edited(o(n), f), plan.original, plan.updated);
    ReplaceSucceeds(o, n + 1, Edited(o(n), f), plan.original, plan.updated);
  }

  /** A foreign edit that the put-back reads is kept, and the put-back still succeeds. */
  lemma {:induction false} PutBackOverForeignEdit(plan: Plan)
    requires plan.original != "foreign" && plan.updated != "foreign"
    ensures var o := (k: nat) => Tick(if k == 0 then Some(Regular("foreign")) else None, NoFault, None, map[]);
      AfterPutBack(o, 0, Regular(plan.updated), plan) == Swap(true, Regular("foreign"), None, 1, 1, 0)
  {
  }

  // ---------- The host ----------

  /** The files handed to Compose: the canonical path with overlays, or given texts. */
  datatype Sources = Saved(overlays: seq<string>) | Given(texts: seq<string>)

  /** One `compose up` of the server: its sources and what they rendered to. */
  datatype Switch = Switch(files: Sources, model: Option<ComposeModel>)

  /** The texts these sources stand for when the canonical file is `f`. */
  function TextsGiven(f: File, files: Sources): Option<seq<string>> {
    match files
    case Given(texts) => Some(texts)
    case Saved(overlays) =>
      match Content(f)
      case None => None
      case Some(text) => Some([text] + overlays)
  }

  function Denoted(tags: map<string, string>, images: set<string>, name: string): Option<string> {
    if name in tags then Some(tags[name]) else if name in images then Some(name) else None
  }

  /** What a run does to the server, the file and the tags. */
  datatype View = View(trail: Trail, service: Option<Container>, switches: seq<Switch>, tags: map<string, string>,
                       images: set<string>) {
    function Resolved(name: string): Option<string> {
      Denoted(tags, images, name)
    }
  }

  /** The operator's hooks: is there a backup, do the dependencies answer, is the server healthy? */
  datatype Hook = BackupHook | DependenciesHook | HealthHook

  class Host {
    const oracle: nat -> Tick
    const render: seq<string> -> Option<ComposeModel>
    const hashOf: seq<string> -> string
    const archive: Archive
    const archiveSha256: string
    const platform: map<string, string>
    /** The canonical file, with the calls, edits and writes that made it so. */
    var trail: Trail
    var service: Option<Container>
    var tags: map<string, string>
    var images: set<string>
    var lock: bool
    /** The attempts of this run to write its record, in its own new directory. */
    var records: seq<RecordWrite>
    var switches: seq<Switch>
    /** The hooks that passed, in order. */
    var hooks: seq<Hook>
    /** The files of this run in its own new directory, but for the record. */
    var saved: map<string, string>
    var stage: Stage

    constructor (oracle: nat -> Tick, render: seq<string> -> Option<ComposeModel>, hashOf: seq<string> -> string,
                 archive: Archive, archiveSha256: string, platform: map<string, string>,
                 canonical: File, service: Option<Container>, tags: map<string, string>, images: set<string>,
                 lock: bool)
      ensures this.oracle == oracle && this.render == render && this.hashOf == hashOf && this.archive == archive
      ensures this.archiveSha256 == archiveSha256 && this.platform == platform
      ensures this.service == service && this.tags == tags && this.images == images && this.lock == lock
      ensures records == [] && switches == [] && hooks == [] && saved == map[] && stage == Outside
      ensures trail == Trail(canonical, [], 0, 0, 0, canonical) && Traced(oracle, trail) && Counted(oracle, trail)
    {
      this.oracle, this.render, this.hashOf := oracle, render, hashOf;
      this.archive, this.archiveSha256, this.platform := archive, archiveSha256, platform;
      this.service, this.tags, this.images, this.lock := service, tags, images, lock;
      trail := Trail(canonical, [], 0, 0, 0, canonical);
      records, switches, hooks, saved, stage := [], [], [], map[], Outside;
    }

    /** No call failed. */
    twostate predicate Worked()
      reads this`trail
    {
      trail.faults == old(trail).faults
    }

    /** No call failed and nobody edited. */
    twostate predicate Quiet()
      reads this`trail
    {
      Calm(old(trail), trail)
    }

    /** Only operator edits, if any, happened to the canonical file. */
    twostate predicate OnlyEdits()
      reads this`trail
    {
      OnlyTicked(oracle, old(trail), trail)
    }

    function TextsOf(files: Sources): Option<seq<string>>
      reads this`trail
    {
      TextsGiven(trail.file, files)
    }

    function Rendered(files: Sources): Option<ComposeModel>
      reads this`trail
    {
      if TextsOf(files).None? then None else render(TextsOf(files).value)
    }

    /** The image a tag or image identifier denotes. */
    function Resolved(name: string): Option<string>
      reads this`tags, this`images
    {
      Denoted(tags, images, name)
    }

    function Now(): View
      reads this`trail, this`service, this`switches, this`tags, this`images
    {
      View(trail, service, switches, tags, images)
    }

    method Turn() returns (t: Tick)
      modifies `trail
      ensures t == oracle(old(trail).clock) && trail == Ticked(t, old(trail)) && OnlyEdits()
    {
      t := oracle(trail.clock);
      OneTick(oracle, trail);
      trail := Ticked(t, trail);
    }

    method Invoke(hook: Hook) returns (r: Check)
      modifies `trail, `hooks
      ensures OnlyEdits() && OneTurn() && r == Require(Worked())
      ensures hooks == old(hooks) + if r.Pass? then [hook] else []
    {
      r := Call();
      if r.Pass? {
        hooks := hooks + [hook];
      }
    }

    /** A file written for the first time; one that fails may be there in part. */
    method SaveFile(name: string, content: string) returns (r: Check)
      modifies `trail, `saved
      ensures OnlyEdits() && OneTurn() && r == Require(Worked())
      ensures r.Pass? ==> saved == old(saved)[name := content]
    {
      r := Call();
      if r.Pass? {
        saved := saved[name := content];
      }
    }

    /** Any call that observes nothing modelled here: directories, locks, removals. */
    method Call() returns (r: Check)
      modifies `trail
      ensures OnlyEdits() && OneTurn() && r == Require(trail.faults == old(trail).faults)
    {
      var t := Turn();
      r := Require(t.fault.NoFault?);
    }

    /** Exactly one call of the oracle passed. */
    twostate predicate OneTurn()
      reads this
    {
      trail == Ticked(oracle(old(trail).clock), old(trail))
    }

    method ReadCanonical() returns (r: Result<string>)
      modifies `trail
      ensures OnlyEdits() && OneTurn()
      ensures r == if oracle(old(trail).clock).fault.NoFault? then OrRaise(Content(trail.file)) else Raise
      ensures trail.faults == old(trail).faults <==> oracle(old(trail).clock).fault.NoFault?
    {
      var t := Turn();
      r := if t.fault.NoFault? then OrRaise(Content(trail.file)) else Raise;
    }

    /** `lstat` and the checks that the path is a regular file and no link. */
    method RequireRegular() returns (r: Check)
      modifies `trail
      ensures OnlyEdits() && r == Require(trail.faults == old(trail).faults && trail.file.Regular?)
    {
      var t := Turn();
      r := Require(t.fault.NoFault? && trail.file.Regular?);
    }

    method Model(files: Sources) returns (r: Result<ComposeModel>)
      modifies `trail
      ensures OnlyEdits()
      ensures r == if trail.faults == old(trail).faults then OrRaise(Rendered(files)) else Raise
    {
      var t := Turn();
      r := if t.fault.NoFault? then OrRaise(Rendered(files)) else Raise;
    }

    method InspectImage(name: string) returns (r: Result<string>)
      modifies `trail
      ensures OnlyEdits()
      ensures r == if trail.faults == old(trail).faults then OrRaise(Resolved(name)) else Raise
    {
      var t := Turn();
      r := if t.fault.NoFault? then OrRaise(Resolved(name)) else Raise;
    }

    /** `image ls --filter reference=`: the identifiers carrying exactly this tag. */
    method ListImages(tag: string) returns (r: Result<seq<string>>)
      modifies `trail
      ensures OnlyEdits()
      ensures r == if trail.faults == old(trail).faults then Ok(if tag in tags then [tags[tag]] else []) else Raise
    {
      var t := Turn();
      r := if t.fault.NoFault? then Ok(if tag in tags then [tags[tag]] else []) else Raise;
    }

    function PlatformOf(name: string): Option<string>
      reads this`tags, this`images
    {
      if Resolved(name).Some? && Resolved(name).value in platform then Some(platform[Resolved(name).value]) else None
    }

    method Platform(name: string) returns (r: Result<string>)
      modifies `trail
      ensures OnlyEdits()
      ensures r == if trail.faults == old(trail).faults then OrRaise(PlatformOf(name)) else Raise
    {
      var t := Turn();
      r := if t.fault.NoFault? then OrRaise(PlatformOf(name)) else Raise;
    }

    /** Loading the archive may move any tag it names; a late failure leaves it loaded. */
    method LoadArchive() returns (r: Check)
      modifies `trail, `tags, `images, `stage
      ensures OnlyEdits() && stage == Next(old(stage), Act.Loaded)
      ensures tags == old(tags) || tags == Moved(old(tags), archive, oracle(old(trail).clock).loaded)
      ensures old(images) <= images && r == Require(trail.faults == old(trail).faults)
      ensures r.Pass? ==> tags == Moved(old(tags), archive, oracle(old(trail).clock).loaded)
    {
      var t := Turn();
      stage := Next(stage, Act.Loaded);
      if !t.fault.Before? {
        tags := Moved(tags, archive, t.loaded);
        images := images + set k | k in tags.Keys :: tags[k];
      }
      r := Require(t.fault.NoFault?);
    }

    /** `check_image`: exactly one server container, running this image. */
    method CheckImage(expected: string) returns (r: Check)
      modifies `trail
      ensures OnlyEdits()
      ensures r == Require(trail.faults == old(trail).faults && service.Some? && service.value.image == expected)
    {
      var t := Turn();
      r := Require(t.fault.NoFault? && service.Some? && service.value.image == expected);
    }

    /** `check_service_configuration`: the running container was made from this configuration. */
    method CheckServiceConfiguration(files: Sources) returns (r: Check)
      modifies `trail
      ensures OnlyEdits()
      ensures r == Require(trail.faults == old(trail).faults && TextsOf(files).Some? && service.Some?
                           && service.value.configHash == hashOf(TextsOf(files).value))
    {
      var t := Turn();
      r := Require(t.fault.NoFault? && TextsOf(files).Some? && service.Some?
                   && service.value.configHash == hashOf(TextsOf(files).value));
    }

    /** The image these sources start the server from. */
    function StartedFrom(files: Sources): Option<string>
      reads this`trail, this`tags, this`images
      ensures StartedFrom(files).Some? ==> TextsOf(files).Some?
    {
      var image := if Rendered(files).None? then None else ServerImage(Rendered(files).value);
      if image.None? then None else Resolved(image.value)
    }

    /** `compose up` of the server. A failed switch may leave any container, or none. */
    method Up(files: Sources) returns (r: Check)
      modifies `trail, `service, `switches, `stage
      ensures OnlyEdits() && switches == old(switches) + [Switch(files, Rendered(files))]
      ensures stage == Next(old(stage), Switched)
      ensures r == Require(trail.faults == old(trail).faults && StartedFrom(files).Some?)
      ensures r.Pass? ==>
        && service == Some(Container(StartedFrom(files).value, hashOf(TextsOf(files).value)))
    {
      var t := Turn();
      switches := switches + [Switch(files, Rendered(files))];
      stage := Next(stage, Switched);
      r := Require(t.fault.NoFault? && StartedFrom(files).Some?);
      service := if r.Fail? then t.leftover
                 else Some(Container(StartedFrom(files).value, hashOf(TextsOf(files).value)));
    }

    method WriteRecord(entry: Record) returns (r: Check)
      modifies `trail, `records
      ensures OnlyEdits() && OneTurn() && records == old(records) + [RecordWrite(entry, oracle(old(trail).clock).fault)]
      ensures r == Require(oracle(old(trail).clock).fault.NoFault?) == Require(trail.faults == old(trail).faults)
    {
      var t := Turn();
      records := records + [RecordWrite(entry, t.fault)];
      r := Require(t.fault.NoFault?);
    }

    /** A private sibling of the canonical file, holding the given bytes. */
    method SiblingFile() returns (r: Check)
      modifies `trail
      ensures OnlyEdits() && (r.Pass? ==> trail.faults == old(trail).faults)
      ensures r.Fail? && trail.file.Regular? && trail.edits == old(trail).edits ==> trail.faults > old(trail).faults
    {
      var regular := RequireRegular();
      if regular.Fail? {
        return regular;
      }
      r := Call();
    }

    method AtomicReplace(data: string, expected: string) returns (r: Check)
      modifies `trail, `stage
      ensures var s := CompareAndReplace(oracle, old(trail).clock, old(trail).file, data, expected);
        && r == Require(s.ok) && trail == Swapped(old(trail), s)
        && stage == (if s.write.Some? then Next(old(stage), Rewrote) else old(stage))
      ensures Later(oracle, old(trail), trail)
      ensures trail.writes == old(trail).writes ==> OnlyTicked(oracle, old(trail), trail)
      ensures trail.writes != old(trail).writes ==> Traced(oracle, trail)
    {
      ghost var was := trail;
      var intact := Recheck(expected);
      if !intact {
        return Check.Fail;
      }
      r := RenameOver(was, data, expected);
    }

    /** The rename and the sync of an operation that began with this trail. */
    method RenameOver(ghost was: Trail, data: string, expected: string) returns (r: Check)
      requires Turned(was, trail, 4)
      modifies `trail, `stage
      ensures var s := PutInPlace(oracle, was.clock, was.file, data, expected);
        && r == Require(s.ok)
        && trail == Swapped(old(trail).(edits := was.edits, faults := was.faults), s)
        && stage == (if s.write.Some? then Next(old(stage), Rewrote) else old(stage))
      ensures Later(oracle, old(trail), trail)
      ensures trail.writes == old(trail).writes ==> OnlyTicked(oracle, old(trail), trail)
      ensures trail.writes != old(trail).writes ==> Traced(oracle, trail)
    {
      hide Traced, Undisturbed, Counted, EditsOver, FaultsOver, EditedOver;
      OverStep(oracle, was.clock, 5);
      var t := TurnOf(was, 4);
      if t.fault.Before? {
        return Check.Fail;
      }
      OneWrite(oracle, trail, Write(expected, t.edit, trail.file, data, trail.clock - 1));
      trail := Written(trail, Write(expected, t.edit, trail.file, data, trail.clock - 1));
      stage := Next(stage, Rewrote);
      if t.fault.Late? {
        return Check.Fail;
      }
      t := Turn();
      r := Require(t.fault.NoFault?);
    }

    /** Everything before the rename: the content is checked, copied beside, and checked again. */
    method Recheck(expected: string) returns (intact: bool)
      modifies `trail
      ensures OnlyEdits()
      ensures intact <==> StopsAt(oracle, old(trail).clock, old(trail).file, expected) == 0
      ensures var k := if intact then 4 else StopsAt(oracle, old(trail).clock, old(trail).file, expected);
        Turned(old(trail), trail, k)
    {
      hide Traced, Undisturbed, Counted, StopsEarly;
      ghost var was := trail;
      intact := FirstCheck(expected);
      if !intact {
        return;
      }
      var t := TurnOf(was, 2);
      if !t.fault.NoFault? {
        return false;
      }
      t := TurnOf(was, 3);
      return t.fault.NoFault? && Content(trail.file) == Some(expected);
    }

    method FirstCheck(expected: string) returns (intact: bool)
      modifies `trail
      ensures OnlyEdits()
      ensures intact <==> StopsEarly(oracle, old(trail).clock, old(trail).file, expected) == 0
      ensures var k := if intact then 2 else StopsEarly(oracle, old(trail).clock, old(trail).file, expected);
        Turned(old(trail), trail, k)
    {
      hide Traced, Undisturbed, Counted;
      ghost var was := trail;
      var t := TurnOf(was, 0);
      if !t.fault.NoFault? || Content(trail.file) != Some(expected) {
        return false;
      }
      t := TurnOf(was, 1);
      return t.fault.NoFault? && trail.file.Regular?;
    }

    /** `k` calls of an operation that began with this trail are over. */
    ghost predicate Turned(was: Trail, now: Trail, k: nat) {
      && now.clock == was.clock + k && now.file == EditedOver(oracle, was.clock, k, was.file)
      && now.edits == was.edits + EditsOver(oracle, was.clock, k)
      && now.faults == was.faults + FaultsOver(oracle, was.clock, k)
    }

    /** The turn numbered `k` of an operation that began with this trail. */
    method TurnOf(ghost was: Trail, ghost k: nat) returns (t: Tick)
      requires Turned(was, trail, k)
      modifies `trail
      ensures OnlyEdits()
      ensures t == oracle(was.clock + k) && Turned(was, trail, k + 1)
    {
      t := Turn();
    }

    /** `mkdir` of the lock directory either creates it or fails without effect. */
    method TakeLock() returns (r: Check)
      modifies `trail, `lock, `stage
      ensures OnlyEdits() && r == Require(trail.faults == old(trail).faults && !old(lock))
      ensures r.Pass? ==> lock && stage == Next(old(stage), LockTaken)
      ensures r.Fail? ==> lock == old(lock) && stage == Next(old(stage), LockDenied)
    {
      var t := Turn();
      if !t.fault.NoFault? || lock {
        stage := Next(stage, LockDenied);
        return Check.Fail;
      }
      lock := true;
      stage := Next(stage, LockTaken);
      r := Pass;
    }

    method FreeLock()
      modifies `lock, `stage
      ensures !lock && stage == Next(old(stage), LockFreed)
    {
      lock := false;
      stage := Next(stage, LockFreed);
    }

    method Finish(o: Outcome)
      modifies `stage
      ensures stage == Next(old(stage), Finished(o))
    {
      stage := Next(stage, Finished(o));
    }
  }
}
