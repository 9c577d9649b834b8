/** Any number of gateway clients reading, judging and conditionally writing the resources of
    one CalDAV server (preconditions of sections 13.1.1 and 13.1.2 of RFC 9110). */
module ConditionalAccess {
  import opened Common
  import opened DeletionSafety

  type Url = string
  type ETag = string
  type Body = Option<CalComponent>

  datatype Resource = Resource(etag: ETag, body: Body)

  /** `"…"` with no quote, control or space inside: strong, single and not `*`. */
  predicate ConcreteStrong(etag: ETag) {
    && |etag| >= 2 && etag[0] == '"' && etag[|etag| - 1] == '"'
    && forall i :: 1 <= i < |etag| - 1 ==> var n := etag[i] as int; n == 0x21 || 0x23 <= n <= 0x7e
  }

  datatype Condition = IfMatch(etag: ETag) | IfNoneMatchAny

  /** The precondition as the server evaluates it: strong comparison with the current tag. */
  predicate Holds(condition: Condition, current: Option<Resource>) {
    match condition
    case IfMatch(etag) => current.Some? && current.value.etag == etag && ConcreteStrong(etag)
    case IfNoneMatchAny => current.None?
  }

  // ---------- What the client concludes ----------

  datatype Outcome = Succeeded | EtagConflict | UnsafeResource | BadRequest | Redirected | RequestFailed

  /** The result of a write: the status of the reply, or no reply at all. */
  function WriteOutcome(reply: Option<int>): Outcome {
    match reply
    case None => RequestFailed
    case Some(status) =>
      if 300 <= status < 400 then Redirected
      else if 200 <= status < 300 then Succeeded
      else if status == 409 || status == 412 then EtagConflict
      else RequestFailed
  }

  /** A server says 2xx only for a write it applied and 409 or 412 only for one it refused. */
  predicate Honest(applied: bool, reply: Option<int>) {
    reply.Some? ==>
      && (200 <= reply.value < 300 ==> applied)
      && (reply.value == 409 || reply.value == 412 ==> !applied)
  }

  // ---------- The system ----------

  type ClientId = nat

  /** One operation of one client: a gateway delete before and after its read, a write about to
      be sent, or a finished operation. */
  datatype Client =
    | Deleting(url: Url, etag: ETag)
    | Holding(url: Url, etag: ETag, body: Body)
    | Writing(url: Url, condition: Condition, body: Body)
    | Finished(outcome: Outcome)

  /** A conditional write the server applied: what it was conditioned on, what it replaced,
      what it left, and, for a delete, the body its client had judged. */
  datatype Applied = Applied(client: ClientId, url: Url, condition: Condition, replaced: Option<Resource>,
                             left: Option<Resource>, judged: Body)

  datatype System = System(
    store: map<Url, Resource>,
    versions: map<(Url, ETag), Body>,
    clients: map<ClientId, Client>,
    applied: seq<Applied>)

  function Current(s: System, url: Url): Option<Resource> {
    if url in s.store then Some(s.store[url]) else None
  }

  datatype Step =
    | Begin(id: ClientId, op: Client)
    | Get(id: ClientId, delivered: bool)
    | SendDelete(id: ClientId, arrives: bool, reply: Option<int>)
    | SendPut(id: ClientId, arrives: bool, tag: ETag, reply: Option<int>)
    | ForeignPut(url: Url, tag: ETag, body: Body)
    | ForeignDelete(url: Url)

  /** A write about to be decided by the server. */
  predicate Pending(c: Client) {
    c.Holding? || c.Writing?
  }

  /** Each stored version gets a tag never used before for its resource. */
  predicate Fresh(s: System, url: Url, tag: ETag) {
    (url, tag) !in s.versions
  }

  ghost predicate Enabled(s: System, step: Step) {
    match step
    case Begin(id, op) =>
      id !in s.clients && (op.Deleting? || op.Writing?)
    case Get(id, delivered) =>
      id in s.clients && s.clients[id].Deleting?
    case SendDelete(id, arrives, reply) =>
      && id in s.clients && s.clients[id].Holding?
      && var c := s.clients[id];
         Honest(arrives && Holds(IfMatch(c.etag), Current(s, c.url)), reply)
    case SendPut(id, arrives, tag, reply) =>
      && id in s.clients && s.clients[id].Writing?
      && var c := s.clients[id];
         Fresh(s, c.url, tag) && Honest(arrives && Holds(c.condition, Current(s, c.url)), reply)
    case ForeignPut(url, tag, body) => Fresh(s, url, tag)
    case ForeignDelete(url) => true
  }

  /** What a gateway delete does with the resource it read, before it asks to delete. */
  ghost function AfterGet(c: Client, current: Option<Resource>, delivered: bool): Client
    requires c.Deleting?
  {
    if !ConcreteStrong(c.etag) then Finished(BadRequest)
    else if !delivered || current.None? then Finished(RequestFailed)
    else if current.value.etag != c.etag then Finished(EtagConflict)
    else if !Safe(current.value.body) then Finished(UnsafeResource)
    else Holding(c.url, c.etag, current.value.body)
  }

  function Put(s: System, url: Url, tag: ETag, body: Body): System {
    s.(store := s.store[url := Resource(tag, body)], versions := s.versions[(url, tag) := body])
  }

  ghost function After(s: System, step: Step): System
    requires Enabled(s, step)
  {
    match step
    case Begin(id, op) => s.(clients := s.clients[id := op])
    case Get(id, delivered) =>
      var c := s.clients[id];
      s.(clients := s.clients[id := AfterGet(c, Current(s, c.url), delivered)])
    case SendDelete(id, arrives, reply) =>
      var c := s.clients[id];
      var done := s.(clients := s.clients[id := Finished(WriteOutcome(reply))]);
      if arrives && Holds(IfMatch(c.etag), Current(s, c.url)) then
        done.(store := s.store - {c.url},
              applied := s.applied + [Applied(id, c.url, IfMatch(c.etag), Current(s, c.url), None, c.body)])
      else done
    case SendPut(id, arrives, tag, reply) =>
      var c := s.clients[id];
      var done := s.(clients := s.clients[id := Finished(WriteOutcome(reply))]);
      if arrives && Holds(c.condition, Current(s, c.url)) then
        Put(done, c.url, tag, c.body).(
          applied := s.applied + [Applied(id, c.url, c.condition, Current(s, c.url),
                                          Some(Resource(tag, c.body)), None)])
      else done
    case ForeignPut(url, tag, body) => Put(s, url, tag, body)
    case ForeignDelete(url) => s.(store := s.store - {url})
  }

  const START := System(map[], map[], map[], [])

  ghost predicate Runs(s: System, steps: seq<Step>, t: System)
    decreases |steps|
  {
    if steps == [] then s == t else Enabled(s, steps[0]) && Runs(After(s, steps[0]), steps[1..], t)
  }

  ghost predicate Reachable(s: System) {
    exists steps :: Runs(START, steps, s)
  }

  // ---------- The invariant ----------

  /** A version that was current once and can never be again. */
  ghost predicate Retired(s: System, url: Url, etag: ETag) {
    (url, etag) in s.versions && (url in s.store ==> s.store[url].etag != etag)
  }

  /** What holds of every applied write. */
  ghost predicate Sound(s: System, a: Applied) {
    && Holds(a.condition, a.replaced)
    && (a.left.None? ==> a.condition.IfMatch? && a.replaced.value.body == a.judged && Safe(a.judged))
    && (a.condition.IfMatch? ==> Retired(s, a.url, a.condition.etag))
    && a.client in s.clients && s.clients[a.client].Finished?
  }

  ghost predicate DistinctTargets(applied: seq<Applied>) {
    forall i, j ::
      0 <= i < j < |applied| && applied[i].condition.IfMatch? && applied[i].condition == applied[j].condition
      ==> applied[i].url != applied[j].url
  }

  ghost predicate HoldsVersion(s: System, c: Client)
    requires c.Holding?
  {
    (c.url, c.etag) in s.versions && s.versions[(c.url, c.etag)] == c.body && Safe(c.body) && ConcreteStrong(c.etag)
  }

  /** The stored version of a resource is the one its tag was issued for. */
  ghost predicate StoreInv(s: System) {
    forall url <- s.store ::
      (url, s.store[url].etag) in s.versions && s.versions[(url, s.store[url].etag)] == s.store[url].body
  }

  ghost predicate ClientInv(s: System) {
    forall id <- s.clients :: s.clients[id].Holding? ==> HoldsVersion(s, s.clients[id])
  }

  ghost predicate LogInv(s: System) {
    && (forall i :: 0 <= i < |s.applied| ==> Sound(s, s.applied[i]))
    && DistinctTargets(s.applied)
  }

  /** Has this client had a write applied? */
  ghost predicate Wrote(s: System, id: ClientId) {
    exists i :: 0 <= i < |s.applied| && s.applied[i].client == id
  }

  ghost predicate OutcomeInv(s: System) {
    && (forall id <- s.clients :: s.clients[id] == Finished(Succeeded) ==> Wrote(s, id))
    && (forall id <- s.clients :: s.clients[id] == Finished(EtagConflict) ==> !Wrote(s, id))
    && (forall id :: Wrote(s, id) ==> id in s.clients && s.clients[id].Finished?)
  }

  ghost predicate Inv(s: System) {
    StoreInv(s) && ClientInv(s) && LogInv(s) && OutcomeInv(s)
  }

  // ---------- Every step keeps it ----------

  /** Versions only grow, and nothing retired comes back. */
  ghost predicate Advances(s: System, t: System) {
    && (forall v <- s.versions :: v in t.versions && t.versions[v] == s.versions[v])
    && (forall url, etag :: Retired(s, url, etag) ==> Retired(t, url, etag))
  }

  lemma {:induction false} PutAdvances(s: System, url: Url, tag: ETag, body: Body)
    requires StoreInv(s) && Fresh(s, url, tag)
    ensures StoreInv(Put(s, url, tag, body)) && Advances(s, Put(s, url, tag, body))
    ensures url in s.store ==> Retired(Put(s, url, tag, body), url, s.store[url].etag)
  {
  }

  lemma {:induction false} RemovalAdvances(s: System, url: Url)
    requires StoreInv(s)
    ensures var t := s.(store := s.store - {url}); StoreInv(t) && Advances(s, t)
    ensures url in s.store ==> Retired(s.(store := s.store - {url}), url, s.store[url].etag)
  {
  }

  /** A step that changes clients only, leaving every finished one as it is. */
  lemma {:induction false} ClientsOnly(s: System, id: ClientId, c: Client)
    requires Inv(s) && (id in s.clients ==> !s.clients[id].Finished?)
    requires c.Holding? ==> HoldsVersion(s, c)
    requires c != Finished(Succeeded)
    ensures Inv(s.(clients := s.clients[id := c]))
  {
    var t := s.(clients := s.clients[id := c]);
    assert !Wrote(s, id);
    forall i | 0 <= i < |t.applied| ensures Sound(t, t.applied[i]) {
      assert Sound(s, s.applied[i]);
    }
    forall k | k in t.clients ensures Wrote(t, k) <==> Wrote(s, k) {
    }
  }

  /** A step that changes the store only, by a version-preserving change. */
  lemma {:induction false} StoreOnly(s: System, t: System)
    requires Inv(s) && StoreInv(t) && Advances(s, t) && t.clients == s.clients && t.applied == s.applied
    ensures Inv(t)
  {
    forall i | 0 <= i < |t.applied| ensures Sound(t, t.applied[i]) {
      assert Sound(s, s.applied[i]);
    }
    forall id | id in t.clients && t.clients[id].Holding? ensures HoldsVersion(t, t.clients[id]) {
      assert HoldsVersion(s, s.clients[id]);
    }
    forall k ensures Wrote(t, k) <==> Wrote(s, k) {
    }
  }

  /** A write that takes effect: the store advances and the log grows by a sound entry. */
  lemma {:induction false} WriteApplied(s: System, t: System, id: ClientId, c: Client, a: Applied)
    requires Inv(s) && id in s.clients && Pending(s.clients[id]) && c.Finished? && c != Finished(EtagConflict)
    requires StoreInv(t) && Advances(s, t)
    requires t.clients == s.clients[id := c] && t.applied == s.applied + [a]
    requires a.client == id && Sound(t, a)
    requires a.condition.IfMatch? ==> a.url in s.store && s.store[a.url].etag == a.condition.etag
    ensures Inv(t)
  {
    var n := |s.applied|;
    assert !Wrote(s, id);
    forall i | 0 <= i < |t.applied| ensures Sound(t, t.applied[i]) {
      if i < n {
        assert Sound(s, s.applied[i]);
        assert t.applied[i] == s.applied[i];
      }
    }
    forall i, j | 0 <= i < j < |t.applied| && t.applied[i].condition.IfMatch?
      && t.applied[i].condition == t.applied[j].condition
      ensures t.applied[i].url != t.applied[j].url
    {
      assert Sound(s, s.applied[i]);
      if j == n && t.applied[i].url == a.url {
        assert false;
      }
    }
    forall k | k in t.clients && t.clients[k].Holding? ensures HoldsVersion(t, t.clients[k]) {
      assert HoldsVersion(s, s.clients[k]);
    }
    WroteAppended(s, t, a);
  }

  lemma {:induction false} WroteAppended(s: System, t: System, a: Applied)
    requires t.applied == s.applied + [a]
    ensures forall k :: Wrote(t, k) <==> Wrote(s, k) || k == a.client
  {
    forall k ensures Wrote(t, k) <==> Wrote(s, k) || k == a.client {
      if Wrote(s, k) {
        var i :| 0 <= i < |s.applied| && s.applied[i].client == k;
        assert t.applied[i].client == k;
      }
      assert t.applied[|s.applied|] == a;
    }
  }

  lemma {:induction false} InvStep(s: System, step: Step)
    requires Inv(s) && Enabled(s, step)
    ensures Inv(After(s, step))
  {
    var t := After(s, step);
    match step
    case Begin(id, op) =>
      ClientsOnly(s, id, op);
    case Get(id, delivered) =>
      var c := s.clients[id];
      ClientsOnly(s, id, AfterGet(c, Current(s, c.url), delivered));
    case SendDelete(id, arrives, reply) =>
      DeleteStep(s, id, arrives, reply);
    case SendPut(id, arrives, tag, reply) =>
      PutStep(s, id, arrives, tag, reply);
    case ForeignPut(url, tag, body) =>
      PutAdvances(s, url, tag, body);
      StoreOnly(s, t);
    case ForeignDelete(url) =>
      RemovalAdvances(s, url);
      StoreOnly(s, t);
  }

  lemma {:induction false} DeleteStep(s: System, id: ClientId, arrives: bool, reply: Option<int>)
    requires Inv(s) && Enabled(s, SendDelete(id, arrives, reply))
    ensures Inv(After(s, SendDelete(id, arrives, reply)))
  {
    var t := After(s, SendDelete(id, arrives, reply));
    var c := s.clients[id];
    assert HoldsVersion(s, c);
    if arrives && Holds(IfMatch(c.etag), Current(s, c.url)) {
      RemovalAdvances(s, c.url);
      var a := Applied(id, c.url, IfMatch(c.etag), Current(s, c.url), None, c.body);
      assert Retired(t, c.url, c.etag);
      assert Sound(t, a);
      WriteApplied(s, t, id, Finished(WriteOutcome(reply)), a);
    } else {
      ClientsOnly(s, id, Finished(WriteOutcome(reply)));
    }
  }

  lemma {:induction false} PutStep(s: System, id: ClientId, arrives: bool, tag: ETag, reply: Option<int>)
    requires Inv(s) && Enabled(s, SendPut(id, arrives, tag, reply))
    ensures Inv(After(s, SendPut(id, arrives, tag, reply)))
  {
    var t := After(s, SendPut(id, arrives, tag, reply));
    var c := s.clients[id];
    if arrives && Holds(c.condition, Current(s, c.url)) {
      PutAdvances(s, c.url, tag, c.body);
      var a := Applied(id, c.url, c.condition, Current(s, c.url), Some(Resource(tag, c.body)), None);
      assert c.condition.IfMatch? ==> Retired(t, c.url, c.condition.etag);
      assert Sound(t, a);
      WriteApplied(s, t, id, Finished(WriteOutcome(reply)), a);
    } else {
      ClientsOnly(s, id, Finished(WriteOutcome(reply)));
    }
  }

  lemma {:induction false} InvRuns(s: System, steps: seq<Step>, t: System)
    requires Inv(s) && Runs(s, steps, t)
    ensures Inv(t)
    decreases |steps|
  {
    if steps != [] {
      InvStep(s, steps[0]);
      InvRuns(After(s, steps[0]), steps[1..], t);
    }
  }

  lemma {:induction false} ReachableInv(s: System)
    requires Reachable(s)
    ensures Inv(s)
  {
    var steps :| Runs(START, steps, s);
    InvRuns(START, steps, s);
  }

  // ---------- What follows in every interleaving ----------

  /** Every gateway delete that took effect removed exactly the version that was read and
      judged, and that version was one complete series. */
  lemma {:induction false} DeleteRemovesWhatWasJudged(s: System, i: nat)
    requires Reachable(s) && i < |s.applied| && s.applied[i].left.None?
    ensures var a := s.applied[i];
      && a.condition.IfMatch? && a.replaced == Some(Resource(a.condition.etag, a.judged)) && Safe(a.judged)
  {
    ReachableInv(s);
    assert Sound(s, s.applied[i]);
  }

  /** Of all writes to a resource conditioned on one tag, at most one took effect. */
  lemma {:induction false} AtMostOneWinner(s: System, i: nat, j: nat)
    requires Reachable(s) && i < |s.applied| && j < |s.applied|
    requires s.applied[i].condition.IfMatch? && s.applied[i].condition == s.applied[j].condition
    requires s.applied[i].url == s.applied[j].url
    ensures i == j
  {
    ReachableInv(s);
  }

  /** An update replaced exactly the version it names; a create replaced nothing. */
  lemma {:induction false} NothingOverwrittenUnseen(s: System, i: nat)
    requires Reachable(s) && i < |s.applied|
    ensures var a := s.applied[i];
      && (a.condition.IfNoneMatchAny? ==> a.replaced.None?)
      && (a.condition.IfMatch? ==> a.replaced.Some? && a.replaced.value.etag == a.condition.etag)
  {
    ReachableInv(s);
    assert Sound(s, s.applied[i]);
  }

  /** A client told it succeeded did write, and one told of a conflict did not. Nothing can be
      said of a client left without a clear answer. */
  lemma {:induction false} OutcomesAreHonest(s: System, id: ClientId)
    requires Reachable(s) && id in s.clients
    ensures s.clients[id] == Finished(Succeeded) ==> Wrote(s, id)
    ensures s.clients[id] == Finished(EtagConflict) ==> !Wrote(s, id)
  {
    ReachableInv(s);
  }

  // ---------- What took effect is what was asked for ----------

  /** The steps of a run that began this operation and sent it, with this effect. */
  ghost predicate Asked(steps: seq<Step>, a: Applied) {
    if a.left.Some? then
      && Begin(a.client, Writing(a.url, a.condition, a.left.value.body)) in steps
      && exists reply :: SendPut(a.client, true, a.left.value.etag, reply) in steps
    else
      && a.condition.IfMatch? && Begin(a.client, Deleting(a.url, a.condition.etag)) in steps
      && exists reply :: SendDelete(a.client, true, reply) in steps
  }

  /** What a client that has not finished is still doing. */
  function Doing(c: Client): Client {
    if c.Holding? then Deleting(c.url, c.etag) else c
  }

  /** Each client began once, does what it began, and each applied write was asked for. */
  ghost predicate Follows(steps: seq<Step>, s: System) {
    && (forall id, op :: Begin(id, op) in steps ==> id in s.clients)
    && (forall id, op :: Begin(id, op) in steps && !s.clients[id].Finished? ==> Doing(s.clients[id]) == op)
    && (forall id, op, op' :: Begin(id, op) in steps && Begin(id, op') in steps ==> op == op')
    && (forall id <- s.clients :: !s.clients[id].Finished? ==> Begin(id, Doing(s.clients[id])) in steps)
    && (forall a <- s.applied :: Asked(steps, a))
  }

  lemma {:induction false} AskedOn(steps: seq<Step>, step: Step, a: Applied)
    requires Asked(steps, a)
    ensures Asked(steps + [step], a)
  {
    if a.left.Some? {
      var reply :| SendPut(a.client, true, a.left.value.etag, reply) in steps;
      assert SendPut(a.client, true, a.left.value.etag, reply) in steps + [step];
    } else {
      var reply :| SendDelete(a.client, true, reply) in steps;
      assert SendDelete(a.client, true, reply) in steps + [step];
    }
  }

  /** What one step adds to the log was asked for. */
  lemma {:induction false} StepAsked(steps: seq<Step>, s: System, step: Step)
    requires Follows(steps, s) && Enabled(s, step)
    ensures forall a <- After(s, step).applied :: Asked(steps + [step], a)
  {
    var all := steps + [step];
    forall a | a in After(s, step).applied ensures Asked(all, a) {
      if a in s.applied {
        AskedOn(steps, step, a);
      } else {
        assert step in all;
        var c := s.clients[step.id];
        assert Begin(step.id, Doing(c)) in all;
        assert step.SendPut? ==> SendPut(a.client, true, a.left.value.etag, step.reply) in all;
        assert step.SendDelete? ==> SendDelete(a.client, true, step.reply) in all;
      }
    }
  }

  lemma {:induction false} FollowsStep(steps: seq<Step>, s: System, step: Step)
    requires Follows(steps, s) && Enabled(s, step)
    ensures Follows(steps + [step], After(s, step))
  {
    var all, t := steps + [step], After(s, step);
    StepAsked(steps, s, step);
    forall id, op | Begin(id, op) in all ensures Begin(id, op) in steps || step == Begin(id, op) {
    }
    forall id | id in t.clients && !t.clients[id].Finished? ensures Begin(id, Doing(t.clients[id])) in all {
      if step.Begin? && step.id == id {
        assert step in all;
      } else {
        assert id in s.clients && Doing(t.clients[id]) == Doing(s.clients[id]);
      }
    }
  }

  lemma {:induction false} FollowsRun(past: seq<Step>, s: System, steps: seq<Step>, t: System)
    requires Follows(past, s) && Runs(s, steps, t)
    ensures Follows(past + steps, t)
    decreases |steps|
  {
    if steps == [] {
      assert past + steps == past;
    } else {
      FollowsStep(past, s, steps[0]);
      FollowsRun(past + [steps[0]], After(s, steps[0]), steps[1..], t);
      assert past + [steps[0]] + steps[1..] == past + steps;
    }
  }

  /** In every run, each write that took effect was begun by its own client, with this resource,
      this condition and, for an update or a create, this very body, and was then sent. */
  lemma {:induction false} AppliedAsAsked(steps: seq<Step>, t: System)
    requires Runs(START, steps, t)
    ensures forall a <- t.applied :: Asked(steps, a)
  {
    FollowsRun([], START, steps, t);
    assert [] + steps == steps;
  }

  /** This applied write is the operation, carried out. */
  predicate Performs(a: Applied, id: ClientId, op: Client) {
    && a.client == id
    && match op
       case Writing(url, condition, body) =>
         a.url == url && a.condition == condition && a.left.Some? && a.left.value.body == body
       case Deleting(url, etag) => a.url == url && a.condition == IfMatch(etag) && a.left.None?
       case _ => false
  }

  /** A client told that it succeeded had its own operation carried out, with its own body. */
  lemma {:induction false} SuccessIsOwn(steps: seq<Step>, t: System, id: ClientId, op: Client)
    requires Runs(START, steps, t) && Begin(id, op) in steps
    ensures id in t.clients
    ensures t.clients[id] == Finished(Succeeded) ==> exists a <- t.applied :: Performs(a, id, op)
  {
    FollowsRun([], START, steps, t);
    assert [] + steps == steps;
    assert Reachable(t);
    if t.clients[id] == Finished(Succeeded) {
      OutcomesAreHonest(t, id);
      var i :| 0 <= i < |t.applied| && t.applied[i].client == id;
      assert Asked(steps, t.applied[i]);
      assert Performs(t.applied[i], id, op);
    }
  }

  // ---------- What nobody disturbs succeeds ----------

  /** A strong tag: printable characters other than the quote, in quotes. */
  predicate QuotedTag(etag: ETag, inner: string) {
    etag == "\"" + inner + "\"" && forall c <- inner :: c == '!' || '#' <= c <= '~'
  }

  lemma {:induction false} QuotedIsConcrete(etag: ETag, inner: string)
    requires QuotedTag(etag, inner)
    ensures ConcreteStrong(etag)
  {
    forall i | 1 <= i < |etag| - 1 ensures var n := etag[i] as int; n == 0x21 || 0x23 <= n <= 0x7e {
      assert etag[i] == inner[i - 1] && inner[i - 1] in inner;
    }
  }

  lemma {:induction false} TwoSteps(s: System, a: Step, b: Step)
    requires Enabled(s, a) && Enabled(After(s, a), b)
    ensures Runs(s, [a, b], After(After(s, a), b))
  {
    assert [a, b][1..] == [b] && [b][1..] == [];
    assert Runs(After(s, a), [b], After(After(s, a), b));
  }

  /** The state after a client begins a write and sends it, and the server answers with this status. */
  ghost function AfterPut(s: System, id: ClientId, op: Client, tag: ETag, status: int): System
    requires id !in s.clients && op.Writing? && Fresh(s, op.url, tag)
    requires Honest(Holds(op.condition, Current(s, op.url)), Some(status))
  {
    After(After(s, Begin(id, op)), SendPut(id, true, tag, Some(status)))
  }

  /** An update of the version that is there, and a create where nothing is, put the body there
      and tell the client so. */
  lemma {:induction false} UndisturbedPutSucceeds(s: System, id: ClientId, op: Client, inner: string, tag: ETag,
                                                  status: int)
    requires id !in s.clients && op.Writing? && Fresh(s, op.url, tag) && 200 <= status < 300
    requires op.condition.IfMatch? ==>
      op.url in s.store && s.store[op.url].etag == op.condition.etag && QuotedTag(op.condition.etag, inner)
    requires op.condition.IfNoneMatchAny? ==> op.url !in s.store
    ensures Honest(Holds(op.condition, Current(s, op.url)), Some(status))
    ensures var t := AfterPut(s, id, op, tag, status);
      && Runs(s, [Begin(id, op), SendPut(id, true, tag, Some(status))], t)
      && Current(t, op.url) == Some(Resource(tag, op.body))
      && id in t.clients && t.clients[id] == Finished(Succeeded)
  {
    if op.condition.IfMatch? {
      QuotedIsConcrete(op.condition.etag, inner);
    }
    TwoSteps(s, Begin(id, op), SendPut(id, true, tag, Some(status)));
  }

  /** A write whose condition names another version is refused: nothing is stored, and a server that
      answers 409 or 412 makes the client say so. */
  lemma {:induction false} StalePutIsRefused(s: System, id: ClientId, op: Client, tag: ETag, status: int)
    requires id !in s.clients && op.Writing? && Fresh(s, op.url, tag) && (status == 409 || status == 412)
    requires op.condition.IfMatch? && op.url in s.store ==> s.store[op.url].etag != op.condition.etag
    requires op.condition.IfNoneMatchAny? ==> op.url in s.store
    ensures Honest(Holds(op.condition, Current(s, op.url)), Some(status))
    ensures var t := AfterPut(s, id, op, tag, status);
      && Runs(s, [Begin(id, op), SendPut(id, true, tag, Some(status))], t)
      && t.store == s.store && t.applied == s.applied
      && id in t.clients && t.clients[id] == Finished(EtagConflict)
  {
    TwoSteps(s, Begin(id, op), SendPut(id, true, tag, Some(status)));
  }

  lemma {:induction false} DeleteJudged(s: System, id: ClientId, url: Url)
    requires id !in s.clients && url in s.store && ConcreteStrong(s.store[url].etag) && Safe(s.store[url].body)
    ensures var u := After(s, Begin(id, Deleting(url, s.store[url].etag)));
      Enabled(u, Get(id, true)) && After(u, Get(id, true)).store == s.store
      && After(u, Get(id, true)).clients == s.clients[id := Holding(url, s.store[url].etag, s.store[url].body)]
  {
  }

  /** A gateway delete of one complete series under its current tag: read, judged, and removed. */
  lemma {:induction false} UndisturbedDeleteSucceeds(s: System, id: ClientId, url: Url, inner: string, status: int)
    requires id !in s.clients && url in s.store && QuotedTag(s.store[url].etag, inner) && Safe(s.store[url].body)
    requires 200 <= status < 300
    ensures var begin := Begin(id, Deleting(url, s.store[url].etag));
      && Enabled(After(s, begin), Get(id, true))
      && var judged := After(After(s, begin), Get(id, true));
      && Enabled(judged, SendDelete(id, true, Some(status)))
      && var t := After(judged, SendDelete(id, true, Some(status)));
         Current(t, url) == None && id in t.clients && t.clients[id] == Finished(Succeeded)
  {
    QuotedIsConcrete(s.store[url].etag, inner);
    DeleteJudged(s, id, url);
  }

  // ---------- No update is lost ----------

  /** What a resource holds after these applied writes, if nobody else touches it. */
  function Latest(before: Option<Resource>, log: seq<Applied>, url: Url): Option<Resource> {
    if log == [] then before
    else if log[|log| - 1].url == url then log[|log| - 1].left
    else Latest(before, log[..|log| - 1], url)
  }

  predicate Foreign(step: Step, url: Url) {
    (step.ForeignPut? || step.ForeignDelete?) && step.url == url
  }

  /** Every write in the log replaced exactly what the write before it on that resource left. */
  predicate Chained(before: Option<Resource>, log: seq<Applied>, url: Url) {
    forall i :: 0 <= i < |log| && log[i].url == url ==> log[i].replaced == Latest(before, log[..i], url)
  }

  lemma {:induction false} LatestAfter(before: Option<Resource>, first: seq<Applied>, rest: seq<Applied>, url: Url)
    ensures Latest(before, first + rest, url) == Latest(Latest(before, first, url), rest, url)
  {
    if rest == [] {
      assert first + rest == first;
    } else {
      var n := |rest| - 1;
      assert (first + rest)[..|first + rest| - 1] == first + rest[..n];
      LatestAfter(before, first, rest[..n], url);
    }
  }

  lemma {:induction false} ChainedConcat(before: Option<Resource>, first: seq<Applied>, rest: seq<Applied>, url: Url)
    requires Chained(before, first, url) && Chained(Latest(before, first, url), rest, url)
    ensures Chained(before, first + rest, url)
  {
    var log := first + rest;
    forall i | 0 <= i < |log| && log[i].url == url ensures log[i].replaced == Latest(before, log[..i], url) {
      if i < |first| {
        assert log[..i] == first[..i];
      } else {
        assert log[..i] == first + rest[..i - |first|];
        LatestAfter(before, first, rest[..i - |first|], url);
        assert log[i] == rest[i - |first|];
      }
    }
  }

  /** One step that is not foreign to the resource adds at most one write, and chains it. */
  lemma {:induction false} StepChains(s: System, step: Step, url: Url) returns (log: seq<Applied>)
    requires Enabled(s, step) && !Foreign(step, url)
    ensures After(s, step).applied == s.applied + log
    ensures Chained(Current(s, url), log, url)
    ensures Current(After(s, step), url) == Latest(Current(s, url), log, url)
  {
    var t := After(s, step);
    log := t.applied[|s.applied|..];
    if |log| > 0 {
      assert log == [log[0]] && log[..0] == [];
    }
  }

  /** While nobody else touches a resource, its log of applied writes is a chain that ends in what
      it holds. */
  lemma {:induction false} RunsChain(s: System, steps: seq<Step>, t: System, url: Url) returns (log: seq<Applied>)
    requires Runs(s, steps, t) && forall step <- steps :: !Foreign(step, url)
    ensures t.applied == s.applied + log
    ensures Chained(Current(s, url), log, url)
    ensures Current(t, url) == Latest(Current(s, url), log, url)
    decreases |steps|
  {
    if steps == [] {
      log := [];
      assert s.applied + log == s.applied;
    } else {
      assert steps[0] in steps;
      var first := StepChains(s, steps[0], url);
      var rest := RunsChain(After(s, steps[0]), steps[1..], t, url);
      log := first + rest;
      assert s.applied + first + rest == s.applied + log;
      LatestAfter(Current(s, url), first, rest, url);
      ChainedConcat(Current(s, url), first, rest, url);
    }
  }

  /** The condition names this version by its tag, or names that there is none. */
  predicate Names(condition: Condition, version: Option<Resource>) {
    match condition
    case IfMatch(etag) => version.Some? && version.value.etag == etag
    case IfNoneMatchAny => version.None?
  }

  /** What the write numbered `i` left is replaced later by a write that names it. */
  predicate Superseded(log: seq<Applied>, i: nat, url: Url)
    requires i < |log|
  {
    exists j :: i < j < |log| && log[j].url == url && Names(log[j].condition, log[i].left)
  }

  /** Without writes in between, a resource goes on holding what the last one left. */
  lemma {:induction false} LatestStays(before: Option<Resource>, log: seq<Applied>, i: nat, j: nat, url: Url)
    requires i < j <= |log| && log[i].url == url && forall k :: i < k < j ==> log[k].url != url
    ensures Latest(before, log[..j], url) == log[i].left
    decreases j
  {
    assert log[..j][..j - 1] == log[..j - 1];
    if i + 1 < j {
      LatestStays(before, log, i, j - 1, url);
    }
  }

  /** The first write to the resource after `i`, if there is one. */
  lemma {:induction false} NextWrite(log: seq<Applied>, i: nat, url: Url) returns (j: nat)
    requires i < |log|
    ensures i < j <= |log| && (j < |log| ==> log[j].url == url) && forall k :: i < k < j ==> log[k].url != url
  {
    j := i + 1;
    while j < |log| && log[j].url != url
      invariant i < j <= |log| && forall k :: i < k < j ==> log[k].url != url
    {
      j := j + 1;
    }
  }

  lemma {:induction false} RunsOn(s: System, first: seq<Step>, u: System, rest: seq<Step>, t: System)
    requires Runs(s, first, u) && Runs(u, rest, t)
    ensures Runs(s, first + rest, t)
    decreases |first|
  {
    if first == [] {
      assert first + rest == rest;
    } else {
      assert (first + rest)[1..] == first[1..] + rest;
      RunsOn(After(s, first[0]), first[1..], u, rest, t);
    }
  }

  /** No update is lost. While nobody writes a resource except through conditional writes, every
      write that takes effect was asked for by its client, with the body it left; it names the
      very version that the write before it left; no two of them name the same tag; and what a
      write left is what the resource holds in the end, unless a later write that names it
      replaced it. */
  lemma {:induction false} NoUpdateIsLost(past: seq<Step>, s: System, steps: seq<Step>, t: System, url: Url)
    returns (log: seq<Applied>)
    requires Runs(START, past, s) && Runs(s, steps, t) && forall step <- steps :: !Foreign(step, url)
    ensures t.applied == s.applied + log && Current(t, url) == Latest(Current(s, url), log, url)
    ensures forall a <- log :: Asked(past + steps, a)
    ensures forall i :: 0 <= i < |log| && log[i].url == url ==>
      Names(log[i].condition, Latest(Current(s, url), log[..i], url))
    ensures DistinctTargets(log)
    ensures forall i :: 0 <= i < |log| && log[i].url == url ==>
      Current(t, url) == log[i].left || Superseded(log, i, url)
  {
    log := RunsChain(s, steps, t, url);
    RunsOn(START, past, s, steps, t);
    AppliedAsAsked(past + steps, t);
    assert forall a <- log :: a in t.applied;
    ReachableInv(s);
    InvRuns(s, steps, t);
    SoundLog(s, t, url, log);
    KeptOrSuperseded(s, t, url, log);
  }

  /** Of a sound log that is a chain: each write names the latest version, and once only. */
  lemma {:induction false} SoundLog(s: System, t: System, url: Url, log: seq<Applied>)
    requires Inv(t) && t.applied == s.applied + log && Chained(Current(s, url), log, url)
    ensures forall i :: 0 <= i < |log| && log[i].url == url ==>
      Names(log[i].condition, Latest(Current(s, url), log[..i], url))
    ensures DistinctTargets(log)
  {
    var n := |s.applied|;
    forall i | 0 <= i < |log| ensures log[i] == t.applied[n + i] && Sound(t, log[i]) {
    }
  }

  lemma {:induction false} KeptOrSuperseded(s: System, t: System, url: Url, log: seq<Applied>)
    requires Current(t, url) == Latest(Current(s, url), log, url)
    requires forall i :: 0 <= i < |log| && log[i].url == url ==>
      Names(log[i].condition, Latest(Current(s, url), log[..i], url))
    ensures forall i :: 0 <= i < |log| && log[i].url == url ==>
      Current(t, url) == log[i].left || Superseded(log, i, url)
  {
    forall i | 0 <= i < |log| && log[i].url == url ensures Current(t, url) == log[i].left || Superseded(log, i, url) {
      var j := NextWrite(log, i, url);
      LatestStays(Current(s, url), log, i, j, url);
      assert log[..|log|] == log;
    }
  }
}
