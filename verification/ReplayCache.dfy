/** The server's memory of nonces: how long it refuses a repeated one, and exactly when that is
    long enough for a signed request to be served at most once. */
module ReplayCache {
  import opened Common

  const MAX_CLOCK_SKEW_SECONDS := 30
  const NONCE_LIFETIME_MS := 60_000
  const MAX_NONCE_ENTRIES := 10_000
  const NONCE_CLEANUP_INTERVAL_MS := 1_000

  /** Expiry times in milliseconds by nonce, and when the next clean-up is due. */
  datatype Cache = Cache(nonces: map<string, int>, nextCleanupAt: int)

  const EMPTY := Cache(map[], 0)

  function Kept(nonces: map<string, int>, now: int): map<string, int> {
    map n | n in nonces && nonces[n] > now :: nonces[n]
  }

  function CleanedUp(c: Cache, now: int): Cache {
    if now < c.nextCleanupAt then c else Cache(Kept(c.nonces, now), now + NONCE_CLEANUP_INTERVAL_MS)
  }

  predicate Accepts(c: Cache, nonce: string, now: int) {
    var d := CleanedUp(c, now);
    nonce !in d.nonces && |d.nonces| < MAX_NONCE_ENTRIES
  }

  function AfterConsume(c: Cache, nonce: string, now: int): Cache {
    var d := CleanedUp(c, now);
    if Accepts(c, nonce, now) then d.(nonces := d.nonces[nonce := now + NONCE_LIFETIME_MS]) else d
  }

  class CallbackReplayCache {
    var nonces: map<string, int>
    var nextCleanupAt: int

    constructor ()
      ensures Value() == EMPTY
    {
      nonces, nextCleanupAt := map[], 0;
    }

    function Value(): Cache
      reads this
    {
      Cache(nonces, nextCleanupAt)
    }

    method Consume(nonce: string, now: int) returns (ok: bool)
      modifies this
      ensures ok <==> Accepts(old(Value()), nonce, now)
      ensures Value() == AfterConsume(old(Value()), nonce, now)
    {
      Cleanup(now);
      if nonce in nonces || |nonces| >= MAX_NONCE_ENTRIES {
        return false;
      }
      nonces := nonces[nonce := now + NONCE_LIFETIME_MS];
      ok := true;
    }

    method Cleanup(now: int)
      modifies this
      ensures Value() == CleanedUp(old(Value()), now)
    {
      if now < nextCleanupAt {
        return;
      }
      var todo := nonces.Keys;
      while todo != {}
        invariant todo <= old(nonces).Keys && nonces.Keys <= old(nonces).Keys
        invariant forall n <- nonces :: nonces[n] == old(nonces)[n]
        invariant forall n <- old(nonces) :: n in nonces <==> n in todo || old(nonces)[n] > now
        modifies `nonces
      {
        var nonce :| nonce in todo;
        if nonces[nonce] <= now {
          nonces := nonces - {nonce};
        }
        todo := todo - {nonce};
      }
      nextCleanupAt := now + NONCE_CLEANUP_INTERVAL_MS;
    }
  }

  // ---------- Runs of the cache ----------

  datatype Call = Call(nonce: string, now: int)

  /** The calls come in the order of their times, none before `from`. */
  predicate InTime(from: int, calls: seq<Call>) {
    forall i :: 0 <= i < |calls| ==> (if i == 0 then from else calls[i - 1].now) <= calls[i].now
  }

  function AfterCalls(c: Cache, calls: seq<Call>): Cache
    decreases |calls|
  {
    if calls == [] then c else AfterCalls(AfterConsume(c, calls[0].nonce, calls[0].now), calls[1..])
  }

  /** Until it expires, a remembered nonce stays remembered, whatever else is asked. */
  lemma {:induction false} NonceStays(c: Cache, nonce: string, from: int, calls: seq<Call>, until: int)
    requires nonce in c.nonces && c.nonces[nonce] == until
    requires InTime(from, calls) && forall call <- calls :: call.now < until
    ensures nonce in AfterCalls(c, calls).nonces && AfterCalls(c, calls).nonces[nonce] == until
    decreases |calls|
  {
    if calls != [] {
      assert calls[0] in calls;
      var d := AfterConsume(c, calls[0].nonce, calls[0].now);
      assert nonce in CleanedUp(c, calls[0].now).nonces;
      var rest := calls[1..];
      forall i | 0 <= i < |rest| ensures (if i == 0 then calls[0].now else rest[i - 1].now) <= rest[i].now {
        assert rest[i] == calls[i + 1];
      }
      NonceStays(d, nonce, calls[0].now, rest, until);
    }
  }

  /** A timestamp in seconds is acceptable at a time in milliseconds. */
  predicate Timely(timestamp: nat, now: nat) {
    -MAX_CLOCK_SKEW_SECONDS <= now / 1000 - timestamp <= MAX_CLOCK_SKEW_SECONDS
  }

  /** The same signed request is served at `first` and, after other calls, again at `second`. */
  ghost predicate ServedTwice(c: Cache, timestamp: nat, nonce: string, first: nat, calls: seq<Call>, second: nat) {
    && Timely(timestamp, first) && Accepts(c, nonce, first)
    && InTime(first, calls) && first <= second && (forall call <- calls :: call.now <= second)
    && Timely(timestamp, second) && Accepts(AfterCalls(AfterConsume(c, nonce, first), calls), nonce, second)
  }

  /** Whoever serves a request twice does so a whole lifetime later. */
  lemma {:induction false} SecondServiceIsLate(c: Cache, timestamp: nat, nonce: string, first: nat, calls: seq<Call>,
                                               second: nat)
    requires ServedTwice(c, timestamp, nonce, first, calls, second)
    ensures second >= first + NONCE_LIFETIME_MS
  {
    var until := first + NONCE_LIFETIME_MS;
    if second < until {
      NonceStays(AfterConsume(c, nonce, first), nonce, first, calls, until);
    }
  }

  /** The remembered time spans the acceptable time unless the request came in the very first
      acceptable second. Then, and only then, a later attempt can be served again. */
  lemma {:induction false} ServedAtMostOnceExactly(timestamp: nat, nonce: string, first: nat)
    requires Timely(timestamp, first)
    ensures (forall c, calls, second :: !ServedTwice(c, timestamp, nonce, first, calls, second))
      <==> first / 1000 > timestamp - MAX_CLOCK_SKEW_SECONDS
  {
    if first / 1000 > timestamp - MAX_CLOCK_SKEW_SECONDS {
      forall c, calls, second ensures !ServedTwice(c, timestamp, nonce, first, calls, second) {
        if ServedTwice(c, timestamp, nonce, first, calls, second) {
          SecondServiceIsLate(c, timestamp, nonce, first, calls, second);
        }
      }
    } else {
      var second := first + NONCE_LIFETIME_MS;
      assert second / 1000 == first / 1000 + 60;
      assert CleanedUp(EMPTY, first).nonces == map[];
      var once := AfterConsume(EMPTY, nonce, first);
      assert once.nonces == map[nonce := second];
      assert CleanedUp(once, second).nonces == map[];
      assert AfterCalls(once, []) == once;
      assert ServedTwice(EMPTY, timestamp, nonce, first, [], second);
    }
  }
}
