/** The mutually authenticated policy callback between the calendar store and the server:
    what is signed, and what a call may believe when the network delays, repeats or swaps
    answers. The MAC is ideal: a tag verifies for a message only if a key holder signed it. */
module Callback {
  import opened Common

  const AUTH_PATH := "/v1/private-calendar-client-callback/auth"
  const RIGHTS_PATH := "/v1/private-calendar-client-callback/rights"
  const MAX_CALLBACK_BODY_BYTES := 16 * 1024

  // ---------- What is signed ----------

  predicate Clean(field: string) {
    '\n' !in field
  }

  predicate AllClean(fields: seq<string>) {
    forall i :: 0 <= i < |fields| ==> Clean(fields[i])
  }

  function Lines(fields: seq<string>): string {
    Join(fields, "\n")
  }

  function RequestMessage(path: string, timestamp: string, nonce: string, bodyHash: string): string {
    Lines(["mcw-private-callback-v1", "POST", path, timestamp, nonce, bodyHash])
  }

  function ResponseMessage(status: nat, path: string, nonce: string, bodyHash: string): string {
    Lines(["mcw-private-callback-response-v1", Digits(status), path, nonce, bodyHash])
  }

  /** The signed texts, line by line. */
  lemma {:induction false} MessageTexts(path: string, timestamp: string, nonce: string, hash: string, status: nat)
    ensures RequestMessage(path, timestamp, nonce, hash)
         == "mcw-private-callback-v1" + "\n"
            + ("POST" + "\n" + (path + "\n" + (timestamp + "\n" + (nonce + "\n" + hash))))
    ensures ResponseMessage(status, path, nonce, hash)
         == "mcw-private-callback-response-v1" + "\n"
            + (Digits(status) + "\n" + (path + "\n" + (nonce + "\n" + hash)))
  {
    LinesOfFour(path, timestamp, nonce, hash);
    LinesStep("POST", [path, timestamp, nonce, hash]);
    LinesStep("mcw-private-callback-v1", ["POST", path, timestamp, nonce, hash]);
    assert ["POST"] + [path, timestamp, nonce, hash] == ["POST", path, timestamp, nonce, hash];
    assert ["mcw-private-callback-v1"] + ["POST", path, timestamp, nonce, hash]
        == ["mcw-private-callback-v1", "POST", path, timestamp, nonce, hash];
    assert ["mcw-private-callback-response-v1"] + [Digits(status), path, nonce, hash]
        == ["mcw-private-callback-response-v1", Digits(status), path, nonce, hash];
    LinesOfFour(Digits(status), path, nonce, hash);
    LinesStep("mcw-private-callback-response-v1", [Digits(status), path, nonce, hash]);
  }

  lemma {:induction false} LinesStep(first: string, rest: seq<string>)
    requires rest != []
    ensures Lines([first] + rest) == first + "\n" + Lines(rest)
  {
    assert ([first] + rest)[1..] == rest;
  }

  lemma {:induction false} LinesOfFour(a: string, b: string, c: string, d: string)
    ensures Lines([a, b, c, d]) == a + "\n" + (b + "\n" + (c + "\n" + d))
  {
    LinesStep(a, [b, c, d]);
    LinesStep(b, [c, d]);
    LinesStep(c, [d]);
    assert [a] + [b, c, d] == [a, b, c, d] && [b] + [c, d] == [b, c, d] && [c] + [d] == [c, d];
  }

  lemma {:induction false} SameFirstLine(a: string, x: string, b: string, y: string)
    requires Clean(a) && Clean(b) && a + ("\n" + x) == b + ("\n" + y)
    ensures a == b && x == y
  {
    var u := a + ("\n" + x);
    assert u[|a|] == '\n' && u[|b|] == '\n';
    if |a| < |b| {
      assert false;
    }
    if |b| < |a| {
      assert false;
    }
    assert a == u[..|a|] == b;
    assert x == u[|a| + 1..] == y;
  }

  lemma {:induction false} CleanHasOneLine(a: string, b: string, y: string)
    requires Clean(a)
    ensures a != b + ("\n" + y)
  {
    assert (b + ("\n" + y))[|b|] == '\n';
  }

  /** A text of lines says how many there are and what each of them is. */
  lemma {:induction false} LinesInjective(a: seq<string>, b: seq<string>)
    requires a != [] && b != [] && AllClean(a) && AllClean(b) && Lines(a) == Lines(b)
    ensures a == b
  {
    assert Clean(a[0]) && Clean(b[0]);
    if |a| == 1 && |b| > 1 {
      CleanHasOneLine(a[0], b[0], Lines(b[1..]));
    } else if |b| == 1 && |a| > 1 {
      CleanHasOneLine(b[0], a[0], Lines(a[1..]));
    } else if |a| > 1 {
      assert Lines(a) == a[0] + ("\n" + Lines(a[1..]));
      assert Lines(b) == b[0] + ("\n" + Lines(b[1..]));
      SameFirstLine(a[0], Lines(a[1..]), b[0], Lines(b[1..]));
      LinesInjective(a[1..], b[1..]);
      assert a == [a[0]] + a[1..] && b == [b[0]] + b[1..];
    }
  }

  lemma {:induction false} DigitsClean(n: nat)
    ensures Clean(Digits(n))
  {
    var d := Digits(n);
    forall i | 0 <= i < |d| ensures d[i] != '\n' {
      assert IsDigit(d[i]);
    }
  }

  lemma {:induction false} RequestFields(p1: string, t1: string, n1: string, h1: string, p2: string, t2: string,
                                         n2: string, h2: string)
    requires AllClean([p1, t1, n1, h1]) && AllClean([p2, t2, n2, h2])
    ensures RequestMessage(p1, t1, n1, h1) == RequestMessage(p2, t2, n2, h2)
      <==> p1 == p2 && t1 == t2 && n1 == n2 && h1 == h2
  {
    if RequestMessage(p1, t1, n1, h1) == RequestMessage(p2, t2, n2, h2) {
      var a := ["mcw-private-callback-v1", "POST", p1, t1, n1, h1];
      var b := ["mcw-private-callback-v1", "POST", p2, t2, n2, h2];
      CleanTail("mcw-private-callback-v1", "POST", [p1, t1, n1, h1], a);
      CleanTail("mcw-private-callback-v1", "POST", [p2, t2, n2, h2], b);
      LinesInjective(a, b);
      assert a[2] == b[2] && a[3] == b[3] && a[4] == b[4] && a[5] == b[5];
    }
  }

  lemma {:induction false} CleanTail(first: string, second: string, rest: seq<string>, all: seq<string>)
    requires Clean(first) && Clean(second) && AllClean(rest) && all == [first, second] + rest
    ensures AllClean(all)
  {
    forall i | 0 <= i < |all| ensures Clean(all[i]) {
      assert i >= 2 ==> all[i] == rest[i - 2];
    }
  }

  lemma {:induction false} ResponseFields(s1: nat, p1: string, n1: string, h1: string, s2: nat, p2: string, n2: string,
                                          h2: string)
    requires AllClean([p1, n1, h1]) && AllClean([p2, n2, h2])
    ensures ResponseMessage(s1, p1, n1, h1) == ResponseMessage(s2, p2, n2, h2)
      <==> s1 == s2 && p1 == p2 && n1 == n2 && h1 == h2
  {
    if ResponseMessage(s1, p1, n1, h1) == ResponseMessage(s2, p2, n2, h2) {
      var a := ["mcw-private-callback-response-v1", Digits(s1), p1, n1, h1];
      var b := ["mcw-private-callback-response-v1", Digits(s2), p2, n2, h2];
      DigitsClean(s1);
      DigitsClean(s2);
      CleanTail("mcw-private-callback-response-v1", Digits(s1), [p1, n1, h1], a);
      CleanTail("mcw-private-callback-response-v1", Digits(s2), [p2, n2, h2], b);
      LinesInjective(a, b);
      assert a[1] == b[1] && a[2] == b[2] && a[3] == b[3] && a[4] == b[4];
      DigitsValue(s1);
      DigitsValue(s2);
    }
  }

  /** No request can pass for a response, nor a response for a request. */
  lemma {:induction false} RequestsAreNotResponses(p1: string, t1: string, n1: string, h1: string, s2: nat, p2: string,
                                                   n2: string, h2: string)
    requires AllClean([p1, t1, n1, h1]) && AllClean([p2, n2, h2])
    ensures RequestMessage(p1, t1, n1, h1) != ResponseMessage(s2, p2, n2, h2)
  {
    if RequestMessage(p1, t1, n1, h1) == ResponseMessage(s2, p2, n2, h2) {
      var a := ["mcw-private-callback-v1", "POST", p1, t1, n1, h1];
      var b := ["mcw-private-callback-response-v1", Digits(s2), p2, n2, h2];
      DigitsClean(s2);
      CleanTail("mcw-private-callback-v1", "POST", [p1, t1, n1, h1], a);
      CleanTail("mcw-private-callback-response-v1", Digits(s2), [p2, n2, h2], b);
      LinesInjective(a, b);
    }
  }

  // ---------- Nonces ----------

  function Base64Char(n: nat): char
    requires n < 64
  {
    if n < 26 then ('A' as int + n) as char
    else if n < 52 then ('a' as int + n - 26) as char
    else if n < 62 then ('0' as int + n - 52) as char
    else if n == 62 then '-'
    else '_'
  }

  predicate IsBase64(c: char) {
    'A' <= c <= 'Z' || 'a' <= c <= 'z' || '0' <= c <= '9' || c == '-' || c == '_'
  }

  /** URL-safe base64 without padding. */
  function Base64(raw: seq<Byte>): (r: string)
    ensures forall i :: 0 <= i < |r| ==> IsBase64(r[i])
    ensures |r| == (|raw| * 4 + 2) / 3
  {
    if raw == [] then ""
    else if |raw| == 1 then [Base64Char(raw[0] / 4), Base64Char(raw[0] % 4 * 16)]
    else if |raw| == 2 then
      [Base64Char(raw[0] / 4), Base64Char(raw[0] % 4 * 16 + raw[1] / 16), Base64Char(raw[1] % 16 * 4)]
    else
      [Base64Char(raw[0] / 4), Base64Char(raw[0] % 4 * 16 + raw[1] / 16),
       Base64Char(raw[1] % 16 * 4 + raw[2] / 64), Base64Char(raw[2] % 64)] + Base64(raw[3..])
  }

  lemma {:induction false} Base64CharInjective(m: nat, n: nat)
    requires m < 64 && n < 64 && Base64Char(m) == Base64Char(n)
    ensures m == n
  {
  }

  lemma {:induction false} GroupInjective(a: Byte, b: Byte, c: Byte, x: Byte, y: Byte, z: Byte)
    requires a / 4 == x / 4 && a % 4 * 16 + b / 16 == x % 4 * 16 + y / 16
    requires b % 16 * 4 + c / 64 == y % 16 * 4 + z / 64 && c % 64 == z % 64
    ensures a == x && b == y && c == z
  {
    assert b / 16 < 16 && y / 16 < 16 && c / 64 < 4 && z / 64 < 4;
  }

  lemma {:induction false} SameGroup(raw: seq<Byte>, other: seq<Byte>)
    requires |raw| == |other| >= 3 && Base64(raw) == Base64(other)
    ensures raw[0] == other[0] && raw[1] == other[1] && raw[2] == other[2]
    ensures Base64(raw[3..]) == Base64(other[3..])
  {
    var r, o := Base64(raw), Base64(other);
    assert r[4..] == Base64(raw[3..]) && o[4..] == Base64(other[3..]);
    assert r[0] == o[0] && r[1] == o[1] && r[2] == o[2] && r[3] == o[3];
    Base64CharInjective(raw[0] / 4, other[0] / 4);
    Base64CharInjective(raw[0] % 4 * 16 + raw[1] / 16, other[0] % 4 * 16 + other[1] / 16);
    Base64CharInjective(raw[1] % 16 * 4 + raw[2] / 64, other[1] % 16 * 4 + other[2] / 64);
    Base64CharInjective(raw[2] % 64, other[2] % 64);
    GroupInjective(raw[0], raw[1], raw[2], other[0], other[1], other[2]);
  }

  lemma {:induction false} SameRemainder(raw: seq<Byte>, other: seq<Byte>)
    requires |raw| == |other| < 3 && Base64(raw) == Base64(other)
    ensures raw == other
  {
    var r, o := Base64(raw), Base64(other);
    if |raw| == 2 {
      assert r[0] == o[0] && r[1] == o[1] && r[2] == o[2];
      Base64CharInjective(raw[0] / 4, other[0] / 4);
      Base64CharInjective(raw[0] % 4 * 16 + raw[1] / 16, other[0] % 4 * 16 + other[1] / 16);
      Base64CharInjective(raw[1] % 16 * 4, other[1] % 16 * 4);
      GroupInjective(raw[0], raw[1], 0, other[0], other[1], 0);
    } else if |raw| == 1 {
      assert r[0] == o[0] && r[1] == o[1];
      Base64CharInjective(raw[0] / 4, other[0] / 4);
      Base64CharInjective(raw[0] % 4 * 16, other[0] % 4 * 16);
    }
  }

  /** Different random bytes are different nonces. */
  lemma {:induction false} Base64Injective(raw: seq<Byte>, other: seq<Byte>)
    requires |raw| == |other| && Base64(raw) == Base64(other)
    ensures raw == other
  {
    if |raw| < 3 {
      SameRemainder(raw, other);
    } else {
      SameGroup(raw, other);
      Base64Injective(raw[3..], other[3..]);
      assert raw == [raw[0], raw[1], raw[2]] + raw[3..];
      assert other == [other[0], other[1], other[2]] + other[3..];
    }
  }

  // ---------- One exchange ----------

  /** An answer as it comes off the network; its signature is the tag of some message, or junk. */
  datatype Reply = Raised | Reply(code: nat, body: string, signature: Option<string>)

  datatype Client = Client(origin: Option<string>, key: Option<seq<Byte>>) {
    predicate Configured() {
      origin.Some? && origin.value != "" && key.Some? && |key.value| == 32
    }
  }

  /** What the call makes of an answer to its own path and nonce. */
  function Judge(digest: string -> string, path: string, nonce: string, reply: Reply): Option<string> {
    if reply.Raised? || reply.code != 200 || |reply.body| > MAX_CALLBACK_BODY_BYTES then None
    else if reply.signature != Some(ResponseMessage(200, path, nonce, digest(reply.body))) then None
    else Some(reply.body)
  }

  /** The exchange up to the parsing of the body: what was signed and sent, and what is believed. */
  method Request(client: Client, digest: string -> string, path: string, body: string, nonceRaw: seq<Byte>, now: int,
                 reply: Reply)
    returns (sent: Option<string>, believed: Option<string>)
    ensures sent.Some? <==> client.Configured() && |body| <= MAX_CALLBACK_BODY_BYTES && |nonceRaw| == 16
    ensures sent.Some? ==> sent.value == RequestMessage(path, Decimal(now), Base64(nonceRaw), digest(body))
    ensures believed == if sent.None? then None else Judge(digest, path, Base64(nonceRaw), reply)
  {
    sent, believed := None, None;
    if !client.Configured() { return; }
    if |body| > MAX_CALLBACK_BODY_BYTES { return; }
    if |nonceRaw| != 16 { return; }
    var nonce := Base64(nonceRaw);
    sent := Some(RequestMessage(path, Decimal(now), nonce, digest(body)));
    if reply.Raised? { return; }
    if reply.code != 200 { return; }
    var read := if |reply.body| > MAX_CALLBACK_BODY_BYTES + 1
      then reply.body[..MAX_CALLBACK_BODY_BYTES + 1] else reply.body;
    if |read| > MAX_CALLBACK_BODY_BYTES { return; }
    var expected := ResponseMessage(200, path, nonce, digest(read));
    if reply.signature != Some(expected) { return; }
    believed := Some(read);
  }

  // ---------- Many calls, one server, any network ----------

  datatype Call = Call(path: string, timestamp: string, nonce: string, body: string, outcome: Option<Option<string>>)

  /** The server answered a request it found signed. */
  datatype Served = Served(path: string, nonce: string, request: string, response: string)

  datatype State = State(signed: set<string>, calls: map<nat, Call>, served: set<Served>)

  datatype Step =
    | Send(id: nat, path: string, now: int, nonceRaw: seq<Byte>, body: string)
    | Serve(path: string, timestamp: string, nonce: string, request: string, response: string)
    | Deliver(id: nat, reply: Reply)

  predicate KnownPath(path: string) {
    path == AUTH_PATH || path == RIGHTS_PATH
  }

  predicate TimestampText(s: string) {
    1 <= |s| <= 11 && forall i :: 0 <= i < |s| ==> IsDigit(s[i])
  }

  predicate NonceText(s: string) {
    |s| == 22 && forall i :: 0 <= i < |s| ==> IsBase64(s[i])
  }

  /** A tag on the network was made by someone who holds the key. */
  predicate Genuine(signed: set<string>, reply: Reply) {
    reply.Reply? && reply.signature.Some? ==> reply.signature.value in signed
  }

  predicate Waiting(s: State, id: nat) {
    id in s.calls && s.calls[id].outcome.None?
  }

  predicate Enabled(digest: string -> string, s: State, step: Step) {
    match step
    case Send(id, path, now, nonceRaw, body) =>
      && id !in s.calls && KnownPath(path) && |nonceRaw| == 16 && |body| <= MAX_CALLBACK_BODY_BYTES
      && forall other <- s.calls :: s.calls[other].nonce != Base64(nonceRaw)
    case Serve(path, timestamp, nonce, request, response) =>
      && KnownPath(path) && TimestampText(timestamp) && NonceText(nonce)
      && RequestMessage(path, timestamp, nonce, digest(request)) in s.signed
    case Deliver(id, reply) => Waiting(s, id) && Genuine(s.signed, reply)
  }

  function After(digest: string -> string, s: State, step: Step): State
    requires Enabled(digest, s, step)
  {
    match step
    case Send(id, path, now, nonceRaw, body) =>
      var call := Call(path, Decimal(now), Base64(nonceRaw), body, None);
      s.(signed := s.signed + {RequestMessage(path, call.timestamp, call.nonce, digest(body))},
         calls := s.calls[id := call])
    case Serve(path, timestamp, nonce, request, response) =>
      s.(signed := s.signed + {ResponseMessage(200, path, nonce, digest(response))},
         served := s.served + {Served(path, nonce, request, response)})
    case Deliver(id, reply) =>
      var call := s.calls[id];
      s.(calls := s.calls[id := call.(outcome := Some(Judge(digest, call.path, call.nonce, reply)))])
  }

  function Start(): State {
    State({}, map[], {})
  }

  predicate Runs(digest: string -> string, s: State, steps: seq<Step>, t: State)
    decreases |steps|
  {
    if steps == [] then s == t
    else Enabled(digest, s, steps[0]) && Runs(digest, After(digest, s, steps[0]), steps[1..], t)
  }

  /** The hash has no collisions and is written without line breaks. */
  ghost predicate Ideal(digest: string -> string) {
    && (forall a, b :: digest(a) == digest(b) ==> a == b)
    && (forall a :: Clean(digest(a)))
  }

  predicate CleanCall(call: Call) {
    Clean(call.path) && Clean(call.timestamp) && Clean(call.nonce)
  }

  predicate Asked(digest: string -> string, s: State, message: string, id: nat) {
    && id in s.calls
    && var c := s.calls[id];
       message == RequestMessage(c.path, c.timestamp, c.nonce, digest(c.body))
  }

  predicate Answered(digest: string -> string, s: State, message: string, v: Served) {
    v in s.served && message == ResponseMessage(200, v.path, v.nonce, digest(v.response))
  }

  ghost predicate Accounted(digest: string -> string, s: State, message: string) {
    (exists id :: Asked(digest, s, message, id)) || (exists v :: Answered(digest, s, message, v))
  }

  /** The served request is the one this call sent. */
  predicate ServesCall(s: State, v: Served, id: nat) {
    id in s.calls && s.calls[id].path == v.path && s.calls[id].nonce == v.nonce && s.calls[id].body == v.request
  }

  /** What a call believes is what the server answered to that very request. */
  predicate BelievesOwn(s: State, id: nat)
    requires id in s.calls
  {
    var c := s.calls[id];
    c.outcome.Some? && c.outcome.value.Some? ==> Served(c.path, c.nonce, c.body, c.outcome.value.value) in s.served
  }

  ghost predicate Inv(digest: string -> string, s: State) {
    && (forall m <- s.signed :: Accounted(digest, s, m))
    && (forall v <- s.served :: exists id :: ServesCall(s, v, id))
    && (forall id <- s.calls :: CleanCall(s.calls[id]))
    && (forall id, other | id in s.calls && other in s.calls && s.calls[id].nonce == s.calls[other].nonce ::
        id == other)
    && (forall id <- s.calls :: BelievesOwn(s, id))
  }

  lemma {:induction false} TextsClean(s: string)
    ensures TimestampText(s) || NonceText(s) || KnownPath(s) ==> Clean(s)
  {
    if '\n' in s {
      var i :| 0 <= i < |s| && s[i] == '\n';
      assert !IsDigit(s[i]) && !IsBase64(s[i]);
    }
  }

  lemma {:induction false} DecimalClean(n: int)
    ensures Clean(Decimal(n))
  {
    DigitsClean(if n < 0 then -n else n);
  }

  /** Calls and answers are never forgotten, so what was accounted for stays so. */
  lemma {:induction false} AccountedGrows(digest: string -> string, s: State, t: State, m: string)
    requires Accounted(digest, s, m) && Grows(s, t)
    ensures Accounted(digest, t, m)
  {
    if id :| Asked(digest, s, m, id) {
      assert Asked(digest, t, m, id);
    } else {
      var v :| Answered(digest, s, m, v);
      assert Answered(digest, t, m, v);
    }
  }

  predicate Grows(s: State, t: State) {
    && s.served <= t.served
    && forall id <- s.calls :: id in t.calls && t.calls[id].(outcome := None) == s.calls[id].(outcome := None)
  }

  lemma {:induction false} OldFactsRemain(digest: string -> string, s: State, t: State)
    requires Inv(digest, s) && Grows(s, t)
    ensures forall m <- s.signed :: Accounted(digest, t, m)
    ensures forall v <- s.served :: exists id :: ServesCall(t, v, id)
  {
    forall m | m in s.signed ensures Accounted(digest, t, m) {
      AccountedGrows(digest, s, t, m);
    }
    forall v | v in s.served ensures exists id :: ServesCall(t, v, id) {
      var id :| ServesCall(s, v, id);
      assert t.calls[id].(outcome := None) == s.calls[id].(outcome := None);
      assert ServesCall(t, v, id);
    }
  }

  lemma {:induction false} SendStep(digest: string -> string, s: State, step: Step)
    requires Inv(digest, s) && step.Send? && Enabled(digest, s, step)
    ensures Inv(digest, After(digest, s, step))
  {
    var t := After(digest, s, step);
    OldFactsRemain(digest, s, t);
    var nonce := Base64(step.nonceRaw);
    assert NonceText(nonce);
    TextsClean(step.path);
    TextsClean(nonce);
    DecimalClean(step.now);
    assert Asked(digest, t, RequestMessage(step.path, Decimal(step.now), nonce, digest(step.body)), step.id);
    forall id | id in t.calls ensures BelievesOwn(t, id) {
      assert id in s.calls ==> BelievesOwn(s, id);
    }
  }

  /** A signed request was asked by a call, not obtained from an answer. */
  lemma {:induction false} NotAnAnswer(digest: string -> string, s: State, path: string, timestamp: string,
                                       nonce: string, hash: string)
    requires Ideal(digest) && Inv(digest, s) && AllClean([path, timestamp, nonce, hash])
    ensures forall v :: !Answered(digest, s, RequestMessage(path, timestamp, nonce, hash), v)
  {
    forall v ensures !Answered(digest, s, RequestMessage(path, timestamp, nonce, hash), v) {
      if v in s.served {
        ServedClean(digest, s, v);
        RequestsAreNotResponses(path, timestamp, nonce, hash, 200, v.path, v.nonce, digest(v.response));
      }
    }
  }

  lemma {:induction false} ServedClean(digest: string -> string, s: State, v: Served)
    requires Ideal(digest) && Inv(digest, s) && v in s.served
    ensures AllClean([v.path, v.nonce, digest(v.response)])
  {
    var owner :| ServesCall(s, v, owner);
    assert CleanCall(s.calls[owner]) && Clean(digest(v.response));
  }

  /** A signed answer was given by the server, not obtained from a request. */
  lemma {:induction false} NotARequest(digest: string -> string, s: State, path: string, nonce: string, hash: string)
    requires Ideal(digest) && Inv(digest, s) && AllClean([path, nonce, hash])
    ensures forall id :: !Asked(digest, s, ResponseMessage(200, path, nonce, hash), id)
  {
    forall id ensures !Asked(digest, s, ResponseMessage(200, path, nonce, hash), id) {
      if id in s.calls {
        var c := s.calls[id];
        assert CleanCall(c) && Clean(digest(c.body));
        RequestsAreNotResponses(c.path, c.timestamp, c.nonce, digest(c.body), 200, path, nonce, hash);
      }
    }
  }

  /** Whoever signed a request the server accepts, it is a call, asking exactly this. */
  lemma {:induction false} RequestIsAsked(digest: string -> string, s: State, path: string, timestamp: string,
                                          nonce: string, request: string)
    returns (id: nat)
    requires Ideal(digest) && Inv(digest, s) && Clean(path) && Clean(timestamp) && Clean(nonce)
    requires RequestMessage(path, timestamp, nonce, digest(request)) in s.signed
    ensures id in s.calls && s.calls[id].path == path && s.calls[id].nonce == nonce && s.calls[id].body == request
  {
    var m := RequestMessage(path, timestamp, nonce, digest(request));
    assert Accounted(digest, s, m) && Clean(digest(request));
    NotAnAnswer(digest, s, path, timestamp, nonce, digest(request));
    id :| Asked(digest, s, m, id);
    var c := s.calls[id];
    assert CleanCall(c) && Clean(digest(c.body));
    RequestFields(path, timestamp, nonce, digest(request), c.path, c.timestamp, c.nonce, digest(c.body));
  }

  lemma {:induction false} ServeStep(digest: string -> string, s: State, step: Step)
    requires Ideal(digest) && Inv(digest, s) && step.Serve? && Enabled(digest, s, step)
    ensures Inv(digest, After(digest, s, step))
  {
    var t := After(digest, s, step);
    OldFactsRemain(digest, s, t);
    TextsClean(step.path);
    TextsClean(step.nonce);
    TextsClean(step.timestamp);
    var id := RequestIsAsked(digest, s, step.path, step.timestamp, step.nonce, step.request);
    var v := Served(step.path, step.nonce, step.request, step.response);
    assert ServesCall(t, v, id);
    assert Answered(digest, t, ResponseMessage(200, step.path, step.nonce, digest(step.response)), v);
    forall other | other in t.calls ensures BelievesOwn(t, other) {
      assert BelievesOwn(s, other);
    }
  }

  /** An answer that verifies for a call's path and nonce answers the call's own request. */
  lemma {:induction false} VerifiedAnswerIsOwn(digest: string -> string, s: State, id: nat, body: string)
    requires Ideal(digest) && Inv(digest, s) && id in s.calls
    requires ResponseMessage(200, s.calls[id].path, s.calls[id].nonce, digest(body)) in s.signed
    ensures Served(s.calls[id].path, s.calls[id].nonce, s.calls[id].body, body) in s.served
  {
    var c := s.calls[id];
    var m := ResponseMessage(200, c.path, c.nonce, digest(body));
    assert Accounted(digest, s, m) && CleanCall(c) && Clean(digest(body));
    NotARequest(digest, s, c.path, c.nonce, digest(body));
    var v :| Answered(digest, s, m, v);
    ServedClean(digest, s, v);
    ResponseFields(200, v.path, v.nonce, digest(v.response), 200, c.path, c.nonce, digest(body));
    var owner :| ServesCall(s, v, owner);
    assert owner == id;
  }

  lemma {:induction false} DeliverStep(digest: string -> string, s: State, step: Step)
    requires Ideal(digest) && Inv(digest, s) && step.Deliver? && Enabled(digest, s, step)
    ensures Inv(digest, After(digest, s, step))
  {
    var t := After(digest, s, step);
    OldFactsRemain(digest, s, t);
    var c := s.calls[step.id];
    assert CleanCall(c);
    if Judge(digest, c.path, c.nonce, step.reply).Some? {
      VerifiedAnswerIsOwn(digest, s, step.id, step.reply.body);
    }
    forall id | id in t.calls ensures BelievesOwn(t, id) && CleanCall(t.calls[id]) {
      assert BelievesOwn(s, id) && CleanCall(s.calls[id]);
    }
  }

  lemma {:induction false} RunKeeps(digest: string -> string, s: State, steps: seq<Step>, t: State)
    requires Ideal(digest) && Inv(digest, s) && Runs(digest, s, steps, t)
    ensures Inv(digest, t)
    decreases |steps|
  {
    if steps != [] {
      match steps[0] {
        case Send(_, _, _, _, _) => SendStep(digest, s, steps[0]);
        case Serve(_, _, _, _, _) => ServeStep(digest, s, steps[0]);
        case Deliver(_, _) => DeliverStep(digest, s, steps[0]);
      }
      RunKeeps(digest, After(digest, s, steps[0]), steps[1..], t);
    }
  }

  /** In every run, whatever the network did, a body that a call believes is the server's
      answer to the very request this call sent. */
  lemma {:induction false} BeliefIsJustified(digest: string -> string, steps: seq<Step>, t: State, id: nat)
    requires Ideal(digest) && Runs(digest, Start(), steps, t) && id in t.calls
    ensures BelievesOwn(t, id)
  {
    RunKeeps(digest, Start(), steps, t);
  }

  /** An exchange that the network leaves alone succeeds: the answer given to a call's request,
      delivered as it was signed, is believed. */
  lemma {:induction false} GenuineAnswerIsBelieved(digest: string -> string, s: State, send: Step, response: string)
    returns (t: State)
    requires send.Send? && Enabled(digest, s, send) && TimestampText(Decimal(send.now)) && |response| <= 16384
    ensures var nonce := Base64(send.nonceRaw);
      var reply := Reply(200, response, Some(ResponseMessage(200, send.path, nonce, digest(response))));
      Runs(digest, s,
        [send, Serve(send.path, Decimal(send.now), nonce, send.body, response), Deliver(send.id, reply)], t)
    ensures send.id in t.calls && t.calls[send.id].outcome == Some(Some(response))
  {
    var nonce := Base64(send.nonceRaw);
    var serve := Serve(send.path, Decimal(send.now), nonce, send.body, response);
    var reply := Reply(200, response, Some(ResponseMessage(200, send.path, nonce, digest(response))));
    var deliver := Deliver(send.id, reply);
    var a := After(digest, s, send);
    var b := After(digest, a, serve);
    t := After(digest, b, deliver);
    assert [deliver][1..] == [] && [serve, deliver][1..] == [deliver];
    assert Runs(digest, b, [deliver], t);
    assert Runs(digest, a, [serve, deliver], t);
    assert [send, serve, deliver][1..] == [serve, deliver];
  }

  // ---------- Reading the answer ----------

  /** A JSON value as far as the callers look at it. */
  datatype Value = True | Text(text: string) | Container | Other

  predicate DistinctKeys(pairs: seq<(string, Value)>) {
    forall i, j :: 0 <= i < j < |pairs| ==> pairs[i].0 != pairs[j].0
  }

  function AsMap(pairs: seq<(string, Value)>): map<string, Value> {
    if pairs == [] then map[]
    else AsMap(pairs[..|pairs| - 1])[pairs[|pairs| - 1].0 := pairs[|pairs| - 1].1]
  }

  lemma {:induction false} AsMapKeys(pairs: seq<(string, Value)>, k: string)
    ensures k in AsMap(pairs) <==> exists i :: 0 <= i < |pairs| && pairs[i].0 == k
  {
    if pairs != [] {
      var last := |pairs| - 1;
      AsMapKeys(pairs[..last], k);
      if i :| 0 <= i < last && pairs[..last][i].0 == k {
        assert pairs[i].0 == k;
      }
      if i :| 0 <= i < |pairs| && pairs[i].0 == k {
        assert i < last ==> pairs[..last][i].0 == k;
      }
    }
  }

  /** An object, or nothing when a member is repeated. */
  function Loaded(pairs: seq<(string, Value)>): Result<map<string, Value>> {
    if DistinctKeys(pairs) then Ok(AsMap(pairs)) else Raise
  }

  method RejectDuplicateJsonKeys(pairs: seq<(string, Value)>) returns (result: Result<map<string, Value>>)
    ensures result == Loaded(pairs)
  {
    var members: map<string, Value> := map[];
    for i := 0 to |pairs|
      invariant DistinctKeys(pairs[..i]) && members == AsMap(pairs[..i])
    {
      AsMapKeys(pairs[..i], pairs[i].0);
      if pairs[i].0 in members {
        var j :| 0 <= j < i && pairs[..i][j].0 == pairs[i].0;
        assert pairs[j].0 == pairs[i].0;
        return Raise;
      }
      NewKey(pairs, i);
      members := members[pairs[i].0 := pairs[i].1];
      assert pairs[..i + 1][..i] == pairs[..i];
    }
    assert pairs[..|pairs|] == pairs;
    return Ok(members);
  }

  lemma {:induction false} NewKey(pairs: seq<(string, Value)>, i: nat)
    requires i < |pairs| && DistinctKeys(pairs[..i]) && pairs[i].0 !in AsMap(pairs[..i])
    ensures DistinctKeys(pairs[..i + 1])
  {
    AsMapKeys(pairs[..i], pairs[i].0);
    forall a, b | 0 <= a < b < i + 1 ensures pairs[a].0 != pairs[b].0 {
      assert pairs[..i][a].0 == pairs[a].0;
      if b < i {
        assert pairs[..i][b].0 == pairs[b].0;
      }
    }
  }

  lemma {:induction false} KeyIs(pairs: seq<(string, Value)>, k: string, j: nat)
    requires j < |pairs| && AsMap(pairs).Keys == {k}
    ensures pairs[j].0 == k
  {
    AsMapKeys(pairs, pairs[j].0);
    assert pairs[j].0 in AsMap(pairs).Keys;
  }

  /** Distinct keys and a single key in the map leave a single pair. */
  lemma {:induction false} OneMember(pairs: seq<(string, Value)>, k: string)
    requires DistinctKeys(pairs) && AsMap(pairs).Keys == {k}
    ensures pairs == [(k, AsMap(pairs)[k])]
  {
    assert k in AsMap(pairs).Keys;
    AsMapKeys(pairs, k);
    KeyIs(pairs, k, 0);
    if |pairs| > 1 {
      KeyIs(pairs, k, 1);
    }
    assert AsMap(pairs[..0]) == map[];
  }

  lemma {:induction false} OneMemberMap(k: string, v: Value)
    ensures DistinctKeys([(k, v)]) && AsMap([(k, v)]) == map[k := v]
  {
    assert [(k, v)][..0] == [];
    assert AsMap([(k, v)][..0]) == map[];
  }

  function Authenticate(result: Result<map<string, Value>>): bool {
    result.Ok? && result.value.Keys == {"allowed"} && result.value["allowed"] == True
  }

  /** Raises on a container, which cannot be looked up in a set. */
  function Rights(result: Result<map<string, Value>>): Result<string> {
    if result.Raise? || result.value.Keys != {"rights"} then Ok("")
    else
      match result.value["rights"]
      case Container => Raise
      case Text(text) => Ok(if Grant(text) then text else "")
      case _ => Ok("")
  }

  predicate Grant(text: string) {
    text in ["", "R", "r", "rw", "RWdD"]
  }

  /** Only the one-member object allows, and nothing that repeats or adds a member. */
  lemma {:induction false} AllowedExactly(pairs: seq<(string, Value)>)
    ensures Authenticate(Loaded(pairs)) <==> pairs == [("allowed", True)]
  {
    OneMemberMap("allowed", True);
    if Authenticate(Loaded(pairs)) {
      OneMember(pairs, "allowed");
    }
  }

  lemma {:induction false} GrantedExactly(pairs: seq<(string, Value)>, rights: string)
    requires rights != ""
    ensures Rights(Loaded(pairs)) == Ok(rights)
      <==> rights in ["R", "r", "rw", "RWdD"] && pairs == [("rights", Text(rights))]
  {
    OneMemberMap("rights", Text(rights));
    if Rights(Loaded(pairs)) == Ok(rights) {
      OneMember(pairs, "rights");
    }
  }

  /** A call that lets a user in was told so by the server, in answer to that user's own request. */
  lemma {:induction false} AdmissionIsJustified(digest: string -> string, parse: string -> seq<(string, Value)>,
                                                steps: seq<Step>, t: State, id: nat)
    requires Ideal(digest) && Runs(digest, Start(), steps, t) && id in t.calls
    requires t.calls[id].outcome.Some? && t.calls[id].outcome.value.Some?
    requires Authenticate(Loaded(parse(t.calls[id].outcome.value.value)))
    ensures exists v <- t.served ::
      v.path == t.calls[id].path && v.nonce == t.calls[id].nonce && v.request == t.calls[id].body
      && parse(v.response) == [("allowed", True)]
  {
    BeliefIsJustified(digest, steps, t, id);
    var c := t.calls[id];
    AllowedExactly(parse(c.outcome.value.value));
    assert Served(c.path, c.nonce, c.body, c.outcome.value.value) in t.served;
  }
}
