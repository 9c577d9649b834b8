/** The two readers that accumulate a response body up to a limit. */
module BoundedResponse {
  import opened Common

  const MAX_DAV_XML_RESPONSE_BYTES := 16 * 1024 * 1024

  /** A body is missing, given in one piece, streamed (and possibly broken off by an error after
      the chunks that did arrive), or of a kind the readers do not know. Text is its bytes. */
  datatype Body =
    | NoBody
    | Whole(bytes: seq<Byte>)
    | Stream(chunks: seq<seq<Byte>>, broken: bool)
    | Unsupported

  datatype Event = Chunk(bytes: seq<Byte>) | Done | Broken

  datatype Outcome = Complete(bytes: seq<Byte>) | TooLarge | ReadFailed

  // ---------- What a reader must answer ----------

  /** Everything the body delivers, however it is cut. */
  function Delivered(body: Body): seq<Byte> {
    match body
    case Whole(bytes) => bytes
    case Stream(chunks, _) => Concat(chunks)
    case _ => []
  }

  predicate Fails(body: Body) {
    body.Unsupported? || (body.Stream? && body.broken)
  }

  function Verdict(limit: int, body: Body): Outcome {
    if |Delivered(body)| > limit then TooLarge
    else if Fails(body) then ReadFailed
    else Complete(Delivered(body))
  }

  predicate DigitsOnly(s: string) {
    s != "" && forall i :: 0 <= i < |s| ==> IsDigit(s[i])
  }

  predicate Announces(contentLength: Option<string>, limit: int) {
    && contentLength.Some?
    && DigitsOnly(contentLength.value)
    && NatValue(contentLength.value) > limit
  }

  function Expected(limit: int, contentLength: Option<string>, body: Body): Outcome {
    if Announces(contentLength, limit) then TooLarge else Verdict(limit, body)
  }

  // ---------- The response and the accumulator ----------

  class Response {
    const contentLength: Option<string>
    const body: Body
    /** Chunks handed out so far. */
    var next: nat
    var locked: bool
    var cancelled: bool

    constructor (contentLength: Option<string>, body: Body)
      ensures this.contentLength == contentLength && this.body == body
      ensures next == 0 && !locked && !cancelled
    {
      this.contentLength, this.body := contentLength, body;
      next, locked, cancelled := 0, false, false;
    }

    predicate Valid()
      reads this
    {
      body.Stream? ==> next <= |body.chunks|
    }

    method Read() returns (event: Event)
      requires body.Stream? && Valid()
      modifies `next
      ensures Valid()
      ensures old(next) < |body.chunks| ==> event == Chunk(body.chunks[old(next)]) && next == old(next) + 1
      ensures old(next) == |body.chunks| ==> event == (if body.broken then Broken else Done) && next == old(next)
    {
      if next < |body.chunks| {
        event := Chunk(body.chunks[next]);
        next := next + 1;
      } else {
        event := if body.broken then Broken else Done;
      }
    }

    method Cancel()
      modifies `cancelled
      ensures cancelled
    {
      cancelled := true;
    }
  }

  /** The chunks kept so far; they never exceed the limit. */
  class Accumulator {
    const limit: nat
    var chunks: seq<seq<Byte>>
    var size: nat

    constructor (limit: nat)
      ensures Valid() && this.limit == limit && chunks == [] && size == 0
    {
      this.limit := limit;
      chunks, size := [], 0;
    }

    predicate Valid()
      reads this
    {
      |Concat(chunks)| <= limit && (size <= limit ==> size == |Concat(chunks)|)
    }

    method Append(chunk: seq<Byte>) returns (fits: bool)
      requires Valid() && size <= limit
      modifies this
      ensures Valid()
      ensures fits <==> |Concat(old(chunks)) + chunk| <= limit
      ensures fits ==> chunks == old(chunks) + [chunk] && size <= limit
      ensures !fits ==> chunks == old(chunks)
    {
      size := size + |chunk|;
      fits := size <= limit;
      if fits {
        ConcatAppend(chunks, [chunk]);
        assert Concat([chunk]) == chunk + Concat([chunk][1..]);
        chunks := chunks + [chunk];
      }
    }

    /** Copies the chunks one after the other into a buffer of the counted size. */
    method Gather() returns (bytes: array<Byte>)
      requires Valid() && size <= limit
      ensures fresh(bytes) && bytes[..] == Concat(chunks)
    {
      bytes := new Byte[size];
      var offset := 0;
      assert chunks[..0] == [];
      for i := 0 to |chunks|
        invariant offset == |Concat(chunks[..i])|
        invariant offset + |Concat(chunks[i..])| == bytes.Length
        invariant bytes[..offset] == Concat(chunks[..i])
      {
        var chunk := chunks[i];
        CutAt(chunks, i);
        Set(bytes, chunk, offset);
        assert bytes[..offset + |chunk|] == bytes[..offset] + bytes[offset..offset + |chunk|];
        offset := offset + |chunk|;
      }
      assert chunks[..|chunks|] == chunks;
      assert bytes[..offset] == bytes[..];
    }
  }

  lemma {:induction false} CutAt(chunks: seq<seq<Byte>>, i: nat)
    requires i < |chunks|
    ensures Concat(chunks[..i + 1]) == Concat(chunks[..i]) + chunks[i]
    ensures Concat(chunks[i..]) == chunks[i] + Concat(chunks[i + 1..])
  {
    assert chunks[..i + 1] == chunks[..i] + [chunks[i]];
    ConcatAppend(chunks[..i], [chunks[i]]);
    assert Concat([chunks[i]]) == chunks[i] + Concat([chunks[i]][1..]);
    assert chunks[i..][1..] == chunks[i + 1..];
  }

  method Set(target: array<Byte>, source: seq<Byte>, offset: nat)
    requires offset + |source| <= target.Length
    modifies target
    ensures target[..offset] == old(target[..offset])
    ensures target[offset..offset + |source|] == source
  {
    for k := 0 to |source|
      invariant target[..offset] == old(target[..offset])
      invariant target[offset..offset + k] == source[..k]
    {
      target[offset + k] := source[k];
    }
  }

  // ---------- The readers ----------

  /** How far a stream is read: not past the first chunk that does not fit. */
  ghost predicate ReadNoFurther(response: Response, limit: int)
    reads response
  {
    response.body.Stream? && 0 < response.next <= |response.body.chunks|
    ==> |Concat(response.body.chunks[..response.next - 1])| <= limit
  }

  lemma {:induction false} PrefixNoLonger(chunks: seq<seq<Byte>>, i: nat)
    requires i <= |chunks|
    ensures |Concat(chunks[..i])| <= |Concat(chunks)|
  {
    assert chunks == chunks[..i] + chunks[i..];
    ConcatAppend(chunks[..i], chunks[i..]);
  }

  /** Reads a stream to its end, to its failure, or to the first chunk too many. */
  method Drain(response: Response, kept: Accumulator) returns (failure: Option<Outcome>)
    requires response.body.Stream? && response.Valid() && response.next == 0
    requires kept.Valid() && kept.chunks == [] && kept.size == 0
    modifies response`next, kept
    ensures response.Valid() && kept.Valid()
    ensures ReadNoFurther(response, kept.limit)
    ensures failure.Some? ==> failure.value == Verdict(kept.limit, response.body) && !failure.value.Complete?
    ensures failure.None? ==>
      kept.size <= kept.limit && Verdict(kept.limit, response.body) == Complete(Concat(kept.chunks))
  {
    var chunks := response.body.chunks;
    assert chunks[..0] == [];
    while true
      invariant response.Valid() && kept.Valid() && kept.size <= kept.limit
      invariant kept.chunks == chunks[..response.next]
      invariant ReadNoFurther(response, kept.limit)
      decreases |chunks| - response.next
    {
      ghost var i := response.next;
      var event := response.Read();
      match event {
        case Done =>
          assert chunks[..i] == chunks;
          return None;
        case Broken =>
          assert chunks[..i] == chunks;
          return Some(ReadFailed);
        case Chunk(bytes) =>
          CutAt(chunks, i);
          var fits := kept.Append(bytes);
          if !fits {
            PrefixNoLonger(chunks, i + 1);
            return Some(TooLarge);
          }
          assert chunks[..i + 1] == chunks[..i] + [bytes];
      }
    }
  }

  method ReadBoundedDavResponse(response: Response, maxBytes: int) returns (outcome: Outcome)
    requires response.Valid() && response.next == 0 && !response.locked && !response.cancelled
    modifies response
    ensures outcome == if 1 <= maxBytes <= MAX_DAV_XML_RESPONSE_BYTES
                       then Expected(maxBytes, response.contentLength, response.body) else ReadFailed
    ensures !response.locked && ReadNoFurther(response, maxBytes)
    ensures response.cancelled <==> !outcome.Complete? && 1 <= maxBytes <= MAX_DAV_XML_RESPONSE_BYTES
  {
    if maxBytes < 1 || maxBytes > MAX_DAV_XML_RESPONSE_BYTES { return ReadFailed; }
    if Announces(response.contentLength, maxBytes) {
      response.Cancel();
      return TooLarge;
    }
    var kept := new Accumulator(maxBytes);
    var failure := None;
    match response.body {
      case NoBody =>
      case Whole(bytes) =>
        var fits := kept.Append(bytes);
        if !fits { failure := Some(TooLarge); }
        assert fits ==> kept.chunks == [bytes] && Concat(kept.chunks) == bytes + Concat(kept.chunks[1..]);
      case Stream(_, _) =>
        response.locked := true;
        failure := Drain(response, kept);
      case Unsupported =>
        failure := Some(ReadFailed);
    }
    if failure.Some? {
      response.Cancel();
      response.locked := false;
      return failure.value;
    }
    var bytes := kept.Gather();
    response.locked := false;
    return Complete(bytes[..]);
  }

  method ReadResponseText(response: Response, maxBytes: nat) returns (outcome: Outcome)
    requires response.Valid() && response.next == 0 && !response.locked && !response.cancelled
    modifies response
    ensures outcome == Expected(maxBytes, response.contentLength, response.body)
    ensures !response.locked && ReadNoFurther(response, maxBytes)
    ensures response.cancelled <==> !outcome.Complete?
  {
    if Announces(response.contentLength, maxBytes) {
      response.Cancel();
      return TooLarge;
    }
    var kept := new Accumulator(maxBytes);
    var failure := None;
    match response.body {
      case Whole(bytes) =>
        if |bytes| <= maxBytes { return Complete(bytes); }
        failure := Some(TooLarge);
      case NoBody =>
        return Complete([]);
      case Stream(_, _) =>
        response.locked := true;
        failure := Drain(response, kept);
      case Unsupported =>
        failure := Some(ReadFailed);
    }
    if failure.Some? {
      response.Cancel();
      response.locked := false;
      return failure.value;
    }
    response.locked := false;
    var bytes := kept.Gather();
    return Complete(bytes[..]);
  }

  // ---------- What the answer depends on ----------

  lemma {:induction false} DigitsOnlyDecimal(n: nat)
    ensures DigitsOnly(Digits(n)) && NatValue(Digits(n)) == n
  {
    DigitsValue(n);
  }

  /** A stated length changes the answer exactly when it is over the limit and the body is not. */
  lemma {:induction false} StatedLengthMatters(limit: int, stated: nat, body: Body)
    ensures Expected(limit, Some(Digits(stated)), body) != Expected(limit, None, body)
      <==> |Delivered(body)| <= limit < stated
  {
    DigitsOnlyDecimal(stated);
  }

  /** A stream that breaks off is never taken for a body: it fails, or is too large if what it
      delivered, or was said to deliver, is over the limit. */
  lemma {:induction false} BreakingOffFails(limit: int, contentLength: Option<string>, chunks: seq<seq<Byte>>)
    ensures var outcome := Expected(limit, contentLength, Stream(chunks, true));
      && !outcome.Complete?
      && (contentLength.None? ==> (outcome == ReadFailed <==> |Concat(chunks)| <= limit))
      && (outcome == TooLarge ==> |Concat(chunks)| > limit || Announces(contentLength, limit))
  {
  }

  /** One byte more than the limit, however cut, is refused; the limit itself is not. */
  lemma {:induction false} LimitIsExact(limit: nat, chunks: seq<seq<Byte>>)
    ensures Expected(limit, Some(Digits(|Concat(chunks)|)), Stream(chunks, false))
         == if |Concat(chunks)| <= limit then Complete(Concat(chunks)) else TooLarge
  {
    DigitsOnlyDecimal(|Concat(chunks)|);
  }
}
