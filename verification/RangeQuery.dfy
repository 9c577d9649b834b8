/** The candidate window of a calendar query: the requested range widened on both sides and
    rendered without milliseconds (time ranges of section 9.9 of RFC 4791). */
module RangeQuery {

  const OVERFETCH_MS := 32 * 60 * 60 * 1000

  /** The largest offset any supported time zone definition can hold. */
  const OFFSET_LIMIT_MS := 86_399_000

  /** `calDavUtc`: the instant with its milliseconds dropped. */
  function DropMillis(t: int): int {
    t - t % 1000
  }

  /** Overlap of an event with a range; an event without duration counts at its start. */
  predicate Overlaps(start: int, end: int, rangeStart: int, rangeEnd: int) {
    if start == end then rangeStart <= start < rangeEnd else start < rangeEnd && rangeStart < end
  }

  predicate Shift(offset: int) {
    -OFFSET_LIMIT_MS <= offset <= OFFSET_LIMIT_MS
  }

  datatype Window = Window(start: int, end: int)

  /** The window sent for a range with a given overfetch; a reversed range is refused. */
  function Candidate(rangeStart: int, rangeEnd: int, overfetch: int): Window {
    Window(DropMillis(rangeStart - overfetch), DropMillis(rangeEnd + overfetch))
  }

  /** An event given by wall-clock start and end, each at its own offset from UTC, that overlaps
      the range is also found when its wall clock is read as UTC. */
  ghost predicate Covers(overfetch: int) {
    forall rangeStart, rangeEnd, wallStart, wallEnd, startOffset, endOffset ::
      rangeStart < rangeEnd && wallStart <= wallEnd && Shift(startOffset) && Shift(endOffset)
      && wallStart - startOffset <= wallEnd - endOffset
      && Overlaps(wallStart - startOffset, wallEnd - endOffset, rangeStart, rangeEnd)
      ==> var w := Candidate(rangeStart, rangeEnd, overfetch);
          Overlaps(wallStart, wallEnd, w.start, w.end)
  }

  /** Below the threshold, an event just before the end of some range is missed. */
  lemma {:induction false} ShortOverfetchMisses(overfetch: int)
    requires overfetch < OFFSET_LIMIT_MS + 999
    ensures !Covers(overfetch)
  {
    var rangeEnd := 999 - overfetch;
    var rangeStart := rangeEnd - 1;
    var wall := rangeEnd + OFFSET_LIMIT_MS - 1;
    var w := Candidate(rangeStart, rangeEnd, overfetch);
    assert w.end == 0;
    assert Shift(OFFSET_LIMIT_MS) && Overlaps(wall - OFFSET_LIMIT_MS, wall - OFFSET_LIMIT_MS, rangeStart, rangeEnd);
    assert !Overlaps(wall, wall, w.start, w.end);
  }

  /** The exact threshold: an overfetch covers every such event of every range precisely when
      it reaches the largest offset plus the milliseconds that rendering can drop. */
  lemma {:induction false} CoversExactly(overfetch: int)
    ensures Covers(overfetch) <==> overfetch >= OFFSET_LIMIT_MS + 999
  {
    if overfetch < OFFSET_LIMIT_MS + 999 {
      ShortOverfetchMisses(overfetch);
    }
  }

  /** The 32 hours used are enough, with room to spare. */
  lemma {:induction false} OverfetchCovers()
    ensures Covers(OVERFETCH_MS)
  {
    CoversExactly(OVERFETCH_MS);
  }
}
