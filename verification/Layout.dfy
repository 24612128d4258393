/** Where the parts of a trace file stand: every field of a record at its own bytes, every record after the
    one before it, and the reason for stopping after the last, all in byte offsets. */
module Layout {
  import opened Spans
  import opened Frames
  import opened Packing

  /** The unsigned value of the n bytes from position p. */
  function Word(data: seq<byte>, p: int, n: int): int
    requires 0 <= p <= p + n <= |data|
  {
    FromBytes(data[p..p + n])
  }

  /** A header that is accepted: version 1, and a size that is that of its parts and at most 16384. */
  ghost predicate GoodHeader(data: seq<byte>, p: int)
    requires 0 <= p && p + 88 <= |data|
  {
    && Word(data, p + 84, 4) == 1 && Word(data, p, 4) <= 16384
    && Word(data, p, 4) == 88 + Word(data, p + 4, 2) + Word(data, p + 80, 4)
  }

  /** The numbers of a record, each at its place in the header. */
  ghost predicate NumbersStand(data: seq<byte>, p: int, r: Event<seq<byte>>)
    requires 0 <= p && p + 88 <= |data|
  {
    && r.flags == Word(data, p + 6, 2)
    && r.id == Word(data, p + 8, 8)
    && r.parent == Word(data, p + 16, 8)
    && r.start == Word(data, p + 24, 8)
    && r.elapsed == Word(data, p + 32, 8)
    && r.a == Word(data, p + 40, 8)
    && r.b == Word(data, p + 48, 8)
    && r.c == Word(data, p + 56, 8)
    && r.result == TwosComplement(Word(data, p + 64, 8))
    && r.pid == Word(data, p + 72, 4)
    && r.tid == Word(data, p + 76, 4)
  }

  function TwosComplement(u: int): int { if u < 0x8000_0000_0000_0000 then u else u - 0x1_0000_0000_0000_0000 }

  /** The record read at position p: its numbers in an accepted header, then its operation, then its path. */
  ghost predicate Stands(data: seq<byte>, p: int, r: Event<seq<byte>>) {
    && 0 <= p && p + 88 + |r.op| + |r.path| <= |data|
    && GoodHeader(data, p) && NumbersStand(data, p, r)
    && |r.op| == Word(data, p + 4, 2) && |r.path| == Word(data, p + 80, 4)
    && r.op == data[p + 88..p + 88 + |r.op|]
    && r.path == data[p + 88 + |r.op|..p + 88 + |r.op| + |r.path|]
  }

  /** The records stand one after the other from position p up to the end position. */
  ghost predicate StandInARow(data: seq<byte>, p: int, rs: seq<Event<seq<byte>>>, end: int)
    decreases |rs|
  {
    if rs == [] then p == end
    else Stands(data, p, rs[0]) && StandInARow(data, p + 88 + |rs[0].op| + |rs[0].path|, rs[1..], end)
  }

  /** Why reading ends at position p. */
  ghost predicate EndsBy(data: seq<byte>, p: int, ending: Ending)
    requires 0 <= p <= |data|
  {
    match ending
    case Finished => p == |data|
    case TruncatedHeader => p < |data| < p + 88
    case InvalidRecord => p + 88 <= |data| && !GoodHeader(data, p)
    case TruncatedPayload => p + 88 <= |data| && GoodHeader(data, p) && |data| < p + Word(data, p, 4)
  }

  // ----- moving what stands -----

  lemma PartMoves(frame: seq<byte>, data: seq<byte>, p: int, i: int, j: int)
    requires 0 <= p && p + |frame| <= |data| && data[p..p + |frame|] == frame && 0 <= i <= j <= |frame|
    ensures data[p + i..p + j] == frame[i..j]
  {
    forall x | 0 <= x < j - i ensures data[p + i..p + j][x] == frame[i..j][x] {
      assert frame[i + x] == data[p + (i + x)];
    }
  }

  lemma WordMoves(frame: seq<byte>, data: seq<byte>, p: int, k: int, n: int)
    requires 0 <= p && p + |frame| <= |data| && data[p..p + |frame|] == frame
    requires 0 <= k <= k + n <= |frame|
    ensures Word(data, p + k, n) == Word(frame, k, n)
  {
    PartMoves(frame, data, p, k, k + n);
  }

  lemma HeaderMoves(frame: seq<byte>, data: seq<byte>, p: int)
    requires 0 <= p && p + |frame| <= |data| && data[p..p + |frame|] == frame && |frame| >= 88
    ensures GoodHeader(frame, 0) == GoodHeader(data, p) && Word(data, p, 4) == Word(frame, 0, 4)
  {
    WordMoves(frame, data, p, 0, 4);
    WordMoves(frame, data, p, 4, 2);
    WordMoves(frame, data, p, 80, 4);
    WordMoves(frame, data, p, 84, 4);
  }

  lemma NumbersMove(frame: seq<byte>, data: seq<byte>, p: int, r: Event<seq<byte>>)
    requires 0 <= p && p + |frame| <= |data| && data[p..p + |frame|] == frame && |frame| >= 88
    requires NumbersStand(frame, 0, r)
    ensures NumbersStand(data, p, r)
  {
    WordMoves(frame, data, p, 6, 2);
    WordMoves(frame, data, p, 8, 8);
    WordMoves(frame, data, p, 16, 8);
    WordMoves(frame, data, p, 24, 8);
    WordMoves(frame, data, p, 32, 8);
    WordMoves(frame, data, p, 40, 8);
    WordMoves(frame, data, p, 48, 8);
    WordMoves(frame, data, p, 56, 8);
    WordMoves(frame, data, p, 64, 8);
    WordMoves(frame, data, p, 72, 4);
    WordMoves(frame, data, p, 76, 4);
  }

  lemma StandsMoves(frame: seq<byte>, data: seq<byte>, p: int, r: Event<seq<byte>>)
    requires 0 <= p && p + |frame| <= |data| && data[p..p + |frame|] == frame
    requires Stands(frame, 0, r)
    ensures Stands(data, p, r)
  {
    HeaderMoves(frame, data, p);
    NumbersMove(frame, data, p, r);
    WordMoves(frame, data, p, 4, 2);
    WordMoves(frame, data, p, 80, 4);
    var n, m := |r.op|, |r.path|;
    PartMoves(frame, data, p, 88, 88 + n);
    PartMoves(frame, data, p, 88 + n, 88 + n + m);
  }
}
