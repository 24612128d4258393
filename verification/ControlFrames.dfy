/** The broker's control connection: newline framing of what is received, and the size check on the
    bytes that have not been framed yet. */
module ControlFrames {
  import opened Frames

  const LIMIT := 1024 * 1024
  const READ := 65536
  const NEWLINE: byte := 10

  // ----- framing, byte by byte -----

  /** The newline-terminated pieces of the bytes. */
  ghost function Lines(s: seq<byte>): seq<seq<byte>> {
    if s == [] then [] else
      var before, b := s[..|s| - 1], s[|s| - 1];
      if b == NEWLINE then Lines(before) + [Rest(before)] else Lines(before)
  }

  /** What follows the last newline. */
  ghost function Rest(s: seq<byte>): seq<byte> {
    if s == [] then [] else
      var before, b := s[..|s| - 1], s[|s| - 1];
      if b == NEWLINE then [] else Rest(before) + [b]
  }

  /** Each line with its newline again, in order. */
  ghost function Joined(lines: seq<seq<byte>>): seq<byte> {
    if lines == [] then [] else Joined(lines[..|lines| - 1]) + lines[|lines| - 1] + [NEWLINE]
  }

  /** The pieces are all of the bytes, and no newline is left inside one. */
  lemma {:induction false} LinesAreThePieces(s: seq<byte>)
    ensures s == Joined(Lines(s)) + Rest(s)
    ensures NEWLINE !in Rest(s) && forall i | 0 <= i < |Lines(s)| :: NEWLINE !in Lines(s)[i]
    decreases |s|
  {
    if s != [] {
      var before, b := s[..|s| - 1], s[|s| - 1];
      LinesAreThePieces(before);
      assert s == before + [b];
      if b == NEWLINE {
        assert Lines(s)[..|Lines(s)| - 1] == Lines(before);
        assert Joined(Lines(s)) == Joined(Lines(before)) + Rest(before) + [b];
      }
    }
  }

  lemma Append(s: seq<byte>, b: byte)
    ensures Lines(s + [b]) == if b == NEWLINE then Lines(s) + [Rest(s)] else Lines(s)
    ensures Rest(s + [b]) == if b == NEWLINE then [] else Rest(s) + [b]
  {
    assert (s + [b])[..|s|] == s;
  }

  lemma ExtendStep(lines: seq<seq<byte>>, s: seq<byte>, t: seq<byte>, b: byte)
    requires Lines(s) == lines + Lines(t) && Rest(s) == Rest(t)
    ensures Lines(s + [b]) == lines + Lines(t + [b]) && Rest(s + [b]) == Rest(t + [b])
  {
    Append(s, b);
    Append(t, b);
  }

  /** More bytes extend the rest of what came before. */
  lemma {:induction false} Extend(s: seq<byte>, data: seq<byte>)
    ensures Lines(s + data) == Lines(s) + Lines(Rest(s) + data)
    ensures Rest(s + data) == Rest(Rest(s) + data)
    decreases |data|
  {
    if data == [] {
      RestHasNoLines(s);
      assert s + data == s && Rest(s) + data == Rest(s);
    } else {
      var before, b := data[..|data| - 1], data[|data| - 1];
      Extend(s, before);
      assert s + data == (s + before) + [b] && Rest(s) + data == (Rest(s) + before) + [b];
      ExtendStep(Lines(s), s + before, Rest(s) + before, b);
    }
  }

  lemma {:induction false} Unbroken(s: seq<byte>)
    requires NEWLINE !in s
    ensures Lines(s) == [] && Rest(s) == s
    decreases |s|
  {
    if s != [] {
      Unbroken(s[..|s| - 1]);
    }
  }

  lemma RestHasNoLines(s: seq<byte>)
    ensures Lines(Rest(s)) == [] && Rest(Rest(s)) == Rest(s)
  {
    LinesAreThePieces(s);
    Unbroken(Rest(s));
  }

  /** One `partition` at the first newline. */
  lemma FirstLine(line: seq<byte>, tail: seq<byte>)
    requires NEWLINE !in line
    ensures Lines(line + [NEWLINE] + tail) == [line] + Lines(tail)
    ensures Rest(line + [NEWLINE] + tail) == Rest(tail)
  {
    Unbroken(line);
    Append(line, NEWLINE);
    Extend(line + [NEWLINE], tail);
    assert [] + tail == tail;
  }

  // ----- the connection -----

  class Connection {
    var incoming: seq<byte>
    ghost var received: seq<byte>
    ghost var dispatched: seq<seq<byte>>

    /** However the bytes were cut into reads, the commands so far are the complete lines received, and
        `incoming` is the rest. */
    ghost predicate Valid()
      reads this
    {
      dispatched == Lines(received) && incoming == Rest(received)
    }

    constructor ()
      ensures Valid() && received == []
    {
      incoming, received, dispatched := [], [], [];
    }

    /** One read. It fails, which stops the broker, exactly when more than LIMIT bytes are then unframed. */
    method Receive(data: seq<byte>) returns (ok: bool, lines: seq<seq<byte>>)
      requires Valid()
      modifies this
      ensures ok <==> |old(incoming)| + |data| <= 1024 * 1024
      ensures ok ==> Valid() && received == old(received) + data && dispatched == old(dispatched) + lines
    {
      lines := [];
      incoming := incoming + data;
      if |incoming| > LIMIT {
        return false, lines;
      }
      Extend(received, data);
      received := received + data;
      while NEWLINE in incoming
        invariant received == old(received) + data && dispatched == old(dispatched) + lines
        invariant dispatched + Lines(incoming) == Lines(received) && Rest(incoming) == Rest(received)
        decreases |incoming|
      {
        var line, tail := Partition(incoming);
        FirstLine(line, tail);
        assert dispatched + ([line] + Lines(tail)) == dispatched + [line] + Lines(tail);
        lines := lines + [line];
        dispatched := dispatched + [line];
        incoming := tail;
      }
      Unbroken(incoming);
      return true, lines;
    }
  }

  /** `incoming.partition(b'\\n')`, when there is a newline. */
  method Partition(s: seq<byte>) returns (line: seq<byte>, tail: seq<byte>)
    requires NEWLINE in s
    ensures s == line + [NEWLINE] + tail && NEWLINE !in line
  {
    var i := 0;
    while s[i] != NEWLINE
      invariant 0 <= i < |s| && NEWLINE !in s[..i] && NEWLINE in s[i..]
      decreases |s| - i
    {
      i := i + 1;
    }
    return s[..i], s[i + 1..];
  }

  // ----- how large a frame may be -----

  ghost function Concat(chunks: seq<seq<byte>>): seq<byte> {
    if chunks == [] then [] else Concat(chunks[..|chunks| - 1]) + chunks[|chunks| - 1]
  }

  /** Reads of at most READ bytes, as `recv` is asked for. */
  ghost predicate Delivery(chunks: seq<seq<byte>>) { forall i | 0 <= i < |chunks| :: 0 < |chunks[i]| <= 65536 }

  /** No read of the delivery fails. */
  ghost predicate Survives(chunks: seq<seq<byte>>) {
    forall k | 0 <= k < |chunks| :: |Rest(Concat(chunks[..k]))| + |chunks[k]| <= LIMIT
  }

  /** No frame, and no unfinished one, is longer than the bound. */
  ghost predicate Bounded(s: seq<byte>, bound: int) {
    |Rest(s)| <= bound && forall i | 0 <= i < |Lines(s)| :: |Lines(s)[i]| <= bound
  }

  lemma {:induction false} PrefixBounded(s: seq<byte>, data: seq<byte>, bound: int)
    requires Bounded(s + data, bound)
    ensures Bounded(s, bound)
    decreases |data|
  {
    if data == [] {
      assert s + data == s;
    } else {
      var before, b := data[..|data| - 1], data[|data| - 1];
      assert s + data == (s + before) + [b];
      Append(s + before, b);
      var lines, more := Lines(s + before), Lines(s + data);
      assert forall i | 0 <= i < |lines| :: more[i] == lines[i];
      if b == NEWLINE {
        assert more[|lines|] == Rest(s + before);
      }
      PrefixBounded(s, before, bound);
    }
  }

  lemma {:induction false} ConcatPrefix(chunks: seq<seq<byte>>, k: int)
    requires 0 <= k <= |chunks|
    ensures exists tail :: Concat(chunks) == Concat(chunks[..k]) + tail
    decreases |chunks|
  {
    if k == |chunks| {
      assert chunks[..k] == chunks && Concat(chunks) == Concat(chunks[..k]) + [];
    } else {
      var t := chunks[..|chunks| - 1];
      ConcatPrefix(t, k);
      assert t[..k] == chunks[..k];
      var tail :| Concat(t) == Concat(chunks[..k]) + tail;
      assert Concat(chunks) == Concat(chunks[..k]) + (tail + chunks[|chunks| - 1]);
    }
  }

  /** Frames of at most LIMIT - READ bytes never stop the broker, however they are delivered. */
  lemma SmallFramesSurvive(chunks: seq<seq<byte>>)
    requires Delivery(chunks) && Bounded(Concat(chunks), LIMIT - READ)
    ensures Survives(chunks)
  {
    forall k | 0 <= k < |chunks| ensures |Rest(Concat(chunks[..k]))| + |chunks[k]| <= LIMIT {
      ConcatPrefix(chunks, k);
      var tail :| Concat(chunks) == Concat(chunks[..k]) + tail;
      PrefixBounded(Concat(chunks[..k]), tail, LIMIT - READ);
    }
  }

  ghost function Same(b: byte, n: nat): (s: seq<byte>)
    ensures |s| == n && forall i | 0 <= i < n :: s[i] == b
  {
    if n == 0 then [] else [b] + Same(b, n - 1)
  }

  /** Bytes cut into chunks of at most READ. */
  ghost function Cut(s: seq<byte>): (chunks: seq<seq<byte>>)
    ensures Delivery(chunks) && Concat(chunks) == s
    decreases |s|
  {
    if s == [] then [] else
      var n := if |s| < READ then 0 else |s| - READ;
      var before := Cut(s[..n]);
      assert (before + [s[n..]])[..|before|] == before;
      before + [s[n..]]
  }

  /** One frame a byte over that bound, with the next frames right behind it: all frames stay within the
      documented 1 MiB, yet the read that brings the next frames fails. */
  lemma LargerFrameCanFail(bound: int) returns (chunks: seq<seq<byte>>)
    requires LIMIT - READ < bound
    ensures Delivery(chunks) && Bounded(Concat(chunks), bound) && !Survives(chunks)
  {
    var frame, next := Same(32, LIMIT - READ + 1), Same(NEWLINE, READ);
    chunks := Cut(frame) + [next];
    assert chunks[..|chunks| - 1] == Cut(frame);
    Unbroken(frame);
    NewlinesAfter(frame, READ, bound);
    assert |Rest(Concat(chunks[..|chunks| - 1]))| + |chunks[|chunks| - 1]| > LIMIT;
  }

  lemma {:induction false} NewlinesAfter(s: seq<byte>, n: nat, bound: int)
    requires Bounded(s, bound)
    ensures Bounded(s + Same(NEWLINE, n), bound)
    decreases n
  {
    if n == 0 {
      assert s + Same(NEWLINE, n) == s;
    } else {
      Append(s, NEWLINE);
      NewlinesAfter(s + [NEWLINE], n - 1, bound);
      assert s + Same(NEWLINE, n) == s + [NEWLINE] + Same(NEWLINE, n - 1);
    }
  }

  /** The exact bound: deliveries of frames within it are safe if and only if it leaves room for one read. */
  lemma SafeBound(bound: int)
    ensures (forall chunks :: Delivery(chunks) && Bounded(Concat(chunks), bound) ==> Survives(chunks))
       <==> bound <= 1024 * 1024 - 65536
  {
    if bound <= LIMIT - READ {
      forall chunks | Delivery(chunks) && Bounded(Concat(chunks), bound) ensures Survives(chunks) {
        SmallFramesSurvive(chunks);
      }
    } else {
      var chunks := LargerFrameCanFail(bound);
    }
  }
}
