/** Files of frames that carry their own size in a fixed-size header: where a reader that takes header
    and body in turn stops, and that no data can be split in two ways.

    `size` reads the header; it answers less than HEADER_SIZE for a header it does not accept. */
module Frames {

  type byte = x: int | 0 <= x < 256

  const HEADER_SIZE := 88

  datatype Ending = Finished | TruncatedHeader | InvalidRecord | TruncatedPayload

  ghost predicate IsFrame(f: seq<byte>, size: seq<byte> -> int) {
    |f| >= HEADER_SIZE && size(f[..HEADER_SIZE]) == |f|
  }

  ghost predicate AllFrames(fs: seq<seq<byte>>, size: seq<byte> -> int) {
    forall i | 0 <= i < |fs| :: IsFrame(fs[i], size)
  }

  ghost function Flatten(fs: seq<seq<byte>>): seq<byte> {
    if fs == [] then [] else fs[0] + Flatten(fs[1..])
  }

  /** Why the reader stops in front of `rest`. */
  ghost predicate Stops(rest: seq<byte>, size: seq<byte> -> int, ending: Ending) {
    match ending
    case Finished => rest == []
    case TruncatedHeader => 0 < |rest| < HEADER_SIZE
    case InvalidRecord => |rest| >= HEADER_SIZE && size(rest[..HEADER_SIZE]) < HEADER_SIZE
    case TruncatedPayload => HEADER_SIZE <= |rest| < size(rest[..HEADER_SIZE])
  }

  /** The outcome of reading: complete frames, then the reason for stopping in front of the rest. */
  ghost predicate Splits(data: seq<byte>, fs: seq<seq<byte>>, rest: seq<byte>, ending: Ending, size: seq<byte> -> int) {
    AllFrames(fs, size) && data == Flatten(fs) + rest && Stops(rest, size, ending)
  }

  lemma {:induction false} FlattenAppend(fs: seq<seq<byte>>, f: seq<byte>)
    ensures Flatten(fs + [f]) == Flatten(fs) + f
    decreases |fs|
  {
    if fs == [] {
      assert fs + [f] == [f] && [f][1..] == [];
    } else {
      FlattenAppend(fs[1..], f);
      assert (fs + [f])[1..] == fs[1..] + [f];
    }
  }

  lemma FirstFrame(data: seq<byte>, f: seq<byte>, tail: seq<byte>, size: seq<byte> -> int)
    requires IsFrame(f, size) && data == f + tail
    ensures |data| >= HEADER_SIZE && data[..HEADER_SIZE] == f[..HEADER_SIZE]
            && size(data[..HEADER_SIZE]) == |f| <= |data|
    ensures f == data[..|f|] && tail == data[|f|..]
  {
  }

  /** The reader does not stop in front of a complete frame. */
  lemma FrameGoesOn(data: seq<byte>, fs: seq<seq<byte>>, rest: seq<byte>, e: Ending, size: seq<byte> -> int)
    requires fs != [] && AllFrames(fs, size) && data == Flatten(fs) + rest
    ensures !Stops(data, size, e)
  {
    assert data == fs[0] + (Flatten(fs[1..]) + rest);
    FirstFrame(data, fs[0], Flatten(fs[1..]) + rest, size);
  }

  /** No data can be split in two ways. */
  lemma {:induction false} SplitsOneWay(data: seq<byte>, size: seq<byte> -> int, fs: seq<seq<byte>>, rest: seq<byte>,
      e: Ending,
                                        fs': seq<seq<byte>>, rest': seq<byte>, e': Ending)
    requires Splits(data, fs, rest, e, size) && Splits(data, fs', rest', e', size)
    ensures fs == fs' && rest == rest' && e == e'
    decreases |fs|
  {
    if fs == [] && fs' == [] {
      assert [] + rest == rest && [] + rest' == rest';
    } else if fs == [] {
      assert [] + rest == rest;
      FrameGoesOn(data, fs', rest', e, size);
    } else if fs' == [] {
      assert [] + rest' == rest';
      FrameGoesOn(data, fs, rest, e', size);
    } else {
      var tail, tail' := Flatten(fs[1..]) + rest, Flatten(fs'[1..]) + rest';
      assert data == fs[0] + tail && data == fs'[0] + tail';
      FirstFrame(data, fs[0], tail, size);
      FirstFrame(data, fs'[0], tail', size);
      SplitsOneWay(tail, size, fs[1..], rest, e, fs'[1..], rest', e');
      assert fs == [fs[0]] + fs[1..] && fs' == [fs'[0]] + fs'[1..];
    }
  }

  // ----- truncated data -----

  /** How many of the frames are complete in the first n bytes. */
  ghost function Complete(fs: seq<seq<byte>>, n: int): (k: int)
    ensures 0 <= k <= |fs|
    decreases |fs|
  {
    if fs == [] || n < |fs[0]| then 0 else 1 + Complete(fs[1..], n - |fs[0]|)
  }

  ghost function CutEnding(rest: seq<byte>): Ending {
    if rest == [] then Finished else if |rest| < HEADER_SIZE then TruncatedHeader else TruncatedPayload
  }

  /** What is left over when the first n bytes are read. */
  ghost function Remainder(fs: seq<seq<byte>>, n: int): seq<byte>
    requires 0 <= n <= |Flatten(fs)|
    decreases |fs|
  {
    if fs == [] || n < |fs[0]| then Flatten(fs)[..n] else Remainder(fs[1..], n - |fs[0]|)
  }

  lemma PartialFrame(f: seq<byte>, tail: seq<byte>, n: int, size: seq<byte> -> int)
    requires IsFrame(f, size) && 0 <= n < |f|
    ensures Stops((f + tail)[..n], size, CutEnding((f + tail)[..n]))
  {
    var cut := (f + tail)[..n];
    if n >= HEADER_SIZE {
      assert cut[..HEADER_SIZE] == f[..HEADER_SIZE];
    }
  }

  lemma {:induction false} CutSplits(fs: seq<seq<byte>>, n: int, size: seq<byte> -> int)
    requires AllFrames(fs, size) && 0 <= n <= |Flatten(fs)|
    ensures Splits(Flatten(fs)[..n], fs[..Complete(fs, n)], Remainder(fs, n), CutEnding(Remainder(fs, n)), size)
    decreases |fs|
  {
    var k := Complete(fs, n);
    if fs == [] {
      assert Flatten(fs)[..n] == [] && fs[..k] == [];
    } else if n < |fs[0]| {
      assert fs[..k] == [];
      PartialFrame(fs[0], Flatten(fs[1..]), n, size);
      assert [] + Flatten(fs)[..n] == Flatten(fs)[..n];
    } else {
      CutSplits(fs[1..], n - |fs[0]|, size);
      CutNext(fs[0], fs[1..], n - |fs[0]|, k - 1, Remainder(fs[1..], n - |fs[0]|));
      assert fs == [fs[0]] + fs[1..] && fs[..k] == [fs[0]] + fs[1..][..k - 1];
    }
  }

  lemma CutNext(first: seq<byte>, more: seq<seq<byte>>, m: int, k: int, rest: seq<byte>)
    requires 0 <= m <= |Flatten(more)| && 0 <= k <= |more|
    requires Flatten(more)[..m] == Flatten(more[..k]) + rest
    ensures |Flatten([first] + more)| == |first| + |Flatten(more)|
    ensures Flatten([first] + more)[..|first| + m] == Flatten([first] + more[..k]) + rest
  {
    assert ([first] + more)[1..] == more && ([first] + more[..k])[1..] == more[..k];
    assert Flatten([first] + more)[..|first| + m] == first + Flatten(more)[..m];
    assert first + (Flatten(more[..k]) + rest) == first + Flatten(more[..k]) + rest;
  }

  /** A cut file splits into exactly its complete frames. The reader then stops normally exactly when the
      cut is on a frame boundary, and otherwise in a truncated header or body. */
  lemma CutFile(fs: seq<seq<byte>>, n: int, size: seq<byte> -> int,
                 got: seq<seq<byte>>, rest: seq<byte>, e: Ending)
    requires AllFrames(fs, size) && 0 <= n <= |Flatten(fs)|
    requires Splits(Flatten(fs)[..n], got, rest, e, size)
    ensures got == fs[..Complete(fs, n)]
    ensures e == Finished <==> n == |Flatten(got)|
    ensures e != Finished ==> e == TruncatedHeader || e == TruncatedPayload
  {
    CutSplits(fs, n, size);
    SplitsOneWay(Flatten(fs)[..n], size, got, rest, e, fs[..Complete(fs, n)], Remainder(fs, n),
        CutEnding(Remainder(fs, n)));
  }

  // ----- records in frames -----

  /** Every readable record is written as one frame, and no two are written alike. */
  ghost predicate Lawful<R(!new)>(encode: R -> seq<byte>, readable: R -> bool, size: seq<byte> -> int) {
    && (forall r :: readable(r) ==> IsFrame(encode(r), size))
    && (forall r, r' :: readable(r) && readable(r') && encode(r) == encode(r') ==> r == r')
  }

  ghost predicate All<R>(rs: seq<R>, readable: R -> bool) { forall i | 0 <= i < |rs| :: readable(rs[i]) }

  ghost function Each<R>(rs: seq<R>, encode: R -> seq<byte>): (fs: seq<seq<byte>>)
    ensures |fs| == |rs| && forall i | 0 <= i < |rs| :: fs[i] == encode(rs[i])
  {
    if rs == [] then [] else [encode(rs[0])] + Each(rs[1..], encode)
  }

  /** The file that holds the records one after the other. */
  ghost function EncodeAll<R>(rs: seq<R>, encode: R -> seq<byte>): seq<byte> { Flatten(Each(rs, encode)) }

  /** The reader's outcome on any data: readable records, then the reason for stopping in front of the rest. */
  ghost predicate Reads<R>(data: seq<byte>, rs: seq<R>, rest: seq<byte>, ending: Ending,
                           encode: R -> seq<byte>, readable: R -> bool, size: seq<byte> -> int)
  {
    All(rs, readable) && data == EncodeAll(rs, encode) + rest && Stops(rest, size, ending)
  }

  lemma EncodeAllAppend<R>(rs: seq<R>, r: R, encode: R -> seq<byte>)
    ensures EncodeAll(rs + [r], encode) == EncodeAll(rs, encode) + encode(r)
  {
    assert Each(rs + [r], encode) == Each(rs, encode) + [encode(r)];
    FlattenAppend(Each(rs, encode), encode(r));
  }

  lemma ReadsSplits<R(!new)>(data: seq<byte>, rs: seq<R>, rest: seq<byte>, e: Ending,
                              encode: R -> seq<byte>, readable: R -> bool, size: seq<byte> -> int)
    requires Lawful(encode, readable, size) && Reads(data, rs, rest, e, encode, readable, size)
    ensures Splits(data, Each(rs, encode), rest, e, size)
  {
    forall i | 0 <= i < |rs| ensures IsFrame(Each(rs, encode)[i], size) {
      assert readable(rs[i]);
    }
  }

  lemma EachInjective<R(!new)>(rs: seq<R>, rs': seq<R>, encode: R -> seq<byte>, readable: R -> bool,
                                size: seq<byte> -> int)
    requires Lawful(encode, readable, size) && All(rs, readable) && All(rs', readable)
    requires Each(rs, encode) == Each(rs', encode)
    ensures rs == rs'
  {
    assert |rs| == |Each(rs, encode)| == |rs'|;
    forall i | 0 <= i < |rs| ensures rs[i] == rs'[i] {
      assert Each(rs, encode)[i] == Each(rs', encode)[i];
      assert readable(rs[i]) && readable(rs'[i]) && encode(rs[i]) == encode(rs'[i]);
    }
  }

  /** Whatever the data, there is at most one outcome. */
  lemma ReadsOneWay<R(!new)>(data: seq<byte>, encode: R -> seq<byte>, readable: R -> bool, size: seq<byte> -> int,
                              rs: seq<R>, rest: seq<byte>, e: Ending,
                              rs': seq<R>, rest': seq<byte>, e': Ending)
    requires Lawful(encode, readable, size)
    requires Reads(data, rs, rest, e, encode, readable, size) && Reads(data, rs', rest', e', encode, readable, size)
    ensures rs == rs' && rest == rest' && e == e'
  {
    ReadsSplits(data, rs, rest, e, encode, readable, size);
    ReadsSplits(data, rs', rest', e', encode, readable, size);
    SplitsOneWay(data, size, Each(rs, encode), rest, e, Each(rs', encode), rest', e');
    EachInjective(rs, rs', encode, readable, size);
  }

  /** Reading inverts writing: the records come back, and the reader stops normally at the end. */
  lemma ReadsWritten<R(!new)>(rs: seq<R>, encode: R -> seq<byte>, readable: R -> bool, size: seq<byte> -> int,
                               got: seq<R>, rest: seq<byte>, e: Ending)
    requires Lawful(encode, readable, size) && All(rs, readable)
    requires Reads(EncodeAll(rs, encode), got, rest, e, encode, readable, size)
    ensures got == rs && rest == [] && e == Finished
  {
    assert EncodeAll(rs, encode) + [] == EncodeAll(rs, encode);
    ReadsOneWay(EncodeAll(rs, encode), encode, readable, size, got, rest, e, rs, [], Finished);
  }

  /** A cut file yields exactly its complete records. The reader then stops normally exactly when the cut
      is on a record boundary, and otherwise in a truncated header or payload. */
  lemma ReadsCut<R(!new)>(rs: seq<R>, n: int, encode: R -> seq<byte>, readable: R -> bool,
                           size: seq<byte> -> int, got: seq<R>, rest: seq<byte>, e: Ending)
    requires Lawful(encode, readable, size) && All(rs, readable) && 0 <= n <= |EncodeAll(rs, encode)|
    requires Reads(EncodeAll(rs, encode)[..n], got, rest, e, encode, readable, size)
    ensures got == rs[..Complete(Each(rs, encode), n)]
    ensures e == Finished <==> n == |EncodeAll(got, encode)|
    ensures e != Finished ==> e == TruncatedHeader || e == TruncatedPayload
  {
    var fs := Each(rs, encode);
    forall i | 0 <= i < |fs| ensures IsFrame(fs[i], size) { assert readable(rs[i]); }
    ReadsSplits(EncodeAll(rs, encode)[..n], got, rest, e, encode, readable, size);
    CutFile(fs, n, size, Each(got, encode), rest, e);
    var k := Complete(fs, n);
    assert Each(rs[..k], encode) == fs[..k];
    EachInjective(got, rs[..k], encode, readable, size);
  }

  /** Data that starts with a refused header is not read at all. */
  lemma ReadsRefused<R(!new)>(data: seq<byte>, encode: R -> seq<byte>, readable: R -> bool,
                               size: seq<byte> -> int, got: seq<R>, rest: seq<byte>, e: Ending)
    requires Lawful(encode, readable, size) && Stops(data, size, InvalidRecord)
    requires Reads(data, got, rest, e, encode, readable, size)
    ensures got == [] && e == InvalidRecord
  {
    assert [] + data == data;
    ReadsOneWay(data, encode, readable, size, got, rest, e, [], data, InvalidRecord);
  }
}
