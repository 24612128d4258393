/** The binary trace records: the packed header, the reader that yields records until the data ends or
    is found damaged, and the encoder the reader inverts. Operation and path are kept as bytes. */
module TraceRecords {
  import opened Spans
  import opened Frames
  import opened Packing
  import opened Layout

  type Record = Event<seq<byte>>

  // ----- the record format -----

  /** `<IHH7Qq4I`: size, operation length, flags, seven unsigned words, the signed result, and
      process, thread, path length and version. */
  function Format(): seq<int> { [4, 2, 2] + Repeat(8, 8) + Repeat(4, 4) }

  const SIZE_LIMIT := 16384
  const WORD := 0x1_0000_0000_0000_0000

  function Repeat(width: int, n: int): (r: seq<int>)
    requires n >= 0
    ensures |r| == n && forall i | 0 <= i < n :: r[i] == width
    decreases n
  {
    if n == 0 then [] else [width] + Repeat(width, n - 1)
  }

  lemma {:induction false} TotalConcat(a: seq<int>, b: seq<int>)
    ensures Total(a + b) == Total(a) + Total(b)
    decreases |a|
  {
    if a == [] {
      assert a + b == b;
    } else {
      TotalConcat(a[1..], b);
      assert (a + b)[1..] == a[1..] + b;
    }
  }

  lemma {:induction false} TotalOfSame(a: seq<int>, width: int)
    requires forall i | 0 <= i < |a| :: a[i] == width
    ensures Total(a) == width * |a|
    decreases |a|
  {
    if a != [] {
      TotalOfSame(a[1..], width);
    }
  }

  lemma FormatSize()
    ensures Widths(Format()) && Total(Format()) == HEADER_SIZE && |Format()| == 15
  {
    var words, halves := Repeat(8, 8), Repeat(4, 4);
    TotalOfSame(words, 8);
    TotalOfSame(halves, 4);
    TotalConcat([4, 2, 2] + words, halves);
    TotalConcat([4, 2, 2], words);
    TotalConcat([4], [2, 2]);
    TotalOfSame([4], 4);
    TotalOfSame([2, 2], 2);
    assert [4, 2, 2] == [4] + [2, 2];
  }

  /** Two's complement of a 64-bit signed value. */
  function Unsigned(v: int): int { if v < 0 then v + WORD else v }

  function Signed(u: int): int { if u >= WORD / 2 then u - WORD else u }

  function Size(r: Record): int { HEADER_SIZE + |r.op| + |r.path| }

  /** The header values of a record, in the order they are packed. */
  function Fields(r: Record): seq<int> {
    [Size(r), |r.op|, r.flags, r.id, r.parent, r.start, r.elapsed, r.a, r.b, r.c, Unsigned(r.result),
     r.pid, r.tid, |r.path|, 1]
  }

  /** Every field fits the width it is packed into; otherwise packing fails. */
  ghost predicate Packable(r: Record) {
    InRange(Fields(r), Format()) && -WORD / 2 <= r.result < WORD / 2
  }

  ghost function Encode(r: Record): seq<byte>
    requires Packable(r)
  {
    Pack(Fields(r), Format()) + (r.op + r.path)
  }

  predicate ValidHeader(h: seq<int>) {
    && |h| == 15 && h[1] >= 0 && h[13] >= 0
    && h[14] == 1 && h[0] == HEADER_SIZE + h[1] + h[13] && h[0] <= SIZE_LIMIT
  }

  function Decode(h: seq<int>, payload: seq<byte>): Record
    requires |h| == 15 && 0 <= h[1] <= |payload|
  {
    Event(h[3], h[4], h[5], h[6], h[7], h[8], h[9], Signed(h[10]), h[11], h[12], h[2],
          payload[..h[1]], payload[h[1]..])
  }

  lemma EncodeSize(r: Record)
    requires Packable(r)
    ensures |Pack(Fields(r), Format())| == HEADER_SIZE && |Encode(r)| == Size(r)
  {
    FormatSize();
    PackSize(Fields(r), Format());
  }

  lemma WordPowers()
    ensures Power(8) == WORD && Power(4) == 0x1_0000_0000 && Power(2) == 0x1_0000
  {
    assert Power(1) == 256;
    assert Power(2) == 256 * Power(1);
    assert Power(3) == 256 * Power(2);
    assert Power(4) == 256 * Power(3);
    assert Power(5) == 256 * Power(4);
    assert Power(6) == 256 * Power(5);
    assert Power(7) == 256 * Power(6);
    assert Power(8) == 256 * Power(7);
  }

  // ----- what makes the format readable -----

  ghost predicate Readable(r: Record) { Packable(r) && Size(r) <= SIZE_LIMIT }

  /** Unpacking a header, as a value the reader is handed. */
  function Reader(): seq<byte> -> seq<int> { (b: seq<byte>) => Unpack(b, Format()) }

  ghost function Encoder(): Record -> seq<byte> { (r: Record) => if Packable(r) then Encode(r) else [] }

  ghost function IsReadable(): Record -> bool { (r: Record) => Readable(r) }

  /** A header with its own size; 0 when it is not a valid one. */
  ghost function SizeBy(read: seq<byte> -> seq<int>): seq<byte> -> int {
    (b: seq<byte>) => if ValidHeader(read(b)) then read(b)[0] else 0
  }

  /** What is written is read back. */
  ghost predicate ReadsBack(read: seq<byte> -> seq<int>, encode: Record -> seq<byte>, r: Record) {
    |encode(r)| == Size(r) && read(encode(r)[..HEADER_SIZE]) == Fields(r) && encode(r)[HEADER_SIZE..] == r.op + r.path
  }

  /** What the reader accepts is what is written. */
  ghost predicate WritesBack(read: seq<byte> -> seq<int>, encode: Record -> seq<byte>, readable: Record -> bool,
                             h: seq<int>, payload: seq<byte>, b: seq<byte>)
  {
    (|b| >= HEADER_SIZE && h == read(b[..HEADER_SIZE]) && payload == b[HEADER_SIZE..] && ValidHeader(h) && |b| == h[0])
    ==> (readable(Decode(h, payload)) && encode(Decode(h, payload)) == b)
  }

  ghost predicate Laws(read: seq<byte> -> seq<int>, encode: Record -> seq<byte>, readable: Record -> bool) {
    && (forall r: Record :: readable(r) <==> Readable(r))
    && (forall r: Record :: Packable(r) ==> ReadsBack(read, encode, r))
    && (forall h, payload, b :: WritesBack(read, encode, readable, h, payload, b))
    && (forall b: seq<byte> | |b| == HEADER_SIZE ::
          |read(b)| == 15 && read(b)[0] >= 0 && read(b)[1] >= 0 && read(b)[13] >= 0)
  }

  lemma FieldsDecode(h: seq<int>, payload: seq<byte>)
    requires InRange(h, Format()) && ValidHeader(h) && |payload| == h[1] + h[13]
    ensures Fields(Decode(h, payload)) == h && Packable(Decode(h, payload))
  {
    WordPowers();
    assert Format()[10] == 8 && 0 <= h[10] < Power(Format()[10]);
  }

  lemma PackFollowed(head: seq<byte>, tail: seq<byte>)
    requires |head| == HEADER_SIZE
    ensures (head + tail)[..HEADER_SIZE] == head && (head + tail)[HEADER_SIZE..] == tail
  {
  }

  lemma FormatReadsBack(r: Record)
    requires Packable(r)
    ensures ReadsBack(Reader(), Encoder(), r)
  {
    EncodeSize(r);
    UnpackPack(Fields(r), Format());
    PackFollowed(Pack(Fields(r), Format()), r.op + r.path);
  }

  lemma HeaderPacks(b: seq<byte>)
    requires |b| == HEADER_SIZE
    ensures InRange(Unpack(b, Format()), Format()) && Pack(Unpack(b, Format()), Format()) == b
    ensures |Unpack(b, Format())| == 15
  {
    FormatSize();
    PackUnpack(b, Format());
  }

  lemma EncodeParts(h: seq<int>, payload: seq<byte>, head: seq<byte>)
    requires InRange(h, Format()) && ValidHeader(h) && |payload| == h[1] + h[13] && Pack(h, Format()) == head
    ensures Readable(Decode(h, payload)) && Encode(Decode(h, payload)) == head + payload
  {
    FieldsDecode(h, payload);
    DecodedParts(h, payload);
  }

  lemma DecodedParts(h: seq<int>, payload: seq<byte>)
    requires ValidHeader(h) && |payload| == h[1] + h[13]
    ensures var r := Decode(h, payload);
            r.op + r.path == payload && Size(r) == h[0] <= SIZE_LIMIT
  {
  }

  lemma FormatWritesBack(h: seq<int>, payload: seq<byte>, b: seq<byte>)
    ensures WritesBack(Reader(), Encoder(), IsReadable(), h, payload, b)
  {
    if |b| >= HEADER_SIZE && h == Reader()(b[..HEADER_SIZE]) && payload == b[HEADER_SIZE..] && ValidHeader(h)
        && |b| == h[0] {
      HeaderPacks(b[..HEADER_SIZE]);
      EncodeParts(h, payload, b[..HEADER_SIZE]);
      assert b == b[..HEADER_SIZE] + payload;
    }
  }

  lemma HeaderSigns(b: seq<byte>)
    requires |b| == HEADER_SIZE
    ensures var h := Reader()(b); |h| == 15 && h[0] >= 0 && h[1] >= 0 && h[13] >= 0
  {
    HeaderPacks(b);
  }

  lemma FormatLaws()
    ensures Laws(Reader(), Encoder(), IsReadable())
  {
    forall r: Record | Packable(r) ensures ReadsBack(Reader(), Encoder(), r) { FormatReadsBack(r); }
    forall h, payload, b
      ensures WritesBack(Reader(), Encoder(), IsReadable(), h, payload, b)
    {
      FormatWritesBack(h, payload, b);
    }
    forall b: seq<byte> | |b| == HEADER_SIZE
      ensures |Reader()(b)| == 15 && Reader()(b)[0] >= 0 && Reader()(b)[1] >= 0 && Reader()(b)[13] >= 0
    {
      HeaderSigns(b);
    }
  }

  // ----- a whole file -----

  lemma WrittenAlike(read: seq<byte> -> seq<int>, encode: Record -> seq<byte>, r: Record, r': Record)
    requires ReadsBack(read, encode, r) && ReadsBack(read, encode, r') && encode(r) == encode(r')
    requires Packable(r) && Packable(r')
    ensures r == r'
  {
    var f, f' := Fields(r), Fields(r');
    assert f == f';
    assert f[1] == |r.op| && f'[1] == |r'.op|;
    assert (r.op + r.path)[..|r.op|] == r.op && (r'.op + r'.path)[..|r'.op|] == r'.op;
    assert (r.op + r.path)[|r.op|..] == r.path && (r'.op + r'.path)[|r'.op|..] == r'.path;
    assert f[2] == f'[2] && f[3] == f'[3] && f[4] == f'[4] && f[5] == f'[5] && f[6] == f'[6] && f[7] == f'[7];
    assert f[8] == f'[8] && f[9] == f'[9] && f[10] == f'[10] && f[11] == f'[11] && f[12] == f'[12];
  }

  lemma LawsAreLawful(read: seq<byte> -> seq<int>, encode: Record -> seq<byte>, readable: Record -> bool)
    requires Laws(read, encode, readable)
    ensures Lawful(encode, readable, SizeBy(read))
  {
    forall r: Record | readable(r) ensures IsFrame(encode(r), SizeBy(read)) {
      assert ReadsBack(read, encode, r);
    }
    forall r: Record, r': Record | readable(r) && readable(r') && encode(r) == encode(r') ensures r == r' {
      assert Packable(r) && Packable(r');
      WrittenAlike(read, encode, r, r');
    }
  }

  /** The records that the first bytes of the data hold. */
  ghost predicate Taken(data: seq<byte>, position: nat, rs: seq<Record>, encode: Record -> seq<byte>,
      readable: Record -> bool)
    requires position <= |data|
  {
    All(rs, readable) && EncodeAll(rs, encode) == data[..position]
  }

  lemma FrameAt(data: seq<byte>, position: nat, h: seq<int>, r: Record,
                 read: seq<byte> -> seq<int>, encode: Record -> seq<byte>, readable: Record -> bool)
    requires position + HEADER_SIZE <= |data| && Laws(read, encode, readable)
    requires h == read(data[position..position + HEADER_SIZE]) && ValidHeader(h) && position + h[0] <= |data|
    requires r == Decode(h, data[position + HEADER_SIZE..position + h[0]])
    ensures readable(r) && encode(r) == data[position..position + h[0]]
  {
    var frame, payload := data[position..position + h[0]], data[position + HEADER_SIZE..position + h[0]];
    assert frame[..HEADER_SIZE] == data[position..position + HEADER_SIZE] && frame[HEADER_SIZE..] == payload;
    assert WritesBack(read, encode, readable, h, payload, frame);
  }

  lemma TakenNext(data: seq<byte>, position: nat, rs: seq<Record>, r: Record, size: int,
                   encode: Record -> seq<byte>, readable: Record -> bool)
    requires 0 <= size && position + size <= |data| && Taken(data, position, rs, encode, readable)
    requires readable(r) && encode(r) == data[position..position + size]
    ensures Taken(data, position + size, rs + [r], encode, readable)
  {
    EncodeAllAppend(rs, r, encode);
    assert data[..position] + data[position..position + size] == data[..position + size];
  }

  /** Why reading stops at a position. */
  ghost predicate StopsAt(data: seq<byte>, position: nat, ending: Ending, size: seq<byte> -> int)
    requires position <= |data|
  {
    var left := |data| - position;
    match ending
    case Finished => left == 0
    case TruncatedHeader => 0 < left < HEADER_SIZE
    case InvalidRecord => left >= HEADER_SIZE && size(data[position..position + HEADER_SIZE]) < HEADER_SIZE
    case TruncatedPayload => left >= HEADER_SIZE && HEADER_SIZE <= left < size(data[position..position + HEADER_SIZE])
  }

  lemma Outcome(data: seq<byte>, position: nat, rs: seq<Record>, ending: Ending,
                 encode: Record -> seq<byte>, readable: Record -> bool, size: seq<byte> -> int)
    requires position <= |data| && Taken(data, position, rs, encode, readable) && StopsAt(data, position, ending, size)
    ensures Reads(data, rs, data[position..], ending, encode, readable, size)
  {
    assert data == data[..position] + data[position..];
    if |data| - position >= HEADER_SIZE {
      assert data[position..][..HEADER_SIZE] == data[position..position + HEADER_SIZE];
    }
  }

  datatype Step = Stop(ending: Ending) | Take(record: Record, size: int)

  /** One turn of the loop of `records`: the checks in order, then the payload. */
  method ReadOne(data: seq<byte>, position: nat, read: seq<byte> -> seq<int>,
                 ghost encode: Record -> seq<byte>, ghost readable: Record -> bool)
    returns (step: Step)
    requires position < |data| && Laws(read, encode, readable)
    ensures step.Stop? ==> StopsAt(data, position, step.ending, SizeBy(read))
    ensures step.Take? ==> HEADER_SIZE <= step.size <= |data| - position
    ensures step.Take? ==> readable(step.record) && encode(step.record) == data[position..position + step.size]
  {
    var header := data[position..if |data| < position + HEADER_SIZE then |data| else position + HEADER_SIZE];
    if |header| != HEADER_SIZE {
      return Stop(TruncatedHeader);
    }
    var h := read(header);
    if h[14] != 1 || h[0] != HEADER_SIZE + h[1] + h[13] || h[0] > SIZE_LIMIT {
      return Stop(InvalidRecord);
    }
    if |data| < position + h[0] {
      return Stop(TruncatedPayload);
    }
    var r := Decode(h, data[position + HEADER_SIZE..position + h[0]]);
    FrameAt(data, position, h, r, read, encode, readable);
    return Take(r, h[0]);
  }

  method ReadAll(data: seq<byte>, read: seq<byte> -> seq<int>, ghost encode: Record -> seq<byte>,
      ghost readable: Record -> bool)
    returns (rs: seq<Record>, position: nat, ending: Ending)
    requires Laws(read, encode, readable)
    ensures position <= |data| && Reads(data, rs, data[position..], ending, encode, readable, SizeBy(read))
  {
    rs, position, ending := [], 0, Finished;
    while position < |data|
      invariant position <= |data| && Taken(data, position, rs, encode, readable)
      decreases |data| - position
    {
      var step := ReadOne(data, position, read, encode, readable);
      if step.Stop? {
        ending := step.ending;
        break;
      }
      TakenNext(data, position, rs, step.record, step.size, encode, readable);
      rs := rs + [step.record];
      position := position + step.size;
    }
    Outcome(data, position, rs, ending, encode, readable, SizeBy(read));
  }

  // ----- the bytes of a record -----

  lemma FirstOffsets()
    ensures Total(Format()[..0]) == 0 && Total(Format()[..1]) == 4 && Total(Format()[..2]) == 6
    ensures Total(Format()[..3]) == 8 && Format()[0] == 4 && Format()[1] == 2 && Format()[2] == 2
  {
    FormatWidths();
    TotalNext(Format(), 0);
    TotalNext(Format(), 1);
    TotalNext(Format(), 2);
  }

  lemma {:induction false} WordOffsets(k: int)
    requires 3 <= k <= 11
    ensures Total(Format()[..k]) == 8 * k - 16
  {
    FormatWidths();
    if k > 3 {
      TotalNext(Format(), k - 1);
      WordOffsets(k - 1);
    } else {
      FirstOffsets();
    }
  }

  lemma {:induction false} NumberOffsets(k: int)
    requires 11 <= k < 15
    ensures Total(Format()[..k]) == 4 * k + 28
  {
    FormatWidths();
    if k > 11 {
      TotalNext(Format(), k - 1);
      NumberOffsets(k - 1);
    } else {
      WordOffsets(11);
    }
  }

  /** A field of the header is the value of the bytes at its offset. */
  lemma FieldAt(b: seq<byte>, k: int, at: int, n: int)
    requires |b| >= HEADER_SIZE && 0 <= k < 15 && at == Total(Format()[..k]) && n == Format()[k]
    ensures |Reader()(b[..HEADER_SIZE])| == 15 && 0 <= at <= at + n <= |b|
    ensures Reader()(b[..HEADER_SIZE])[k] == Word(b, at, n)
  {
    FormatSize();
    UnpackedPart(b, HEADER_SIZE, Format(), k, at, n);
  }

  lemma WordAt(b: seq<byte>, k: int)
    requires |b| >= HEADER_SIZE && 3 <= k < 11
    ensures |Reader()(b[..HEADER_SIZE])| == 15 && Reader()(b[..HEADER_SIZE])[k] == Word(b, 8 * k - 16, 8)
  {
    WordOffsets(k);
    FormatWidths();
    FieldAt(b, k, 8 * k - 16, 8);
  }

  lemma NumberAt(b: seq<byte>, k: int)
    requires |b| >= HEADER_SIZE && 11 <= k < 15
    ensures |Reader()(b[..HEADER_SIZE])| == 15 && Reader()(b[..HEADER_SIZE])[k] == Word(b, 4 * k + 28, 4)
  {
    NumberOffsets(k);
    FormatWidths();
    FieldAt(b, k, 4 * k + 28, 4);
  }

  ghost predicate WordsStand(b: seq<byte>, h: seq<int>)
    requires |b| >= HEADER_SIZE && |h| == 15
  {
    && h[3] == Word(b, 8, 8) && h[4] == Word(b, 16, 8) && h[5] == Word(b, 24, 8) && h[6] == Word(b, 32, 8)
    && h[7] == Word(b, 40, 8) && h[8] == Word(b, 48, 8) && h[9] == Word(b, 56, 8) && h[10] == Word(b, 64, 8)
  }

  ghost predicate OthersStand(b: seq<byte>, h: seq<int>)
    requires |b| >= HEADER_SIZE && |h| == 15
  {
    && h[0] == Word(b, 0, 4) && h[1] == Word(b, 4, 2) && h[2] == Word(b, 6, 2) && h[11] == Word(b, 72, 4)
    && h[12] == Word(b, 76, 4) && h[13] == Word(b, 80, 4) && h[14] == Word(b, 84, 4)
  }

  lemma WordFields(b: seq<byte>)
    requires |b| >= HEADER_SIZE
    ensures var h := Reader()(b[..HEADER_SIZE]); |h| == 15 && WordsStand(b, h)
  {
    WordAt(b, 3);
    WordAt(b, 4);
    WordAt(b, 5);
    WordAt(b, 6);
    WordAt(b, 7);
    WordAt(b, 8);
    WordAt(b, 9);
    WordAt(b, 10);
  }

  lemma OtherFields(b: seq<byte>)
    requires |b| >= HEADER_SIZE
    ensures var h := Reader()(b[..HEADER_SIZE]); |h| == 15 && OthersStand(b, h)
  {
    FirstOffsets();
    FieldAt(b, 0, 0, 4);
    FieldAt(b, 1, 4, 2);
    FieldAt(b, 2, 6, 2);
    NumberAt(b, 11);
    NumberAt(b, 12);
    NumberAt(b, 13);
    NumberAt(b, 14);
  }

  ghost predicate SizeInBytes(b: seq<byte>, size: seq<byte> -> int) {
    |b| >= HEADER_SIZE ==>
      && (size(b[..HEADER_SIZE]) >= HEADER_SIZE <==> GoodHeader(b, 0))
      && (GoodHeader(b, 0) ==> size(b[..HEADER_SIZE]) == Word(b, 0, 4))
  }

  /** The size of a header, in the bytes. */
  lemma HeaderInBytes(b: seq<byte>, read: seq<byte> -> seq<int>)
    requires |b| >= HEADER_SIZE && |read(b[..HEADER_SIZE])| == 15 && OthersStand(b, read(b[..HEADER_SIZE]))
    ensures SizeInBytes(b, SizeBy(read))
  {
  }

  lemma FieldsStand(b: seq<byte>, r: Record)
    requires |b| >= HEADER_SIZE && WordsStand(b, Fields(r)) && OthersStand(b, Fields(r)) && Readable(r)
    ensures NumbersStand(b, 0, r) && GoodHeader(b, 0) && |r.op| == Word(b, 4, 2) && |r.path| == Word(b, 80, 4)
  {
    var f := Fields(r);
    assert f[0] == 88 + |r.op| + |r.path| && f[1] == |r.op| && f[2] == r.flags && f[3] == r.id && f[4] == r.parent;
    assert f[5] == r.start && f[6] == r.elapsed && f[7] == r.a && f[8] == r.b && f[9] == r.c;
    assert f[10] == Unsigned(r.result) && f[11] == r.pid && f[12] == r.tid && f[13] == |r.path| && f[14] == 1;
  }

  /** Every part of a readable record stands at its place in what is written for it. */
  lemma EncodedStands(r: Record)
    requires Readable(r)
    ensures Stands(Encoder()(r), 0, r)
  {
    FormatReadsBack(r);
    WordFields(Encoder()(r));
    OtherFields(Encoder()(r));
    TextsStand(Encoder()(r), r);
    FieldsStand(Encoder()(r), r);
  }

  lemma EncodedStandsAlone(r: Record)
    ensures StandsAlone(Encoder(), IsReadable(), r)
  {
    if Readable(r) {
      EncodeSize(r);
      EncodedStands(r);
    }
  }

  lemma TextsStand(b: seq<byte>, r: Record)
    requires |b| == Size(r) && b[HEADER_SIZE..] == r.op + r.path
    ensures r.op == b[88..88 + |r.op|] && r.path == b[88 + |r.op|..88 + |r.op| + |r.path|]
  {
    PartMoves(b[HEADER_SIZE..], b, HEADER_SIZE, 0, |r.op|);
    PartMoves(b[HEADER_SIZE..], b, HEADER_SIZE, |r.op|, |r.op| + |r.path|);
    FirstPart(r.op + r.path, r.op, r.path);
  }

  ghost predicate StandsAlone(encode: Record -> seq<byte>, readable: Record -> bool, r: Record) {
    readable(r) ==> |encode(r)| == 88 + |r.op| + |r.path| && Stands(encode(r), 0, r)
  }

  lemma {:induction false} AllStand(data: seq<byte>, p: int, rs: seq<Record>, end: int,
                                    encode: Record -> seq<byte>, readable: Record -> bool)
    requires forall r :: StandsAlone(encode, readable, r)
    requires All(rs, readable) && 0 <= p <= end <= |data| && data[p..end] == EncodeAll(rs, encode)
    ensures StandInARow(data, p, rs, end)
    decreases |rs|
  {
    if rs != [] {
      var r := rs[0];
      assert readable(r) && StandsAlone(encode, readable, r);
      assert Each(rs, encode)[1..] == Each(rs[1..], encode);
      FirstStands(data, p, encode(r), r, EncodeAll(rs[1..], encode), end);
      AllStand(data, p + |encode(r)|, rs[1..], end, encode, readable);
    }
  }

  lemma FirstStands(data: seq<byte>, p: int, frame: seq<byte>, r: Record, more: seq<byte>, end: int)
    requires Stands(frame, 0, r) && 0 <= p <= end <= |data| && data[p..end] == frame + more
    ensures p + |frame| <= end && Stands(data, p, r) && data[p + |frame|..end] == more
  {
    FirstPart(data[p..end], frame, more);
    PartMoves(data[p..end], data, p, 0, |frame|);
    PartMoves(data[p..end], data, p, |frame|, end - p);
    StandsMoves(frame, data, p, r);
  }

  lemma FirstPart(whole: seq<byte>, a: seq<byte>, b: seq<byte>)
    requires whole == a + b
    ensures |a| <= |whole| && whole[..|a|] == a && whole[|a|..] == b
  {
  }

  lemma EndInBytes(data: seq<byte>, p: int, ending: Ending, size: seq<byte> -> int)
    requires 0 <= p <= |data| && Stops(data[p..], size, ending) && SizeInBytes(data[p..], size)
    ensures EndsBy(data, p, ending)
  {
    if |data| - p >= HEADER_SIZE {
      HeaderMoves(data[p..], data, p);
    }
  }

  /** What is read, byte for byte. */
  lemma ReadsInBytes(data: seq<byte>, rs: seq<Record>, p: int, ending: Ending)
    requires 0 <= p <= |data| && ReadsTrace(data, rs, data[p..], ending)
    ensures StandInARow(data, 0, rs, p) && EndsBy(data, p, ending)
  {
    var written := EncodeAll(rs, Encoder());
    assert data[..p] + data[p..] == written + data[p..];
    assert |written| == p && data[0..p] == written;
    forall r ensures StandsAlone(Encoder(), IsReadable(), r) { EncodedStandsAlone(r); }
    AllStand(data, 0, rs, p, Encoder(), IsReadable());
    if |data| - p >= HEADER_SIZE {
      OtherFields(data[p..]);
      HeaderInBytes(data[p..], Reader());
    }
    EndInBytes(data, p, ending, SizeBy(Reader()));
  }

  // ----- reading a file -----

  /** The outcome of reading a trace file: what `records` yields, and where and why it stops. */
  ghost predicate ReadsTrace(data: seq<byte>, rs: seq<Record>, rest: seq<byte>, ending: Ending) {
    Reads(data, rs, rest, ending, Encoder(), IsReadable(), SizeBy(Reader()))
  }

  method ReadRecords(data: seq<byte>) returns (rs: seq<Record>, position: nat, ending: Ending)
    ensures position <= |data| && ReadsTrace(data, rs, data[position..], ending)
    ensures StandInARow(data, 0, rs, position) && EndsBy(data, position, ending)
  {
    FormatLaws();
    rs, position, ending := ReadAll(data, Reader(), Encoder(), IsReadable());
    ReadsInBytes(data, rs, position, ending);
  }

  /** Reading inverts writing: the records come back, and the reader stops normally at the end. */
  lemma RoundTrip(rs: seq<Record>, got: seq<Record>, rest: seq<byte>, e: Ending)
    requires All(rs, IsReadable()) && ReadsTrace(EncodeAll(rs, Encoder()), got, rest, e)
    ensures got == rs && rest == [] && e == Finished
  {
    FormatLaws();
    LawsAreLawful(Reader(), Encoder(), IsReadable());
    ReadsWritten(rs, Encoder(), IsReadable(), SizeBy(Reader()), got, rest, e);
  }

  /** A cut file yields exactly its complete records; the reader then stops normally exactly when the cut
      is on a record boundary, and otherwise reports a truncated header or payload. */
  lemma CutRecords(rs: seq<Record>, n: int, got: seq<Record>, rest: seq<byte>, e: Ending)
    requires All(rs, IsReadable()) && 0 <= n <= |EncodeAll(rs, Encoder())|
    requires ReadsTrace(EncodeAll(rs, Encoder())[..n], got, rest, e)
    ensures got == rs[..Complete(Each(rs, Encoder()), n)]
    ensures e == Finished <==> n == |EncodeAll(got, Encoder())|
    ensures e != Finished ==> e == TruncatedHeader || e == TruncatedPayload
  {
    FormatLaws();
    LawsAreLawful(Reader(), Encoder(), IsReadable());
    ReadsCut(rs, n, Encoder(), IsReadable(), SizeBy(Reader()), got, rest, e);
  }

  lemma OversizeHeader(r: Record, tail: seq<byte>, read: seq<byte> -> seq<int>, encode: Record -> seq<byte>)
    requires ReadsBack(read, encode, r) && Size(r) > SIZE_LIMIT
    ensures Stops(encode(r) + tail, SizeBy(read), InvalidRecord)
  {
    assert (encode(r) + tail)[..HEADER_SIZE] == encode(r)[..HEADER_SIZE];
    assert !ValidHeader(Fields(r));
  }

  /** A record that can be packed but is over the limit stops the reader instead of being read. */
  lemma OversizeIsRefused(r: Record, tail: seq<byte>, got: seq<Record>, rest: seq<byte>, e: Ending)
    requires Packable(r) && Size(r) > SIZE_LIMIT
    requires ReadsTrace(Encoder()(r) + tail, got, rest, e)
    ensures got == [] && e == InvalidRecord
  {
    FormatLaws();
    LawsAreLawful(Reader(), Encoder(), IsReadable());
    OversizeHeader(r, tail, Reader(), Encoder());
    ReadsRefused(Encoder()(r) + tail, Encoder(), IsReadable(), SizeBy(Reader()), got, rest, e);
  }

  // ----- the encoder -----

  /** The record that `event` packs. */
  function EventRecord(id: int, parent: int, elapsed: int, op: seq<byte>, result: int, args: (int, int, int),
      path: seq<byte>): Record {
    Event(id, parent, 1, elapsed, args.0, args.1, args.2, result, 42, 3, 0, op, path)
  }

  predicate IsWord(n: int) { 0 <= n < WORD }

  /** The three widths, and which fields have them. */
  lemma FormatWidths()
    ensures |Format()| == 15 && Format()[0] == 4 && Format()[1] == 2 && Format()[2] == 2
    ensures forall i | 3 <= i < 11 :: Format()[i] == 8
    ensures forall i | 11 <= i < 15 :: Format()[i] == 4
  {
    FormatSize();
  }

  /** A record can be packed if and only if its fields fit. */
  lemma PackableIff(r: Record)
    ensures var f := Fields(r);
            Packable(r) <==> && 0 <= f[0] < 0x1_0000_0000 && 0 <= f[1] < 0x1_0000 && 0 <= f[2] < 0x1_0000
                             && (forall i | 3 <= i < 11 :: IsWord(f[i]))
                             && (forall i | 11 <= i < 15 :: 0 <= f[i] < 0x1_0000_0000)
                             && -WORD / 2 <= r.result < WORD / 2
  {
    var f, w := Fields(r), Format();
    FormatWidths();
    FormatSize();
    WordPowers();
    if InRange(f, w) {
      assert 0 <= f[0] < Power(w[0]) && 0 <= f[1] < Power(w[1]) && 0 <= f[2] < Power(w[2]);
      forall i | 3 <= i < 15 ensures 0 <= f[i] < Power(w[i]) {}
    }
  }

  /** What `event` packs can be read if and only if its numbers fit their fields and it is not too long. */
  lemma EventIsReadable(id: int, parent: int, elapsed: int, op: seq<byte>, result: int, args: (int, int, int),
                        path: seq<byte>)
    ensures Readable(EventRecord(id, parent, elapsed, op, result, args, path))
       <==> && IsWord(id) && IsWord(parent) && IsWord(elapsed) && IsWord(args.0) && IsWord(args.1) && IsWord(args.2)
            && -WORD / 2 <= result < WORD / 2 && HEADER_SIZE + |op| + |path| <= SIZE_LIMIT
  {
    var r := EventRecord(id, parent, elapsed, op, result, args, path);
    var f := Fields(r);
    PackableIff(r);
    assert f[3] == id && f[4] == parent && f[5] == 1 && f[6] == elapsed;
    assert f[7] == args.0 && f[8] == args.1 && f[9] == args.2;
    assert f[10] == Unsigned(result) && f[11] == 42 && f[12] == 3 && f[13] == |path| && f[14] == 1;
    if IsWord(id) && IsWord(parent) && IsWord(elapsed) && IsWord(args.0) && IsWord(args.1) && IsWord(args.2)
       && -WORD / 2 <= result < WORD / 2 && HEADER_SIZE + |op| + |path| <= SIZE_LIMIT {
      forall i | 3 <= i < 11 ensures IsWord(f[i]) {
        assert i == 3 || i == 4 || i == 5 || i == 6 || i == 7 || i == 8 || i == 9 || i == 10;
      }
      forall i | 11 <= i < 15 ensures 0 <= f[i] < 0x1_0000_0000 {
        assert i == 11 || i == 12 || i == 13 || i == 14;
      }
    }
  }
}
