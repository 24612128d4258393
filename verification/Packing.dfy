/** Little-endian integers and structures packed from them, as the `struct` formats lay them out. */
module Packing {
  import opened Frames

  // ----- little-endian packing -----

  function Power(width: int): int
    ensures Power(width) > 0
  {
    if width <= 0 then 1 else 256 * Power(width - 1)
  }

  function ToBytes(n: int, width: int): (b: seq<byte>)
    requires n >= 0 && width >= 0
    ensures |b| == width
    decreases width
  {
    if width == 0 then [] else [n % 256] + ToBytes(n / 256, width - 1)
  }

  function FromBytes(b: seq<byte>): (n: int)
    ensures 0 <= n < Power(|b|)
  {
    if b == [] then 0 else b[0] + 256 * FromBytes(b[1..])
  }

  lemma {:induction false} FromToBytes(n: int, width: int)
    requires 0 <= n < Power(width) && width >= 0
    ensures FromBytes(ToBytes(n, width)) == n
    decreases width
  {
    if width > 0 {
      FromToBytes(n / 256, width - 1);
      assert ToBytes(n, width)[1..] == ToBytes(n / 256, width - 1);
    }
  }

  lemma {:induction false} ToFromBytes(b: seq<byte>)
    ensures ToBytes(FromBytes(b), |b|) == b
  {
    if b != [] {
      ToFromBytes(b[1..]);
      assert FromBytes(b) % 256 == b[0] && FromBytes(b) / 256 == FromBytes(b[1..]);
      assert b == [b[0]] + b[1..];
    }
  }

  /** The lowest byte comes first. */
  lemma TwoBytes(b: seq<byte>)
    requires |b| >= 2
    ensures FromBytes(b) == (b[0] as int) + 0x100 * (b[1] as int) + 0x1_0000 * FromBytes(b[2..])
  {
    assert FromBytes(b) == (b[0] as int) + 256 * FromBytes(b[1..]);
    assert FromBytes(b[1..]) == (b[1] as int) + 256 * FromBytes(b[1..][1..]);
    assert b[1..][1..] == b[2..];
  }

  /** The value of two, four and eight bytes. */
  lemma LittleEndian(b: seq<byte>)
    ensures |b| == 2 ==> FromBytes(b) == (b[0] as int) + 0x100 * (b[1] as int)
    ensures |b| == 4 ==> FromBytes(b) == FromBytes(b[..2]) + 0x1_0000 * FromBytes(b[2..])
    ensures |b| == 8 ==> FromBytes(b) == FromBytes(b[..4]) + 0x1_0000_0000 * FromBytes(b[4..])
  {
    if |b| == 2 || |b| == 4 {
      TwoBytes(b);
      TwoBytes(b[..2]);
    }
    if |b| == 8 {
      FourBytes(b);
      FourBytes(b[..4]);
    }
  }

  lemma FourBytes(b: seq<byte>)
    requires |b| >= 4
    ensures FromBytes(b) == (b[0] as int) + 0x100 * (b[1] as int) + 0x1_0000 * (b[2] as int)
                            + 0x100_0000 * (b[3] as int) + 0x1_0000_0000 * FromBytes(b[4..])
  {
    TwoBytes(b);
    TwoBytes(b[2..]);
    assert b[2..][2..] == b[4..];
  }

  // ----- packed structures -----

  ghost predicate Widths(widths: seq<int>) { forall i | 0 <= i < |widths| :: widths[i] >= 0 }

  ghost predicate InRange(values: seq<int>, widths: seq<int>) {
    |values| == |widths| && Widths(widths) && forall i | 0 <= i < |values| :: 0 <= values[i] < Power(widths[i])
  }

  function Total(widths: seq<int>): int {
    if widths == [] then 0 else widths[0] + Total(widths[1..])
  }

  ghost function Pack(values: seq<int>, widths: seq<int>): seq<byte>
    requires InRange(values, widths)
    decreases |values|
  {
    if values == [] then [] else ToBytes(values[0], widths[0]) + Pack(values[1..], widths[1..])
  }

  /** The values of the bytes; fewer of them when the bytes run out. */
  function Unpack(b: seq<byte>, widths: seq<int>): seq<int>
    decreases |widths|
  {
    if widths == [] || !(0 <= widths[0] <= |b|) then []
    else [FromBytes(b[..widths[0]])] + Unpack(b[widths[0]..], widths[1..])
  }

  lemma {:induction false} PackSize(values: seq<int>, widths: seq<int>)
    requires InRange(values, widths)
    ensures |Pack(values, widths)| == Total(widths)
    decreases |values|
  {
    if values != [] {
      PackSize(values[1..], widths[1..]);
    }
  }

  lemma {:induction false} UnpackInRange(b: seq<byte>, widths: seq<int>)
    requires Widths(widths) && |b| == Total(widths)
    ensures InRange(Unpack(b, widths), widths)
    decreases |widths|
  {
    if widths != [] {
      TotalPositive(widths[1..]);
      UnpackInRange(b[widths[0]..], widths[1..]);
    }
  }

  lemma {:induction false} TotalPositive(widths: seq<int>)
    requires Widths(widths)
    ensures Total(widths) >= 0
  {
    if widths != [] {
      TotalPositive(widths[1..]);
    }
  }

  lemma {:induction false} UnpackPack(values: seq<int>, widths: seq<int>)
    requires InRange(values, widths)
    ensures Unpack(Pack(values, widths), widths) == values
    decreases |values|
  {
    if values != [] {
      var b := Pack(values, widths);
      assert b[..widths[0]] == ToBytes(values[0], widths[0]);
      assert b[widths[0]..] == Pack(values[1..], widths[1..]);
      FromToBytes(values[0], widths[0]);
      UnpackPack(values[1..], widths[1..]);
      assert values == [values[0]] + values[1..];
    }
  }

  lemma {:induction false} PackUnpack(b: seq<byte>, widths: seq<int>)
    requires Widths(widths) && |b| == Total(widths)
    ensures InRange(Unpack(b, widths), widths) && Pack(Unpack(b, widths), widths) == b
    decreases |widths|
  {
    UnpackInRange(b, widths);
    if widths != [] {
      TotalPositive(widths[1..]);
      var values := Unpack(b, widths);
      ToFromBytes(b[..widths[0]]);
      PackUnpack(b[widths[0]..], widths[1..]);
      assert values[1..] == Unpack(b[widths[0]..], widths[1..]);
      assert b == b[..widths[0]] + b[widths[0]..];
    }
  }

  /** Every value is that of its own bytes. */
  lemma {:induction false} UnpackedAt(b: seq<byte>, widths: seq<int>, k: int)
    requires Widths(widths) && |b| == Total(widths) && 0 <= k < |widths|
    ensures var at := Total(widths[..k]);
            && |Unpack(b, widths)| == |widths| && 0 <= at && at + widths[k] <= |b|
            && Unpack(b, widths)[k] == FromBytes(b[at..at + widths[k]])
    decreases k
  {
    UnpackInRange(b, widths);
    TotalPositive(widths[1..]);
    if k > 0 {
      var rest := b[widths[0]..];
      UnpackedAt(rest, widths[1..], k - 1);
      assert widths[..k][1..] == widths[1..][..k - 1];
      var at := Total(widths[1..][..k - 1]);
      assert rest[at..at + widths[k]] == b[widths[0] + at..widths[0] + at + widths[k]];
    }
  }

  /** The same for bytes that start with those. */
  lemma UnpackedPart(b: seq<byte>, size: int, widths: seq<int>, k: int, at: int, n: int)
    requires Widths(widths) && |b| >= size == Total(widths) >= 0 && 0 <= k < |widths|
    requires at == Total(widths[..k]) && n == widths[k]
    ensures 0 <= at <= at + n <= |b|
    ensures var h := Unpack(b[..size], widths); |h| == |widths| && h[k] == FromBytes(b[at..at + n])
  {
    UnpackedAt(b[..size], widths, k);
    assert b[..size][at..at + n] == b[at..at + n];
  }

  lemma {:induction false} TotalNext(widths: seq<int>, k: int)
    requires 0 <= k < |widths|
    ensures Total(widths[..k + 1]) == Total(widths[..k]) + widths[k]
    decreases k
  {
    if k > 0 {
      TotalNext(widths[1..], k - 1);
      assert widths[..k + 1][1..] == widths[1..][..k] && widths[..k][1..] == widths[1..][..k - 1];
    } else {
      assert widths[..1][1..] == [] && widths[..0] == [];
    }
  }
}
