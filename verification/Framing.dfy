// Length-prefixed frames: writeBackupBytes and readBackupBytes of states/etcd_backup.go.
module Framing {
  import opened Prelude
  import opened KeyOrder

  type Bytes = seq<Byte>

  const TWO_64 := 0x1_0000_0000_0000_0000

  /** An encoding and a decoding of T, such as a protobuf or JSON marshaller. */
  datatype Codec<!T> = Codec(encode: T -> Bytes, decode: Bytes -> Option<T>) {
    /** Decoding undoes encoding for x, which does not encode to nothing and fits an 8-byte length. */
    ghost predicate ReadsBack(x: T) {
      0 < |encode(x)| < TWO_64 && decode(encode(x)) == Some(x)
    }

    /** The codec reads back each of the values actually written. */
    ghost predicate FaithfulOn(xs: seq<T>) {
      forall x | x in xs :: ReadsBack(x)
    }
  }

  function LittleEndian(n: nat, size: nat): (r: Bytes)
    ensures |r| == size
  {
    if size == 0 then [] else [(n % 256) as Byte] + LittleEndian(n / 256, size - 1)
  }

  function FromLittleEndian(bs: Bytes): nat {
    if bs == [] then 0 else bs[0] as nat + 256 * FromLittleEndian(bs[1..])
  }

  function Pow256(k: nat): nat {
    if k == 0 then 1 else 256 * Pow256(k - 1)
  }

  lemma {:induction false} LittleEndianRoundTrip(n: nat, size: nat)
    requires n < Pow256(size)
    ensures FromLittleEndian(LittleEndian(n, size)) == n
  {
    if size > 0 {
      LittleEndianRoundTrip(n / 256, size - 1);
      var r := LittleEndian(n, size);
      assert r[1..] == LittleEndian(n / 256, size - 1);
    }
  }

  lemma LengthRoundTrip(n: nat)
    requires n < TWO_64
    ensures FromLittleEndian(LittleEndian(n, 8)) == n
  {
    assert Pow256(4) == 0x1_0000_0000;
    assert Pow256(8) == 256 * (256 * (256 * (256 * Pow256(4))));
    LittleEndianRoundTrip(n, 8);
  }

  /** What writeBackupBytes appends: an 8-byte length, then the data. */
  function Frame(data: Bytes): Bytes {
    LittleEndian(|data|, 8) + data
  }

  lemma FrameLength(data: Bytes)
    ensures |Frame(data)| == 8 + |data|
  {
  }

  class Writer {
    var out: Bytes

    constructor ()
      ensures out == []
    {
      out := [];
    }

    method WriteBackupBytes(data: Bytes)
      modifies this
      ensures out == old(out) + Frame(data)
    {
      out := out + LittleEndian(|data|, 8);
      if |data| > 0 {
        out := out + data;
      }
      assert out == old(out) + (LittleEndian(|data|, 8) + data);
    }
  }

  datatype ReadError = Eof | UnexpectedEof

  /** The outcome of a full read of n bytes. */
  datatype ReadResult = Got(data: Bytes) | Failed(error: ReadError)

  function ReadFullOf(s: Bytes, n: nat): (ReadResult, Bytes) {
    if |s| >= n then (Got(s[..n]), s[n..])
    else (Failed(if s == [] then Eof else UnexpectedEof), [])
  }

  /** readBackupBytes: the frame's data, or the error of whichever read fell short. */
  function ReadFrameOf(s: Bytes): (r: (ReadResult, Bytes))
    ensures r.0.Got? ==> |r.1| < |s|
  {
    var header := ReadFullOf(s, 8);
    if header.0.Failed? then header
    else ReadFullOf(header.1, FromLittleEndian(header.0.data))
  }

  class Reader {
    var rest: Bytes

    constructor (stream: Bytes)
      ensures rest == stream
    {
      rest := stream;
    }

    method ReadFull(n: nat) returns (r: ReadResult)
      modifies this
      ensures (r, rest) == ReadFullOf(old(rest), n)
    {
      if |rest| >= n {
        r := Got(rest[..n]);
        rest := rest[n..];
      } else {
        r := Failed(if rest == [] then Eof else UnexpectedEof);
        rest := [];
      }
    }

    method ReadBackupBytes() returns (r: ReadResult)
      modifies this
      ensures (r, rest) == ReadFrameOf(old(rest))
    {
      r := ReadFull(8);
      if r.Failed? {
        return;
      }
      r := ReadFull(FromLittleEndian(r.data));
    }
  }

  lemma ReadsFront(front: Bytes, tail: Bytes)
    ensures ReadFullOf(front + tail, |front|) == (Got(front), tail)
  {
    assert (front + tail)[..|front|] == front && (front + tail)[|front|..] == tail;
  }

  /** A frame is read back exactly, and nothing after it is touched. */
  lemma FrameRoundTrip(data: Bytes, tail: Bytes)
    requires |data| < TWO_64
    ensures ReadFrameOf(Frame(data) + tail) == (Got(data), tail)
  {
    LengthRoundTrip(|data|);
    Regroup(LittleEndian(|data|, 8), data, tail);
    ReadsFront(LittleEndian(|data|, 8), data + tail);
    ReadsFront(data, tail);
  }

  lemma ReadsShort(front: Bytes, n: nat)
    requires n < |front|
    ensures ReadFullOf(front[..n], |front|) == (Failed(if n == 0 then Eof else UnexpectedEof), [])
  {
  }

  /** A frame cut short: nothing at all, or exactly the length, reads as the end of the file. */
  lemma CutFrame(data: Bytes, n: nat)
    requires |data| < TWO_64 && n < 8 + |data|
    ensures ReadFrameOf(Frame(data)[..n]) == (Failed(if n == 0 || n == 8 then Eof else UnexpectedEof), [])
  {
    var header := LittleEndian(|data|, 8);
    LengthRoundTrip(|data|);
    if n < 8 {
      assert Frame(data)[..n] == header[..n];
      ReadsShort(header, n);
    } else {
      assert Frame(data)[..n] == header + data[..n - 8];
      ReadsFront(header, data[..n - 8]);
      ReadsShort(data, n - 8);
    }
  }

  lemma {:induction false} ByteAt(n: nat, size: nat, k: nat)
    requires k < size
    ensures LittleEndian(n, size)[k] as nat == ShiftedBytes(n, k) % 256
  {
    if k > 0 {
      ByteAt(n / 256, size - 1, k - 1);
    }
  }

  function ShiftedBytes(n: nat, k: nat): nat {
    if k == 0 then n else ShiftedBytes(n / 256, k - 1)
  }

  lemma ShiftedTwice(n: nat, j: nat, k: nat)
    ensures ShiftedBytes(n, j + k) == ShiftedBytes(ShiftedBytes(n, j), k)
  {
  }

  /** A length in bytes: eight of them, the lowest first. */
  lemma LengthBytes(n: nat)
    ensures var r := LittleEndian(n, 8);
      && |r| == 8
      && r[0] as nat == n % 0x100
      && r[1] as nat == n / 0x100 % 0x100
      && r[2] as nat == n / 0x1_0000 % 0x100
      && r[3] as nat == n / 0x100_0000 % 0x100
      && r[4] as nat == n / 0x1_0000_0000 % 0x100
      && r[5] as nat == n / 0x100_0000_0000 % 0x100
      && r[6] as nat == n / 0x1_0000_0000_0000 % 0x100
      && r[7] as nat == n / 0x100_0000_0000_0000 % 0x100
  {
    FourShifts(n);
    HigherShifts(n, n / 0x1_0000_0000);
    ByteAt(n, 8, 0);
    ByteAt(n, 8, 1);
    ByteAt(n, 8, 2);
    ByteAt(n, 8, 3);
    ByteAt(n, 8, 4);
    ByteAt(n, 8, 5);
    ByteAt(n, 8, 6);
    ByteAt(n, 8, 7);
  }

  lemma HigherShifts(n: nat, m: nat)
    requires m == n / 0x1_0000_0000
    ensures ShiftedBytes(n, 5) == n / 0x100_0000_0000 && ShiftedBytes(n, 6) == n / 0x1_0000_0000_0000
    ensures ShiftedBytes(n, 7) == n / 0x100_0000_0000_0000
  {
    FourShifts(n);
    FourShifts(m);
    ShiftedTwice(n, 4, 1);
    ShiftedTwice(n, 4, 2);
    ShiftedTwice(n, 4, 3);
    assert m / 0x100 == n / 0x100_0000_0000;
    assert m / 0x1_0000 == n / 0x1_0000_0000_0000;
    assert m / 0x100_0000 == n / 0x100_0000_0000_0000;
  }

  lemma FourShifts(n: nat)
    ensures ShiftedBytes(n, 0) == n && ShiftedBytes(n, 1) == n / 0x100 && ShiftedBytes(n, 2) == n / 0x1_0000
    ensures ShiftedBytes(n, 3) == n / 0x100_0000 && ShiftedBytes(n, 4) == n / 0x1_0000_0000
  {
    assert ShiftedBytes(n, 1) == n / 256;
    assert ShiftedBytes(n, 2) == n / 256 / 256 by {
      ShiftedTwice(n, 1, 1);
    }
    assert ShiftedBytes(n, 3) == n / 256 / 256 / 256 by {
      ShiftedTwice(n, 2, 1);
    }
    assert ShiftedBytes(n, 4) == n / 256 / 256 / 256 / 256 by {
      ShiftedTwice(n, 3, 1);
    }
  }
}
