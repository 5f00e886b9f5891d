/** Machine integers, wire byte order and the two result datatypes shared by every component. */
module Machine {

  datatype Option<+T> = None | Some(value: T)

  datatype Result<+T, +E> = Ok(value: T) | Err(error: E)

  type u8 = x: int | 0 <= x < 0x100
  type u16 = x: int | 0 <= x < 0x1_0000
  type u32 = x: int | 0 <= x < 0x1_0000_0000

  /** A Go string or byte slice. */
  type Bytes = seq<u8>

  const TWO16: nat := 0x1_0000
  const TWO32: nat := 0x1_0000_0000

  /** Big-endian (network order) encodings, as encoding/binary and DataView use them. */
  function PutU16(v: u16): (bs: seq<u8>)
    ensures |bs| == 2 && GetU16(bs) == v
  {
    [v / 0x100, v % 0x100]
  }

  function GetU16(bs: seq<u8>): u16
    requires |bs| == 2
  {
    0x100 * (bs[0] as int) + (bs[1] as int)
  }

  function PutU32(v: u32): (bs: seq<u8>)
    ensures |bs| == 4 && GetU32(bs) == v
  {
    var hi, lo := PutU16(v / TWO16), PutU16(v % TWO16);
    assert (hi + lo)[..2] == hi && (hi + lo)[2..] == lo;
    hi + lo
  }

  function GetU32(bs: seq<u8>): u32
    requires |bs| == 4
  {
    TWO16 * (GetU16(bs[..2]) as int) + (GetU16(bs[2..]) as int)
  }

  lemma PutGetU16(bs: seq<u8>)
    requires |bs| == 2
    ensures PutU16(GetU16(bs)) == bs
  {
  }

  lemma PutGetU32(bs: seq<u8>)
    requires |bs| == 4
    ensures PutU32(GetU32(bs)) == bs
  {
    PutGetU16(bs[..2]);
    PutGetU16(bs[2..]);
  }

  function Flatten<T>(chunks: seq<seq<T>>): seq<T>
  {
    if chunks == [] then [] else chunks[0] + Flatten(chunks[1..])
  }

  lemma {:induction false} FlattenConcat<T>(a: seq<seq<T>>, b: seq<seq<T>>)
    ensures Flatten(a + b) == Flatten(a) + Flatten(b)
  {
    if a == [] {
      assert a + b == b;
    } else {
      assert (a + b)[1..] == a[1..] + b;
      FlattenConcat(a[1..], b);
    }
  }

  lemma AppendAssoc<T>(a: seq<T>, b: seq<T>, c: seq<T>)
    ensures a + b + c == a + (b + c)
  {
  }

  /** Go's string order: bytewise, a proper prefix first. */
  predicate Less(a: Bytes, b: Bytes)
  {
    if b == [] then false
    else if a == [] then true
    else a[0] < b[0] || (a[0] == b[0] && Less(a[1..], b[1..]))
  }

  lemma {:induction false} IrreflexiveLess(a: Bytes)
    ensures !Less(a, a)
  {
    if a != [] { IrreflexiveLess(a[1..]); }
  }

  lemma {:induction false} LessIsTotal(a: Bytes, b: Bytes)
    ensures a != b ==> (Less(a, b) <==> !Less(b, a))
    ensures !Less(a, a)
    decreases |a| + |b|
  {
    IrreflexiveLess(a);
    if a != [] && b != [] && a[0] == b[0] {
      LessIsTotal(a[1..], b[1..]);
      if a[1..] == b[1..] {
        assert a == [a[0]] + a[1..] && b == [b[0]] + b[1..];
      }
    }
  }

  /** At the first byte that differs the lesser one decides; where there is none, the shorter string is less. */
  lemma {:induction false} LessIsBytewise(a: Bytes, b: Bytes, i: nat)
    requires i <= |a| && i <= |b| && a[..i] == b[..i] && (i < |a| && i < |b| ==> a[i] != b[i])
    ensures Less(a, b) <==> i < |b| && (i == |a| || a[i] < b[i])
    decreases i
  {
    if i > 0 {
      assert a[0] == a[..i][0] == b[..i][0] == b[0];
      assert a[1..][..i - 1] == a[..i][1..] && b[1..][..i - 1] == b[..i][1..];
      LessIsBytewise(a[1..], b[1..], i - 1);
    }
  }
}
