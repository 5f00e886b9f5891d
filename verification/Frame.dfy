/** The data-plane frame codec (internal/protocol/frame.go). */
module Frames {
  import opened Machine

  const FRAME_MAGIC: u8 := 0x21
  const DST_UNICAST: u8 := 1
  const DST_MULTICAST: u8 := 2
  const DST_BROADCAST: u8 := 3
  const FIXED_HEADER: nat := 12
  const MAX_MULTICAST: nat := 255

  datatype Frame = Frame(
    flags: u8,
    srcIndex: u16,
    dstType: u8,
    dst: seq<u16>,
    streamId: u32,
    number: u16,
    payload: Bytes)

  datatype EncodeErr = InvalidDstType | UnicastNeedsOne | MulticastNeedsSome | MulticastTooLong

  datatype ParseErr = TooShort | BadMagic | TruncatedUnicast | TruncatedCount | BadDstList | UnknownDstType

  predicate Encodable(f: Frame)
  {
    || (f.dstType == DST_UNICAST && |f.dst| == 1)
    || (f.dstType == DST_MULTICAST && 1 <= |f.dst| <= MAX_MULTICAST)
    || f.dstType == DST_BROADCAST
  }

  function HeaderLen(f: Frame): nat
  {
    if f.dstType == DST_UNICAST then FIXED_HEADER + 2
    else if f.dstType == DST_MULTICAST then FIXED_HEADER + 1 + 2 * |f.dst|
    else FIXED_HEADER
  }

  // ---- The layout ----------------------------------------------------------------

  function Fixed(flags: u8, srcIndex: u16, dstType: u8, streamId: u32, number: u16): (h: Bytes)
    ensures |h| == FIXED_HEADER
    ensures h[0] == FRAME_MAGIC && h[1] == flags && h[2..4] == PutU16(srcIndex) && h[4] == dstType
    ensures h[5..9] == PutU32(streamId) && h[9..11] == PutU16(number) && h[11] == 0
  {
    [FRAME_MAGIC, flags] + PutU16(srcIndex) + [dstType] + PutU32(streamId) + PutU16(number) + [0]
  }

  function PutAll(dst: seq<u16>): (bs: Bytes)
    ensures |bs| == 2 * |dst|
  {
    if dst == [] then [] else PutAll(dst[..|dst| - 1]) + PutU16(dst[|dst| - 1])
  }

  function GetAll(bs: Bytes, n: nat): (dst: seq<u16>)
    requires |bs| >= 2 * n
    ensures |dst| == n
  {
    if n == 0 then [] else GetAll(bs, n - 1) + [GetU16(bs[2 * n - 2..2 * n])]
  }

  function Targets(f: Frame): Bytes
    requires Encodable(f)
  {
    if f.dstType == DST_UNICAST then PutU16(f.dst[0])
    else if f.dstType == DST_MULTICAST then [|f.dst|] + PutAll(f.dst)
    else []
  }

  function Encoded(f: Frame): Bytes
    requires Encodable(f)
  {
    Fixed(f.flags, f.srcIndex, f.dstType, f.streamId, f.number) + Targets(f) + f.payload
  }

  /** Where the targets of an accepted frame end, or why it is rejected. */
  function ParsedTargets(b: Bytes): Result<(seq<u16>, nat), ParseErr>
    requires |b| >= FIXED_HEADER
  {
    if b[4] == DST_UNICAST then
      if |b| < 14 then Err(TruncatedUnicast) else Ok(([GetU16(b[12..14])], 14))
    else if b[4] == DST_MULTICAST then
      if |b| < 13 then Err(TruncatedCount)
      else if b[12] == 0 || |b| < 13 + 2 * b[12] as int then Err(BadDstList)
      else Ok((GetAll(b[13..], b[12]), 13 + 2 * b[12] as int))
    else if b[4] == DST_BROADCAST then Ok(([], 12))
    else Err(UnknownDstType)
  }

  function Parsed(b: Bytes): Result<Frame, ParseErr>
  {
    if |b| < FIXED_HEADER then Err(TooShort)
    else if b[0] != FRAME_MAGIC then Err(BadMagic)
    else
      match ParsedTargets(b)
      case Err(e) => Err(e)
      case Ok((dst, off)) =>
        Ok(Frame(b[1], GetU16(b[2..4]), b[4], dst, GetU32(b[5..9]), GetU16(b[9..11]), b[off..]))
  }

  // ---- The code ------------------------------------------------------------------

  method PutU16At(buf: array<u8>, off: nat, v: u16)
    requires off + 2 <= buf.Length
    modifies buf
    ensures buf[off..off + 2] == PutU16(v)
    ensures forall i :: 0 <= i < buf.Length && !(off <= i < off + 2) ==> buf[i] == old(buf[i])
  {
    buf[off] := v / 0x100;
    buf[off + 1] := v % 0x100;
  }

  method PutU32At(buf: array<u8>, off: nat, v: u32)
    requires off + 4 <= buf.Length
    modifies buf
    ensures buf[off..off + 4] == PutU32(v)
    ensures forall i :: 0 <= i < buf.Length && !(off <= i < off + 4) ==> buf[i] == old(buf[i])
  {
    PutU16At(buf, off, v / TWO16);
    ghost var hi := buf[off..off + 2];
    PutU16At(buf, off + 2, v % TWO16);
    assert buf[off..off + 4] == hi + buf[off + 2..off + 4];
  }

  method EncodeFrame(f: Frame) returns (r: Result<array<u8>, EncodeErr>)
    ensures r.Ok? <==> Encodable(f)
    ensures r.Ok? ==> fresh(r.value) && r.value[..] == Encoded(f)
    ensures r.Err? ==> r.error == (if f.dstType < DST_UNICAST || f.dstType > DST_BROADCAST then InvalidDstType
                                   else if f.dstType == DST_UNICAST then UnicastNeedsOne
                                   else if f.dst == [] then MulticastNeedsSome
                                   else MulticastTooLong)
  {
    if f.dstType < DST_UNICAST || f.dstType > DST_BROADCAST {
      return Err(InvalidDstType);
    }
    var extra := 0;
    if f.dstType == DST_UNICAST {
      if |f.dst| != 1 {
        return Err(UnicastNeedsOne);
      }
      extra := 2;
    } else if f.dstType == DST_MULTICAST {
      if |f.dst| == 0 {
        return Err(MulticastNeedsSome);
      }
      if |f.dst| > MAX_MULTICAST {
        return Err(MulticastTooLong);
      }
      extra := 1 + 2 * |f.dst|;
    }
    var buf := new u8[FIXED_HEADER + extra + |f.payload|](_ => 0);
    PutFixed(buf, f);
    PutTargets(buf, f);
    var off := FIXED_HEADER + extra;
    PutPayload(buf, off, f.payload);
    assert buf[..] == buf[..off] + f.payload;
    return Ok(buf);
  }

  method PutFixed(buf: array<u8>, f: Frame)
    requires buf.Length >= FIXED_HEADER && buf[11] == 0
    modifies buf
    ensures buf[..FIXED_HEADER] == Fixed(f.flags, f.srcIndex, f.dstType, f.streamId, f.number)
  {
    buf[0] := FRAME_MAGIC;
    buf[1] := f.flags;
    PutU16At(buf, 2, f.srcIndex);
    ghost var src := buf[2..4];
    buf[4] := f.dstType;
    PutU32At(buf, 5, f.streamId);
    ghost var id := buf[5..9];
    PutU16At(buf, 9, f.number);
    assert buf[2..4] == src && buf[5..9] == id;
    ghost var h := Fixed(f.flags, f.srcIndex, f.dstType, f.streamId, f.number);
    ghost var b := buf[..FIXED_HEADER];
    assert b[2..4] == buf[2..4] && b[5..9] == buf[5..9] && b[9..11] == buf[9..11];
    HeaderBytes(h, b);
  }

  method PutTargets(buf: array<u8>, f: Frame)
    requires Encodable(f) && buf.Length >= HeaderLen(f)
    modifies buf
    ensures buf[..HeaderLen(f)] == old(buf[..FIXED_HEADER]) + Targets(f)
  {
    var off := FIXED_HEADER;
    if f.dstType == DST_UNICAST {
      PutU16At(buf, off, f.dst[0]);
    } else if f.dstType == DST_MULTICAST {
      buf[off] := |f.dst|;
      off := off + 1;
      for i := 0 to |f.dst|
        invariant off == FIXED_HEADER + 1 + 2 * i
        invariant buf[..off] == old(buf[..FIXED_HEADER]) + [|f.dst|] + PutAll(f.dst[..i])
      {
        ghost var done := buf[..off];
        PutU16At(buf, off, f.dst[i]);
        assert f.dst[..i + 1][..i] == f.dst[..i];
        assert buf[..off + 2] == done + buf[off..off + 2];
        AppendAssoc(old(buf[..FIXED_HEADER]) + [|f.dst|], PutAll(f.dst[..i]), PutU16(f.dst[i]));
        off := off + 2;
      }
      assert f.dst[..|f.dst|] == f.dst;
    }
  }

  method PutPayload(buf: array<u8>, off: nat, payload: Bytes)
    requires buf.Length == off + |payload|
    modifies buf
    ensures buf[..off] == old(buf[..off]) && buf[off..] == payload
  {
    forall i | 0 <= i < |payload| {
      buf[off + i] := payload[i];
    }
  }

  method ReadTargets(b: Bytes, start: nat, n: nat) returns (dst: seq<u16>)
    requires start + 2 * n <= |b|
    ensures dst == GetAll(b[start..], n)
  {
    dst := [];
    var off := start;
    for i := 0 to n
      invariant off == start + 2 * i
      invariant dst == GetAll(b[start..], i)
    {
      assert b[start..][2 * i..2 * i + 2] == b[off..off + 2];
      dst := dst + [GetU16(b[off..off + 2])];
      off := off + 2;
    }
  }

  method ParseFrame(b: Bytes) returns (r: Result<Frame, ParseErr>)
    ensures r == Parsed(b)
  {
    hide GetAll, GetU16, GetU32;
    if |b| < FIXED_HEADER {
      return Err(TooShort);
    }
    if b[0] != FRAME_MAGIC {
      return Err(BadMagic);
    }
    var f := Frame(b[1], GetU16(b[2..4]), b[4], [], GetU32(b[5..9]), GetU16(b[9..11]), []);
    var off := FIXED_HEADER;
    if f.dstType == DST_UNICAST {
      if |b| < off + 2 {
        return Err(TruncatedUnicast);
      }
      f := f.(dst := [GetU16(b[off..off + 2])]);
      off := off + 2;
    } else if f.dstType == DST_MULTICAST {
      if |b| < off + 1 {
        return Err(TruncatedCount);
      }
      var n: nat := b[off];
      off := off + 1;
      if n == 0 || n > MAX_MULTICAST || |b| < off + 2 * n {
        return Err(BadDstList);
      }
      var dst := ReadTargets(b, off, n);
      f := f.(dst := dst);
      off := off + 2 * n;
    } else if f.dstType != DST_BROADCAST {
      return Err(UnknownDstType);
    }
    return Ok(f.(payload := b[off..]));
  }

  // ---- Round trips -----------------------------------------------------------------

  lemma {:induction false} GetPutAll(dst: seq<u16>, rest: Bytes)
    ensures GetAll(PutAll(dst) + rest, |dst|) == dst
    decreases |dst|
  {
    if dst != [] {
      var init, last := dst[..|dst| - 1], PutU16(dst[|dst| - 1]);
      assert PutAll(dst) + rest == PutAll(init) + (last + rest);
      GetPutAll(init, last + rest);
      assert (PutAll(dst) + rest)[2 * |dst| - 2..2 * |dst|] == last;
    }
  }

  lemma {:induction false} PutGetAll(bs: Bytes, n: nat)
    requires |bs| >= 2 * n
    ensures PutAll(GetAll(bs, n)) == bs[..2 * n]
    decreases n
  {
    if n > 0 {
      PutGetAll(bs, n - 1);
      PutGetU16(bs[2 * n - 2..2 * n]);
      assert bs[..2 * n] == bs[..2 * n - 2] + bs[2 * n - 2..2 * n];
      assert GetAll(bs, n)[..n - 1] == GetAll(bs, n - 1);
    }
  }

  lemma EncodedLength(f: Frame)
    requires Encodable(f)
    ensures |Encoded(f)| == HeaderLen(f) + |f.payload|
  {
  }

  lemma ParseOfEncode(f: Frame)
    requires Encodable(f)
    ensures Parsed(Encoded(f)) == Ok(if f.dstType == DST_BROADCAST then f.(dst := []) else f)
  {
    var h := Fixed(f.flags, f.srcIndex, f.dstType, f.streamId, f.number);
    var b := Encoded(f);
    assert b[..12] == h;
    assert b[2..4] == h[2..4] && b[5..9] == h[5..9] && b[9..11] == h[9..11];
    TargetsOfEncode(f);
    assert b == (h + Targets(f)) + f.payload;
  }

  lemma AfterTheHeader(f: Frame)
    requires Encodable(f)
    ensures |Encoded(f)| >= FIXED_HEADER && Encoded(f)[4] == f.dstType
    ensures Encoded(f)[FIXED_HEADER..] == Targets(f) + f.payload
  {
    var h := Fixed(f.flags, f.srcIndex, f.dstType, f.streamId, f.number);
    AppendAssoc(h, Targets(f), f.payload);
    hide Fixed, Targets;
    assert Encoded(f) == h + (Targets(f) + f.payload);
  }

  lemma TargetsOfEncode(f: Frame)
    requires Encodable(f)
    ensures ParsedTargets(Encoded(f)) == Ok((if f.dstType == DST_BROADCAST then [] else f.dst, HeaderLen(f)))
  {
    hide Encoded, Targets, GetAll, PutAll, PutU16, GetU16, ParsedTargets;
    AfterTheHeader(f);
    TargetsRead(f, Encoded(f));
  }

  lemma TargetsRead(f: Frame, b: Bytes)
    requires Encodable(f) && |b| >= FIXED_HEADER && b[4] == f.dstType && b[FIXED_HEADER..] == Targets(f) + f.payload
    ensures ParsedTargets(b) == Ok((if f.dstType == DST_BROADCAST then [] else f.dst, HeaderLen(f)))
  {
    hide GetAll, PutAll, PutU16, GetU16;
    var rest := b[FIXED_HEADER..];
    if f.dstType == DST_UNICAST {
      assert rest == PutU16(f.dst[0]) + f.payload;
      assert b[12..14] == rest[..2] == PutU16(f.dst[0]);
      assert f.dst == [f.dst[0]];
    } else if f.dstType == DST_MULTICAST {
      assert rest == [|f.dst|] + PutAll(f.dst) + f.payload;
      assert b[12] == rest[0] == |f.dst|;
      assert b[13..] == rest[1..] == PutAll(f.dst) + f.payload;
      GetPutAll(f.dst, f.payload);
    }
  }

  lemma EncodeOfParse(b: Bytes)
    requires Parsed(b).Ok?
    ensures Encodable(Parsed(b).value)
    ensures Encoded(Parsed(b).value) == b[11 := 0]
  {
    hide PutU16, PutU32, GetU16, GetU32, GetAll, PutAll, Targets, ParsedTargets;
    var f := Parsed(b).value;
    var off := ParsedTargets(b).value.1;
    PutGetU16(b[2..4]);
    PutGetU32(b[5..9]);
    PutGetU16(b[9..11]);
    var h := Fixed(f.flags, f.srcIndex, f.dstType, f.streamId, f.number);
    HeaderBytes(h, b);
    TargetsOfParse(b);
    assert b[11 := 0] == b[..12][11 := 0] + b[12..off] + b[off..];
  }

  /** Two headers that agree field by field are the same bytes. */
  lemma HeaderBytes(h: Bytes, b: Bytes)
    requires |h| == FIXED_HEADER && |b| >= FIXED_HEADER && h[11] == 0
    requires h[0] == b[0] && h[1] == b[1] && h[4] == b[4]
    requires h[2..4] == b[2..4] && h[5..9] == b[5..9] && h[9..11] == b[9..11]
    ensures h == b[..FIXED_HEADER][11 := 0]
  {
    assert h[2] == b[2..4][0] && h[3] == b[2..4][1];
    assert h[5] == b[5..9][0] && h[6] == b[5..9][1] && h[7] == b[5..9][2] && h[8] == b[5..9][3];
    assert h[9] == b[9..11][0] && h[10] == b[9..11][1];
  }

  lemma TargetsOfParse(b: Bytes)
    requires Parsed(b).Ok?
    ensures 12 <= ParsedTargets(b).value.1 <= |b|
    ensures Encodable(Parsed(b).value) && Targets(Parsed(b).value) == b[12..ParsedTargets(b).value.1]
  {
    if b[4] == DST_UNICAST {
      PutGetU16(b[12..14]);
    } else if b[4] == DST_MULTICAST {
      PutGetAll(b[13..], b[12]);
      assert b[12..13 + 2 * b[12] as int] == [b[12]] + b[13..][..2 * b[12] as int];
    }
  }

  // ---- The bytes -------------------------------------------------------------------

  /** Two bytes, the more significant first. */
  predicate Holds16(b: Bytes, at: nat, v: int) { at + 2 <= |b| && b[at] as int * 256 + b[at + 1] as int == v }

  predicate Holds32(b: Bytes, at: nat, v: int)
  {
    at + 4 <= |b|
    && b[at] as int * 0x100_0000 + b[at + 1] as int * 0x1_0000 + b[at + 2] as int * 0x100 + b[at + 3] as int == v
  }

  lemma Holds16Is(b: Bytes, at: nat, v: u16)
    requires at + 2 <= |b|
    ensures Holds16(b, at, v) <==> b[at..at + 2] == PutU16(v)
    ensures Holds16(b, at, v) <==> GetU16(b[at..at + 2]) == v
  {
    assert b[at..at + 2] == [b[at], b[at + 1]];
  }

  lemma Holds32Is(b: Bytes, at: nat, v: u32)
    requires at + 4 <= |b|
    ensures b[at..at + 4] == PutU32(v) ==> Holds32(b, at, v)
    ensures Holds32(b, at, v) <==> GetU32(b[at..at + 4]) == v
  {
    var bs := b[at..at + 4];
    assert bs[..2] == [b[at], b[at + 1]] && bs[2..] == [b[at + 2], b[at + 3]];
    PutGetU32(bs);
  }

  /** A slot in the rest of the bytes. */
  lemma Holds16Later(b: Bytes, from: nat, at: nat, v: int)
    requires from <= |b| && Holds16(b[from..], at, v)
    ensures Holds16(b, from + at, v)
  {
    var rest := b[from..];
    assert rest[at] == b[from + at] && rest[at + 1] == b[from + at + 1];
  }

  lemma {:induction false} PutAllAt(dst: seq<u16>, i: nat)
    requires i < |dst|
    ensures Holds16(PutAll(dst), 2 * i, dst[i])
    decreases |dst|
  {
    var init, last := dst[..|dst| - 1], PutU16(dst[|dst| - 1]);
    assert PutAll(dst) == PutAll(init) + last;
    if i < |init| {
      PutAllAt(init, i);
      assert PutAll(dst)[2 * i] == PutAll(init)[2 * i] && PutAll(dst)[2 * i + 1] == PutAll(init)[2 * i + 1];
    }
  }

  /** The layout of the header, byte by byte, in network order. */
  lemma LayoutOnTheWire(f: Frame)
    requires Encodable(f)
    ensures var b := Encoded(f);
      && |b| >= 12 && b[0] == 0x21 && b[1] == f.flags && Holds16(b, 2, f.srcIndex) && b[4] == f.dstType
      && Holds32(b, 5, f.streamId) && Holds16(b, 9, f.number) && b[11] == 0
  {
    hide PutU16, PutU32;
    var b := Encoded(f);
    var h := Fixed(f.flags, f.srcIndex, f.dstType, f.streamId, f.number);
    assert b[2..4] == h[2..4] && b[5..9] == h[5..9] && b[9..11] == h[9..11];
    Holds16Is(b, 2, f.srcIndex);
    Holds32Is(b, 5, f.streamId);
    Holds16Is(b, 9, f.number);
  }

  /** Behind it: one index, or a count and as many indices, or nothing; then the payload. */
  lemma TargetsOnTheWire(f: Frame)
    requires Encodable(f)
    ensures var b := Encoded(f);
      && (f.dstType == 1 ==> |b| >= 14 && Holds16(b, 12, f.dst[0]) && b[14..] == f.payload)
      && (f.dstType == 2 ==> |b| >= 13 + 2 * |f.dst| && b[12] == |f.dst| && b[13 + 2 * |f.dst|..] == f.payload
                             && forall i :: 0 <= i < |f.dst| ==> Holds16(b, 13 + 2 * i, f.dst[i]))
      && (f.dstType == 3 ==> |b| >= 12 && b[12..] == f.payload)
  {
    hide Encoded, Targets, PutU16, PutAll, Holds16;
    AfterTheHeader(f);
    if f.dstType == 1 {
      OneOnTheWire(f, Encoded(f));
    } else if f.dstType == 2 {
      ListOnTheWire(f, Encoded(f));
    } else {
      NoneOnTheWire(f, Encoded(f));
    }
  }

  lemma OneOnTheWire(f: Frame, b: Bytes)
    requires Encodable(f) && f.dstType == 1 && |b| >= 12 && b[12..] == Targets(f) + f.payload
    ensures |b| >= 14 && Holds16(b, 12, f.dst[0]) && b[14..] == f.payload
  {
    hide PutU16, Holds16;
    var rest := b[12..];
    assert b[12..14] == rest[..2] == PutU16(f.dst[0]) && b[14..] == rest[2..];
    Holds16Is(b, 12, f.dst[0]);
  }

  lemma ListOnTheWire(f: Frame, b: Bytes)
    requires Encodable(f) && f.dstType == 2 && |b| >= 12 && b[12..] == Targets(f) + f.payload
    ensures |b| >= 13 + 2 * |f.dst| && b[12] == |f.dst| && b[13 + 2 * |f.dst|..] == f.payload
    ensures forall i :: 0 <= i < |f.dst| ==> Holds16(b, 13 + 2 * i, f.dst[i])
  {
    hide PutAll, Holds16;
    var rest, all := b[12..], PutAll(f.dst);
    assert rest == [|f.dst|] + all + f.payload;
    assert b[12] == rest[0];
    assert b[13..] == rest[1..] == all + f.payload;
    assert b[13 + 2 * |f.dst|..] == b[13..][2 * |f.dst|..] == f.payload;
    forall i | 0 <= i < |f.dst| ensures Holds16(b, 13 + 2 * i, f.dst[i]) {
      PutAllAt(f.dst, i);
      SlotStays(all, f.payload, 2 * i, f.dst[i]);
      Holds16Later(b, 13, 2 * i, f.dst[i]);
    }
  }

  lemma SlotStays(a: Bytes, b: Bytes, at: nat, v: int)
    requires Holds16(a, at, v)
    ensures Holds16(a + b, at, v)
  {
  }

  lemma NoneOnTheWire(f: Frame, b: Bytes)
    requires Encodable(f) && f.dstType == 3 && |b| >= 12 && b[12..] == Targets(f) + f.payload
    ensures b[12..] == f.payload
  {
  }

  /** What a receiver accepts, and why it rejects the rest, in the order of the checks. */
  lemma ParseAnswers(b: Bytes)
    ensures Parsed(b).Err? ==>
      Parsed(b).error == (
        if |b| < 12 then TooShort
        else if b[0] != 0x21 then BadMagic
        else if b[4] !in {1, 2, 3} then UnknownDstType
        else if b[4] == 1 then TruncatedUnicast
        else if |b| < 13 then TruncatedCount
        else BadDstList)
    ensures Parsed(b).Ok? <==>
      && |b| >= 12 && b[0] == 0x21 && b[4] in {1, 2, 3} && (b[4] == 1 ==> |b| >= 14)
      && (b[4] == 2 ==> |b| >= 13 && b[12] != 0 && |b| >= 13 + 2 * b[12] as int)
  {
  }

  /** The fields of an accepted frame are those bytes. */
  lemma FieldsOffTheWire(b: Bytes)
    requires Parsed(b).Ok?
    ensures |b| >= 12 && b[4] in {1, 2, 3}
    ensures var f := Parsed(b).value;
      && f.flags == b[1] && Holds16(b, 2, f.srcIndex) && f.dstType == b[4]
      && Holds32(b, 5, f.streamId) && Holds16(b, 9, f.number)
      && (b[4] == 1 ==> |b| >= 14 && |f.dst| == 1 && Holds16(b, 12, f.dst[0]) && f.payload == b[14..])
      && (b[4] == 2 ==> |b| >= 13 + 2 * |f.dst| && |f.dst| == b[12] && f.payload == b[13 + 2 * |f.dst|..]
                        && forall i :: 0 <= i < |f.dst| ==> Holds16(b, 13 + 2 * i, f.dst[i]))
      && (b[4] == 3 ==> f.dst == [] && f.payload == b[12..])
  {
    hide GetU16, GetU32;
    var f := Parsed(b).value;
    Holds16Is(b, 2, f.srcIndex);
    Holds32Is(b, 5, f.streamId);
    Holds16Is(b, 9, f.number);
    if b[4] == 1 {
      Holds16Is(b, 12, f.dst[0]);
    } else if b[4] == 2 {
      forall i | 0 <= i < |f.dst| ensures Holds16(b, 13 + 2 * i, f.dst[i]) {
        GetAllAt(b[13..], |f.dst|, i);
        Holds16Later(b, 13, 2 * i, f.dst[i]);
      }
    }
  }

  lemma {:induction false} GetAllAt(bs: Bytes, n: nat, i: nat)
    requires |bs| >= 2 * n && i < n
    ensures Holds16(bs, 2 * i, GetAll(bs, n)[i])
    decreases n
  {
    if i < n - 1 {
      GetAllAt(bs, n - 1, i);
    } else {
      Holds16Is(bs, 2 * i, GetAll(bs, n)[i]);
    }
  }
}
