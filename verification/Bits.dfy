/** Regrouping bits: bytes as 8-bit digits, base32 and base64 as 5- and 6-bit digits, most significant
    first, the last digit padded with zero bits (sections 5 and 6 of RFC 4648). */
module Bits {
  import opened Machine

  type bit = b: nat | b < 2

  function Pow2(n: nat): (p: nat)
    ensures p > 0
  {
    if n == 0 then 1 else 2 * Pow2(n - 1)
  }

  lemma Powers()
    ensures Pow2(5) == 32 && Pow2(6) == 64 && Pow2(8) == 256
  {
    assert Pow2(1) == 2;
    assert Pow2(3) == 8;
    assert Pow2(5) == 32;
    assert Pow2(6) == 64;
    assert Pow2(7) == 128;
  }

  function Value(bits: seq<bit>): nat
  {
    if bits == [] then 0 else 2 * Value(bits[..|bits| - 1]) + bits[|bits| - 1]
  }

  function ToBits(v: nat, width: nat): (bits: seq<bit>)
    ensures |bits| == width
  {
    if width == 0 then [] else ToBits(v / 2, width - 1) + [v % 2]
  }

  lemma {:induction false} ValueOfToBits(v: nat, width: nat)
    requires v < Pow2(width)
    ensures Value(ToBits(v, width)) == v
  {
    if width > 0 {
      ValueOfToBits(v / 2, width - 1);
      var bits := ToBits(v, width);
      assert bits[..width - 1] == ToBits(v / 2, width - 1);
    }
  }

  lemma {:induction false} ToBitsOfValue(bits: seq<bit>)
    ensures ToBits(Value(bits), |bits|) == bits && Value(bits) < Pow2(|bits|)
  {
    if bits != [] {
      ToBitsOfValue(bits[..|bits| - 1]);
      assert bits == bits[..|bits| - 1] + [bits[|bits| - 1]];
    }
  }

  lemma {:induction false} ValueOfConcat(a: seq<bit>, b: seq<bit>)
    ensures Value(a + b) == Value(a) * Pow2(|b|) + Value(b)
    decreases |b|
  {
    if b == [] {
      assert a + b == a;
    } else {
      var init, last := b[..|b| - 1], b[|b| - 1];
      ValueOfConcat(a, init);
      assert (a + b)[..|a + b| - 1] == a + init;
      assert Value(a) * Pow2(|b|) == 2 * (Value(a) * Pow2(|init|));
    }
  }

  /** Digits of k bits, and back. */
  function Spread(digits: seq<nat>, k: nat): seq<bit>
  {
    if digits == [] then [] else ToBits(digits[0], k) + Spread(digits[1..], k)
  }

  /** Whole digits only; fewer than k bits left over are dropped. */
  function Group(bits: seq<bit>, k: nat): seq<nat>
    requires k > 0
  {
    if |bits| < k then [] else [Value(bits[..k])] + Group(bits[k..], k)
  }

  lemma {:induction false} SpreadLength(digits: seq<nat>, k: nat)
    ensures |Spread(digits, k)| == k * |digits|
  {
    if digits != [] {
      SpreadLength(digits[1..], k);
      assert k * |digits| == k * (|digits| - 1) + k;
    }
  }

  lemma {:induction false} SpreadAppend(digits: seq<nat>, d: nat, k: nat)
    ensures Spread(digits + [d], k) == Spread(digits, k) + ToBits(d, k)
  {
    if digits == [] {
      assert [d][1..] == [];
      assert Spread([d], k) == ToBits(d, k) + Spread([], k);
    } else {
      assert (digits + [d])[1..] == digits[1..] + [d];
      SpreadAppend(digits[1..], d, k);
      AppendAssoc(ToBits(digits[0], k), Spread(digits[1..], k), ToBits(d, k));
    }
  }

  lemma {:induction false} GroupLength(bits: seq<bit>)
    ensures |Group(bits, 8)| == |bits| / 8
  {
    if |bits| >= 8 { GroupLength(bits[8..]); }
  }

  predicate AllBelow(digits: seq<nat>, bound: nat) { forall i :: 0 <= i < |digits| ==> digits[i] < bound }

  lemma {:induction false} GroupOfSpread(digits: seq<nat>, k: nat)
    requires k > 0 && AllBelow(digits, Pow2(k))
    ensures Group(Spread(digits, k), k) == digits
  {
    if digits != [] {
      var bits, head := Spread(digits, k), ToBits(digits[0], k);
      assert bits[..k] == head && bits[k..] == Spread(digits[1..], k);
      ValueOfToBits(digits[0], k);
      GroupOfSpread(digits[1..], k);
    }
  }

  ghost predicate Whole(n: nat, k: nat)
    requires k > 0
  {
    exists q: nat :: n == q * k
  }

  lemma WholeStep(n: nat, k: nat)
    requires k > 0 && Whole(n, k) && n > 0
    ensures n >= k && Whole(n - k, k)
  {
    var q: nat :| n == q * k;
    assert q != 0 ==> (q - 1) * k == n - k;
    assert n - k == (q - 1) * k;
  }

  lemma {:induction false} SpreadOfGroup(bits: seq<bit>, k: nat)
    requires k > 0 && Whole(|bits|, k)
    ensures Spread(Group(bits, k), k) == bits && AllBelow(Group(bits, k), Pow2(k))
  {
    hide Whole;
    if |bits| > 0 {
      WholeStep(|bits|, k);
      SpreadOfGroup(bits[k..], k);
      ToBitsOfValue(bits[..k]);
      assert bits == bits[..k] + bits[k..];
    }
  }

  function Zeros(n: nat): (bits: seq<bit>)
    ensures |bits| == n
  {
    seq(n, _ => 0)
  }

  function Padding(n: nat, k: nat): (pad: nat)
    requires k > 0
    ensures pad < k
  {
    (k - n % k) % k
  }

  lemma Padded(n: nat, k: nat)
    requires k > 0
    ensures Whole(n + Padding(n, k), k)
  {
    var q, r := n / k, n % k;
    assert n == q * k + r;
    if r == 0 {
      assert k % k == 0;
      assert n + Padding(n, k) == q * k;
    } else {
      assert (q + 1) * k == q * k + k;
      assert n + Padding(n, k) == (q + 1) * k;
    }
  }

  /** Bytes to k-bit digits. */
  function Encode(bytes: seq<nat>, k: nat): seq<nat>
    requires k > 0
  {
    var bits := Spread(bytes, 8);
    Group(bits + Zeros(Padding(|bits|, k)), k)
  }

  /** k-bit digits to the whole bytes they hold. */
  function Decode(digits: seq<nat>, k: nat): seq<nat>
  {
    Group(Spread(digits, k), 8)
  }

  lemma {:induction false} GroupIgnoresTail(bits: seq<bit>, more: seq<bit>)
    requires |bits| % 8 == 0 && |more| < 8
    ensures Group(bits + more, 8) == Group(bits, 8)
  {
    if |bits| > 0 {
      assert (bits + more)[..8] == bits[..8] && (bits + more)[8..] == bits[8..] + more;
      GroupIgnoresTail(bits[8..], more);
    } else {
      assert bits + more == more;
    }
  }

  lemma EncodeDigits(bytes: Bytes, k: nat)
    requires 0 < k <= 8
    ensures Spread(Encode(bytes, k), k) == Spread(bytes, 8) + Zeros(Padding(8 * |bytes|, k))
    ensures AllBelow(Encode(bytes, k), Pow2(k))
  {
    SpreadLength(bytes, 8);
    Padded(8 * |bytes|, k);
    SpreadOfGroup(Spread(bytes, 8) + Zeros(Padding(8 * |bytes|, k)), k);
  }

  /** Decoding gives back every byte string. */
  lemma DecodeOfEncode(bytes: Bytes, k: nat)
    requires 0 < k <= 8
    ensures Decode(Encode(bytes, k), k) == bytes
  {
    EncodeDigits(bytes, k);
    SpreadLength(bytes, 8);
    GroupIgnoresTail(Spread(bytes, 8), Zeros(Padding(8 * |bytes|, k)));
    Powers();
    GroupOfSpread(bytes, 8);
  }

  lemma DecodeLength(digits: seq<nat>, k: nat)
    ensures |Decode(digits, k)| == k * |digits| / 8
  {
    SpreadLength(digits, k);
    GroupLength(Spread(digits, k));
  }

  /** How many digits 32 bytes take. */
  lemma {:induction false} DigitCount(digits: seq<nat>, k: nat, bits: nat)
    requires k in {5, 6} && |Spread(digits, k)| == bits
    ensures |digits| == bits / k
  {
    SpreadLength(digits, k);
  }

  lemma EncodeLength(bytes: Bytes)
    requires |bytes| == 32
    ensures |Encode(bytes, 5)| == 52 && |Encode(bytes, 6)| == 43
  {
    EncodeDigits(bytes, 5);
    EncodeDigits(bytes, 6);
    SpreadLength(bytes, 8);
    DigitCount(Encode(bytes, 5), 5, 260);
    DigitCount(Encode(bytes, 6), 6, 258);
  }

  lemma {:induction false} ToBitsOfZero(width: nat)
    ensures ToBits(0, width) == Zeros(width)
  {
    if width > 0 { ToBitsOfZero(width - 1); }
  }

  /** The other way round: digits whose left-over bits are the padding. */
  lemma DecodeThenEncode(digits: seq<nat>, k: nat, m: nat, r: nat)
    requires 0 < k <= 8 && r < 8 && AllBelow(digits, Pow2(k)) && |Spread(digits, k)| == 8 * m + r
    requires Spread(digits, k)[8 * m..] == Zeros(r) && Padding(8 * m, k) == r
    ensures AllBelow(Decode(digits, k), 256) && |Decode(digits, k)| == m
    ensures Encode(Decode(digits, k), k) == digits
  {
    Powers();
    var all := Spread(digits, k);
    var kept := all[..8 * m];
    assert all == kept + Zeros(r);
    assert (8 * m) % 8 == 0;
    GroupIgnoresTail(kept, Zeros(r));
    assert Whole(8 * m, 8) by { assert 8 * m == m * 8; }
    SpreadOfGroup(kept, 8);
    GroupLength(kept);
    GroupOfSpread(digits, k);
    hide Spread, Group, Pow2, Padding, Whole;
  }

  // ---- As a number -----------------------------------------------------------------

  /** The number the digits write in this base, the most significant first. */
  function Number(digits: seq<nat>, base: nat): nat
  {
    if digits == [] then 0 else Number(digits[..|digits| - 1], base) * base + digits[|digits| - 1]
  }

  lemma {:induction false} SpreadValue(digits: seq<nat>, k: nat)
    requires AllBelow(digits, Pow2(k))
    ensures Value(Spread(digits, k)) == Number(digits, Pow2(k))
    decreases |digits|
  {
    if digits != [] {
      var init, last := digits[..|digits| - 1], digits[|digits| - 1];
      SpreadValue(init, k);
      assert digits == init + [last];
      SpreadAppend(init, last, k);
      ValueOfConcat(Spread(init, k), ToBits(last, k));
      ValueOfToBits(last, k);
      hide Spread, Value, ToBits, Pow2;
    }
  }

  lemma {:induction false} ZerosValue(n: nat)
    ensures Value(Zeros(n)) == 0
  {
    if n > 0 {
      assert Zeros(n)[..n - 1] == Zeros(n - 1);
      ZerosValue(n - 1);
    }
  }

  /** Regrouped, the bytes write the same number, shifted left by the padding: what the encodings of RFC 4648
      put on paper. */
  lemma EncodedNumber(bytes: Bytes, k: nat)
    requires 0 < k <= 8
    ensures Number(Encode(bytes, k), Pow2(k)) == Number(bytes, 256) * Pow2(Padding(8 * |bytes|, k))
  {
    hide Encode, Spread, Value, Padding;
    Powers();
    EncodeDigits(bytes, k);
    SpreadValue(bytes, 8);
    SpreadValue(Encode(bytes, k), k);
    var pad := Padding(8 * |bytes|, k);
    ValueOfConcat(Spread(bytes, 8), Zeros(pad));
    ZerosValue(pad);
  }
}
