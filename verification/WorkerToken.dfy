/** The edge worker's join codes (cloudflare/worker.js): base32 by hand, in loops over a 32-bit accumulator,
    with an alphabet of its own. */
module WorkerToken {
  import opened Machine
  import opened Bits
  import opened Records
  import opened Token

  /** A join code to bytes as the worker does it: dashes go, letters become upper case, blanks are not allowed. */
  function WorkerDecode(input: string): Option<seq<nat>>
  {
    var s := Trim(input);
    if !HasPrefix(s) then None
    else
      match Values(Crockford, Without(Uppercase(s[4..]), "-"))
      case None => None
      case Some(vs) => var bytes := Decode(vs, 5); if |bytes| == TOKEN_BYTES then Some(bytes) else None
  }

  // ---- The accumulator -----------------------------------------------------------------------

  /** The accumulator's low `bits` bits are the bits not yet put out. */
  ghost predicate Holds(acc: u32, bits: nat, pending: seq<bit>)
  {
    bits == |pending| && bits <= 12 && acc % Pow2(bits) == Value(pending)
  }

  lemma Doubled(p: nat, q: nat)
    ensures p * (2 * q) == 2 * (p * q)
  {
  }

  lemma {:induction false} Pow2Add(m: nat, n: nat)
    ensures Pow2(m + n) == Pow2(m) * Pow2(n)
  {
    if n > 0 {
      Pow2Add(m, n - 1);
      var p, q := Pow2(m), Pow2(n - 1);
      assert Pow2(m + n) == 2 * Pow2(m + (n - 1)) && Pow2(n) == 2 * q;
      hide Pow2;
      Doubled(p, q);
    }
  }

  function Push(acc: u32, v: nat, width: nat): u32
    requires width in {5, 8}
  {
    (acc * (if width == 5 then 32 else 256) + v) % TWO32
  }

  /** Shifting in a digit may push old bits out at the top, never the pending ones. */
  lemma PushHolds(acc: u32, bits: nat, pending: seq<bit>, v: nat, width: nat)
    requires Holds(acc, bits, pending) && width in {5, 8} && v < Pow2(width) && bits + width <= 12
    ensures Holds(Push(acc, v, width), bits + width, pending + ToBits(v, width))
  {
    hide Pow2, Value, ToBits;
    ValueOfConcat(pending, ToBits(v, width));
    ValueOfToBits(v, width);
    PowersUpToWord(bits, width);
    Powers();
    assert Push(acc, v, width) == (acc * Pow2(width) + v) % TWO32;
    PushArithmetic(acc, Pow2(bits), Pow2(width), v, Pow2(32 - bits - width));
  }

  lemma PowersUpToWord(bits: nat, width: nat)
    requires bits + width <= 32
    ensures Pow2(bits) * Pow2(width) * Pow2(32 - bits - width) == TWO32 && Pow2(bits) * Pow2(width) == Pow2(bits + width)
  {
    hide Pow2;
    Pow2Add(bits, width);
    Pow2Add(bits + width, 32 - bits - width);
    Word();
  }

  lemma Word()
    ensures Pow2(32) == TWO32
  {
    Powers();
    Pow2Add(8, 8);
    Pow2Add(16, 16);
  }

  lemma StepUp(q: nat, p: nat, d: nat)
    requires q >= p + 1
    ensures q * d >= p * d + d
  {
    assert q * d == p * d + (q - p) * d;
    assert (q - p) * d == d + (q - p - 1) * d;
  }

  lemma NoGap(q: nat, r: nat, q': nat, r': nat, d: nat)
    requires q * d + r == q' * d + r' && r < d && r' < d
    ensures q <= q'
  {
    if q > q' { StepUp(q, q', d); }
  }

  lemma DivUnique(n: nat, d: nat, q: nat, r: nat)
    requires d > 0 && n == q * d + r && r < d
    ensures n / d == q && n % d == r
  {
    var q', r' := n / d, n % d;
    assert n == q' * d + r';
    NoGap(q, r, q', r', d);
    NoGap(q', r', q, r, d);
  }

  lemma ModOfMod(x: nat, m: nat, k: nat)
    requires m > 0 && k * m == TWO32
    ensures x % TWO32 % m == x % m
  {
    var y := x % TWO32;
    assert x == (x / TWO32) * TWO32 + y;
    assert (x / TWO32) * TWO32 == (x / TWO32 * k) * m;
    assert x == (x / TWO32 * k + y / m) * m + y % m;
    DivUnique(x, m, x / TWO32 * k + y / m, y % m);
  }

  lemma PushArithmetic(acc: u32, p: nat, w: nat, v: nat, k: nat)
    requires p > 0 && v < w && p * w * k == TWO32
    ensures (acc * w + v) % TWO32 % (p * w) == (acc % p) * w + v
  {
    ModOfMod(acc * w + v, p * w, k);
    PushRemainder(acc, p, w, v);
  }

  lemma PushRemainder(acc: nat, p: nat, w: nat, v: nat)
    requires p > 0 && v < w
    ensures (acc * w + v) % (p * w) == (acc % p) * w + v
  {
    var q, r := acc / p, acc % p;
    assert acc == q * p + r;
    assert acc * w == q * (p * w) + r * w;
    assert r * w <= (p - 1) * w;
    assert (p - 1) * w == p * w - w;
    DivUnique(acc * w + v, p * w, q, r * w + v);
  }

  /** Taking the top digit of the pending bits. */
  lemma PopHolds(acc: u32, bits: nat, pending: seq<bit>, width: nat)
    requires Holds(acc, bits, pending) && width in {5, 8} && bits >= width
    ensures (acc / Pow2(bits - width)) % Pow2(width) == Value(pending[..width])
    ensures Holds(acc, bits - width, pending[width..])
  {
    var a, b := pending[..width], pending[width..];
    assert pending == a + b;
    ValueOfConcat(a, b);
    ToBitsOfValue(a);
    ToBitsOfValue(b);
    Pow2Add(bits - width, width);
    hide Pow2, Value;
    PopArithmetic(acc, Pow2(bits - width), Pow2(width), Value(a), Value(b));
  }

  lemma PopArithmetic(acc: nat, q: nat, w: nat, a: nat, b: nat)
    requires a < w && b < q && acc % (q * w) == a * q + b
    ensures (acc / q) % w == a && acc % q == b
  {
    var h := acc / (q * w);
    assert acc == h * (q * w) + a * q + b;
    assert h * (q * w) + a * q == (h * w + a) * q;
    DivUnique(acc, q, h * w + a, b);
    DivUnique(h * w + a, w, h, a);
  }

  // ---- The loops -------------------------------------------------------------------------------

  /** What is written and what is pending together are the bits read so far. */
  ghost predicate Carried(read: seq<nat>, readWidth: nat, acc: u32, bits: nat, written: seq<nat>, width: nat, pending: seq<bit>)
  {
    && Holds(acc, bits, pending) && AllBelow(written, Pow2(width))
    && Spread(read, readWidth) == Spread(written, width) + pending
  }

  lemma NothingCarried(readWidth: nat, width: nat)
    ensures Carried([], readWidth, 0, 0, [], width, [])
  {
  }

  lemma CarryIn(read: seq<nat>, readWidth: nat, acc: u32, bits: nat, written: seq<nat>, width: nat, pending: seq<bit>, v: nat)
    requires Carried(read, readWidth, acc, bits, written, width, pending)
    requires readWidth in {5, 8} && v < Pow2(readWidth) && bits + readWidth <= 12
    ensures Carried(read + [v], readWidth, Push(acc, v, readWidth), bits + readWidth, written, width, pending + ToBits(v, readWidth))
  {
    PushHolds(acc, bits, pending, v, readWidth);
    SpreadAppend(read, v, readWidth);
    AppendAssoc(Spread(written, width), pending, ToBits(v, readWidth));
    hide Holds;
  }

  lemma CarryOut(read: seq<nat>, readWidth: nat, acc: u32, bits: nat, written: seq<nat>, width: nat, pending: seq<bit>)
    requires Carried(read, readWidth, acc, bits, written, width, pending) && width in {5, 8} && bits >= width
    ensures |pending| == bits
    ensures var d := (acc / Pow2(bits - width)) % Pow2(width);
      Carried(read, readWidth, acc, bits - width, written + [d], width, pending[width..])
  {
    PopHolds(acc, bits, pending, width);
    var d := (acc / Pow2(bits - width)) % Pow2(width);
    assert d < Pow2(width);
    SpreadAppend(written, d, width);
    ToBitsOfValue(pending[..width]);
    assert pending == pending[..width] + pending[width..];
    AppendAssoc(Spread(written, width), pending[..width], pending[width..]);
    hide Holds;
  }

  /** Writes whole digits while the accumulator holds one. */
  method Drain(acc: u32, bits: nat, width: nat, ghost read: seq<nat>, ghost readWidth: nat,
               written: seq<nat>, ghost pending: seq<bit>)
    returns (bits': nat, written': seq<nat>, ghost pending': seq<bit>)
    requires Carried(read, readWidth, acc, bits, written, width, pending) && width in {5, 8}
    ensures Carried(read, readWidth, acc, bits', written', width, pending') && bits' < width
  {
    hide Carried, Holds;
    bits', written', pending' := bits, written, pending;
    while bits' >= width
      invariant Carried(read, readWidth, acc, bits', written', width, pending')
    {
      CarryOut(read, readWidth, acc, bits', written', width, pending');
      written' := written' + [(acc / Pow2(bits' - width)) % Pow2(width)];
      pending' := pending'[width..];
      bits' := bits' - width;
    }
  }

  /** joinCode: the digits, padded at the end, then the groups. */
  method WorkerJoinCode(raw: Bytes) returns (code: string)
    ensures code == JoinCode(Crockford, raw)
  {
    var digits := JoinDigits(raw);
    EncodeDigits(raw, 5);
    var groups := GroupByFour(Symbols(Crockford, digits));
    code := "P2P-" + groups;
  }

  /** One byte in, the digits it completes out. */
  method Absorb(acc: u32, bits: nat, ghost read: seq<nat>, b: u8, digits: seq<nat>, ghost pending: seq<bit>)
    returns (acc': u32, bits': nat, digits': seq<nat>, ghost pending': seq<bit>)
    requires bits < 5 && Carried(read, 8, acc, bits, digits, 5, pending)
    ensures bits' < 5 && Carried(read + [b], 8, acc', bits', digits', 5, pending')
  {
    Powers();
    hide Carried, Pow2;
    CarryIn(read, 8, acc, bits, digits, 5, pending, b);
    acc' := Push(acc, b, 8);
    bits', digits', pending' := Drain(acc', bits + 8, 5, read + [b], 8, digits, pending + ToBits(b, 8));
  }

  method JoinDigits(raw: Bytes) returns (digits: seq<nat>)
    ensures digits == Encode(raw, 5)
  {
    hide Carried, Pow2;
    var bits, acc: u32 := 0, 0;
    digits := [];
    ghost var pending: seq<bit> := [];
    NothingCarried(8, 5);
    for i := 0 to |raw|
      invariant bits < 5 && Carried(raw[..i], 8, acc, bits, digits, 5, pending)
    {
      assert raw[..i + 1] == raw[..i] + [raw[i]];
      acc, bits, digits, pending := Absorb(acc, bits, raw[..i], raw[i], digits, pending);
    }
    assert raw[..|raw|] == raw;
    LastDigit(raw, acc, bits, digits, pending);
    if bits > 0 {
      digits := digits + [Push5(acc, 5 - bits)];
    }
  }

  /** (acc << n) & 31. */
  function Push5(acc: u32, n: nat): nat
    requires n <= 5
  {
    (acc * Pow2(n)) % TWO32 % 32
  }

  lemma PaddingIs(bytes: Bytes, digits: seq<nat>, pending: seq<bit>)
    requires Spread(bytes, 8) == Spread(digits, 5) + pending && |pending| < 5
    ensures Padding(|Spread(bytes, 8)|, 5) == if pending == [] then 0 else 5 - |pending|
  {
    SpreadLength(digits, 5);
  }

  lemma WholeDigits(digits: seq<nat>)
    requires AllBelow(digits, Pow2(5))
    ensures Group(Spread(digits, 5), 5) == digits
  {
    GroupOfSpread(digits, 5);
  }

  /** The bits left over, shifted up, are the last digit padded with zeros. */
  lemma LastDigit(raw: Bytes, acc: u32, bits: nat, digits: seq<nat>, pending: seq<bit>)
    requires Carried(raw, 8, acc, bits, digits, 5, pending) && bits < 5
    ensures Encode(raw, 5) == if bits == 0 then digits else digits + [Push5(acc, 5 - bits)]
  {
    PaddingIs(raw, digits, pending);
    if bits == 0 {
      assert Spread(raw, 8) + Zeros(0) == Spread(digits, 5);
      WholeDigits(digits);
    } else {
      var n := 5 - bits;
      var last := pending + Zeros(n);
      ValueOfConcat(pending, Zeros(n));
      ZerosAreZero(n);
      LastArithmetic(acc, bits, Value(pending));
      var d := Push5(acc, n);
      ToBitsOfValue(last);
      Powers();
      assert d == Value(last) && d < Pow2(5);
      AppendAssoc(Spread(digits, 5), pending, Zeros(n));
      SpreadAppend(digits, d, 5);
      WholeDigits(digits + [d]);
    }
  }

  lemma {:induction false} ZerosAreZero(n: nat)
    ensures Value(Zeros(n)) == 0
  {
    if n > 0 {
      assert Zeros(n)[..n - 1] == Zeros(n - 1);
      ZerosAreZero(n - 1);
    }
  }

  lemma LastArithmetic(acc: u32, bits: nat, v: nat)
    requires 1 <= bits < 5 && acc % Pow2(bits) == v
    ensures Push5(acc, 5 - bits) == v * Pow2(5 - bits)
  {
    var p, w := Pow2(bits), Pow2(5 - bits);
    Pow2Add(bits, 5 - bits);
    Powers();
    ModOfMod(acc * w, 32, TWO32 / 32);
    PushRemainder(acc, p, w, 0);
  }

  lemma ValuesOfNone(s: string)
    ensures Values(Crockford, s[..0]) == Some([])
  {
  }

  lemma LeftOversAreDropped(digits: seq<nat>, acc: u32, bits: nat, bytes: seq<nat>, pending: seq<bit>)
    requires Carried(digits, 5, acc, bits, bytes, 8, pending) && bits < 8
    ensures Decode(digits, 5) == bytes
  {
    SpreadLength(bytes, 8);
    GroupIgnoresTail(Spread(bytes, 8), pending);
    GroupOfSpread(bytes, 8);
  }

  lemma {:induction false} ValuesAppend(s: string, c: char)
    ensures Values(Crockford, s + [c]) ==
      match (Values(Crockford, s), ValueOf(Crockford, c))
      case (Some(vs), Some(v)) => Some(vs + [v])
      case _ => None
  {
    if s == [] {
      assert s + [c] == [c] && [c][1..] == [];
      assert Values(Crockford, [c][1..]) == Some([]);
      var none: seq<nat> := [];
      match ValueOf(Crockford, c)
      case Some(v) => assert [v] + none == none + [v];
      case None =>
    } else {
      assert (s + [c])[1..] == s[1..] + [c];
      ValuesAppend(s[1..], c);
      match (ValueOf(Crockford, s[0]), Values(Crockford, s[1..]), ValueOf(Crockford, c))
      case (Some(first), Some(rest), Some(v)) => AppendAssoc([first], rest, [v]);
      case _ =>
    }
  }

  lemma {:induction false} ValuesFail(s: string, i: nat)
    requires i <= |s| && Values(Crockford, s[..i]) == None
    ensures Values(Crockford, s) == None
    decreases |s| - i
  {
    if i == |s| {
      assert s[..i] == s;
    } else {
      assert s[..i + 1] == s[..i] + [s[i]];
      ValuesAppend(s[..i], s[i]);
      ValuesFail(s, i + 1);
    }
  }

  /** Five bits in; a byte out when there are eight. */
  method AbsorbSymbol(acc: u32, bits: nat, ghost read: seq<nat>, v: nat, bytes: seq<nat>, ghost pending: seq<bit>)
    returns (acc': u32, bits': nat, bytes': seq<nat>, ghost pending': seq<bit>)
    requires bits < 8 && v < Pow2(5) && Carried(read, 5, acc, bits, bytes, 8, pending)
    ensures bits' < 8 && Carried(read + [v], 5, acc', bits', bytes', 8, pending')
  {
    hide Carried, Pow2;
    CarryIn(read, 5, acc, bits, bytes, 8, pending, v);
    acc', bits', bytes', pending' := Push(acc, v, 5), bits + 5, bytes, pending + ToBits(v, 5);
    if bits' >= 8 {
      CarryOut(read + [v], 5, acc', bits', bytes', 8, pending');
      bytes' := bytes' + [(acc' / Pow2(bits' - 8)) % Pow2(8)];
      bits', pending' := bits' - 8, pending'[8..];
    }
  }

  /** decodeToken on a join code's body. */
  method DecodeBody(body: string) returns (out: Option<seq<nat>>)
    ensures out == match Values(Crockford, body)
                   case None => None
                   case Some(vs) => if |Decode(vs, 5)| == TOKEN_BYTES then Some(Decode(vs, 5)) else None
  {
    hide Carried, Values;
    var bits, acc: u32 := 0, 0;
    var bytes: seq<nat> := [];
    ghost var vs: seq<nat>, pending: seq<bit> := [], [];
    NothingCarried(5, 8);
    ValuesOfNone(body);
    for i := 0 to |body|
      invariant Values(Crockford, body[..i]) == Some(vs)
      invariant bits < 8 && Carried(vs, 5, acc, bits, bytes, 8, pending)
    {
      assert body[..i + 1] == body[..i] + [body[i]];
      ValuesAppend(body[..i], body[i]);
      var v := ValueOf(Crockford, body[i]);
      if v == None {
        ValuesFail(body, i + 1);
        return None;
      }
      BelowRadix(body[i]);
      acc, bits, bytes, pending := AbsorbSymbol(acc, bits, vs, v.value, bytes, pending);
      vs := vs + [v.value];
    }
    assert body[..|body|] == body;
    LeftOversAreDropped(vs, acc, bits, bytes, pending);
    return if |bytes| == 32 then Some(bytes) else None;
  }

  lemma BelowRadix(c: char)
    ensures ValueOf(Crockford, c).Some? ==> ValueOf(Crockford, c).value < Pow2(5)
  {
    Powers();
  }

  method DecodeWorkerCode(input: string) returns (out: Option<seq<nat>>)
    ensures out == WorkerDecode(input)
  {
    var s := Trim(input);
    if !HasPrefix(s) { return None; }
    out := DecodeBody(Without(Uppercase(s[4..]), "-"));
  }

  // ---- Round trip ------------------------------------------------------------------------------

  lemma {:induction false} WithoutConcat(s: string, t: string, drop: string)
    ensures Without(s + t, drop) == Without(s, drop) + Without(t, drop)
  {
    if s == [] {
      assert s + t == t;
    } else {
      assert (s + t)[1..] == s[1..] + t;
      WithoutConcat(s[1..], t, drop);
    }
  }

  lemma {:induction false} NothingDropped(s: string)
    requires Tidy(s)
    ensures Without(s, "-") == s
  {
    if s != [] { NothingDropped(s[1..]); }
  }

  lemma {:induction false} UngroupedAgain(s: string)
    requires Tidy(s)
    ensures Without(Grouped(s), "-") == s
  {
    if |s| <= 4 {
      NothingDropped(s);
    } else {
      NothingDropped(s[..4]);
      UngroupedAgain(s[4..]);
      WithoutConcat(s[..4] + "-", Grouped(s[4..]), "-");
      WithoutConcat(s[..4], "-", "-");
      assert "-"[1..] == "" && Without("-", "-") == "";
    }
  }

  lemma {:induction false} GroupedChars(s: string, i: nat)
    requires Plain(s) && i < |Grouped(s)|
    ensures Grouped(s)[i] == '-' || Grouped(s)[i] in s
  {
    if |s| > 4 && i > 4 { GroupedChars(s[4..], i - 5); }
  }

  lemma CodeIsPlain(a: Alphabet, raw: Bytes)
    requires a != Base64Url
    ensures var s := JoinCode(a, raw); Trim(s) == s && HasPrefix(s) && Uppercase(s[4..]) == s[4..] == Grouped(Text(a, raw))
  {
    var t, s := Text(a, raw), JoinCode(a, raw);
    TextIsPlain(a, raw);
    assert s[4..] == Grouped(t);
    forall i | 0 <= i < |Grouped(t)| ensures !IsSpace(Grouped(t)[i]) && Upper(Grouped(t)[i]) == Grouped(t)[i] {
      GroupedChars(t, i);
    }
    assert forall i :: 4 <= i < |s| ==> s[i] == Grouped(t)[i - 4];
    assert Uppercase(s[4..]) == s[4..];
    assert !IsSpace(s[0]) && !IsSpace(s[|s| - 1]);
  }

  lemma WorkerReads(a: Alphabet, raw: Bytes)
    requires a != Base64Url
    ensures WorkerDecode(JoinCode(a, raw)) ==
      match Values(Crockford, Text(a, raw))
      case None => None
      case Some(vs) => if |Decode(vs, 5)| == TOKEN_BYTES then Some(Decode(vs, 5)) else None
  {
    CodeIsPlain(a, raw);
    TextIsPlain(a, raw);
    UngroupedAgain(Text(a, raw));
    hide Text, Values, Decode, Trim;
  }

  /** The worker reads back its own codes. */
  lemma WorkerRoundTrip(raw: Bytes)
    requires |raw| == TOKEN_BYTES
    ensures WorkerDecode(JoinCode(Crockford, raw)) == Some(raw)
  {
    WorkerReads(Crockford, raw);
    EncodeDigits(raw, 5);
    ValuesOfSymbols(Crockford, Encode(raw, 5));
    DecodeOfEncode(raw, 5);
  }

  // ---- Two alphabets -----------------------------------------------------------------------------

  lemma NoCommonSymbol(v: nat)
    requires v < 32
    ensures Pow2(5) == 32
    ensures ValueOf(Crockford, Symbol(Base32, v)) != Some(v) && ValueOf(Base32, Symbol(Crockford, v)) != Some(v)
  {
    Powers();
  }

  lemma {:induction false} FirstValue(a: Alphabet, s: string)
    requires s != [] && Values(a, s).Some?
    ensures Values(a, s).value != [] && Some(Values(a, s).value[0]) == ValueOf(a, s[0])
  {
  }

  lemma {:induction false} ValuesBelow(a: Alphabet, s: string)
    requires Values(a, s).Some?
    ensures AllBelow(Values(a, s).value, Pow2(Width(a)))
  {
    Powers();
    if s != [] { ValuesBelow(a, s[1..]); }
  }

  lemma FirstBits(digits: seq<nat>)
    requires digits != [] && AllBelow(digits, Pow2(5)) && |Decode(digits, 5)| > 0
    ensures AllBelow(Decode(digits, 5), 256) ==> Decode(digits, 5)[0] / 8 == digits[0]
  {
    Powers();
    var bits := Spread(digits, 5);
    assert Decode(digits, 5)[0] == Value(bits[..8]);
    var five, three := bits[..8][..5], bits[..8][5..];
    assert bits[..8] == five + three && five == ToBits(digits[0], 5);
    ValueOfConcat(five, three);
    ValueOfToBits(digits[0], 5);
    ToBitsOfValue(three);
    assert Pow2(2) == 4 && Pow2(3) == 8;
  }

  lemma FirstDigit(raw: Bytes)
    requires raw != []
    ensures Encode(raw, 5) != [] && Encode(raw, 5)[0] == raw[0] / 8
  {
    EncodeDigits(raw, 5);
    var digits := Encode(raw, 5);
    DecodeOfEncode(raw, 5);
    SpreadLength(raw, 8);
    SpreadLength(digits, 5);
    FirstBits(digits);
    hide Encode, Decode;
  }

  /** The worker never reads a Go join code as the token it stands for, although the worker's comment calls
      the two the same: no character has the same value in both alphabets. */
  lemma GoCodeIsForeign(raw: Bytes)
    requires |raw| == TOKEN_BYTES
    ensures WorkerDecode(JoinCode(Base32, raw)) != Some(raw)
  {
    WorkerReads(Base32, raw);
    var t := Text(Base32, raw);
    EncodeDigits(raw, 5);
    FirstDigit(raw);
    EncodeLength(raw);
    Powers();
    NoCommonSymbol(raw[0] / 8);
    if Values(Crockford, t).Some? {
      FirstValue(Crockford, t);
      ValuesBelow(Crockford, t);
      var vs := Values(Crockford, t).value;
      assert t[0] == Symbol(Base32, raw[0] / 8);
      assert vs[0] != raw[0] / 8;
      if |Decode(vs, 5)| == TOKEN_BYTES { FirstBits(vs); }
    }
    hide Encode, Decode, Values;
  }

  /** Nor does the Go server read the worker's. */
  lemma WorkerCodeIsForeign(raw: Bytes)
    requires |raw| == TOKEN_BYTES
    ensures DecodeToken(JoinCode(Crockford, raw)) != Some(raw)
  {
    var t, s := Text(Crockford, raw), JoinCode(Crockford, raw);
    CodeIsPlain(Crockford, raw);
    TextIsPlain(Crockford, raw);
    GroupedCompacts(t);
    PlainIsUnbroken(t);
    assert DecodeToken(s) == Raw32(Base32, t);
    EncodeDigits(raw, 5);
    FirstDigit(raw);
    EncodeLength(raw);
    Powers();
    NoCommonSymbol(raw[0] / 8);
    if Values(Base32, t).Some? {
      FirstValue(Base32, t);
      ValuesBelow(Base32, t);
      var vs := Values(Base32, t).value;
      assert t[0] == Symbol(Crockford, raw[0] / 8);
      assert vs[0] != raw[0] / 8;
      if |Decode(vs, 5)| == TOKEN_BYTES { FirstBits(vs); }
    }
    hide Encode, Decode, Values;
  }

  // ---- What the worker reads ---------------------------------------------------------------------

  lemma EndsAreKept(s: string)
    requires HasPrefix(s) && !IsSpace(s[|s| - 1])
    ensures Trim(s) == s
  {
  }

  /** Its own codes in any letter case, with dashes anywhere after the prefix. */
  lemma WorkerReadsAnyCase(raw: Bytes, s: string)
    requires |raw| == TOKEN_BYTES && HasPrefix(s) && !IsSpace(s[|s| - 1])
    requires Without(Uppercase(s[4..]), "-") == Text(Crockford, raw)
    ensures WorkerDecode(s) == Some(raw)
  {
    hide Trim, HasPrefix, Encode, Decode, Values, Without;
    EndsAreKept(s);
    EncodeDigits(raw, 5);
    ValuesOfSymbols(Crockford, Encode(raw, 5));
    DecodeOfEncode(raw, 5);
    PrefixIsLong(s);
  }

  lemma PrefixIsLong(s: string)
    requires HasPrefix(s)
    ensures |s| >= 4
  {
  }
}
