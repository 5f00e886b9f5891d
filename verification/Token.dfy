/** Join tokens and join codes (internal/auth/token.go). ASCII only. */
module Token {
  import opened Machine
  import opened Bits
  import opened Records

  const TOKEN_BYTES: nat := 32

  /** The two encodings of RFC 4648 in use, and the alphabet of the edge worker. */
  datatype Alphabet = Base32 | Base64Url | Crockford

  function Width(a: Alphabet): (k: nat)
    ensures 0 < k <= 8
  {
    if a == Base64Url then 6 else 5
  }

  function Plus(c: char, n: nat): char
    requires c as int + n < 128
  {
    (c as int + n) as char
  }

  predicate Between(lo: char, c: char, hi: char) { lo <= c <= hi }

  function Symbol(a: Alphabet, v: nat): char
    requires v < Pow2(Width(a))
  {
    Powers();
    match a
    case Base32 => if v < 26 then Plus('A', v) else Plus('2', v - 26)
    case Base64Url =>
      if v < 26 then Plus('A', v) else if v < 52 then Plus('a', v - 26) else if v < 62 then Plus('0', v - 52)
      else if v == 62 then '-' else '_'
    case Crockford =>
      if v < 10 then Plus('0', v) else if v < 18 then Plus('A', v - 10) else if v < 20 then Plus('J', v - 18)
      else if v < 22 then Plus('M', v - 20) else if v < 27 then Plus('P', v - 22) else Plus('V', v - 27)
  }

  function ValueOf(a: Alphabet, c: char): Option<nat>
  {
    var n := c as int;
    match a
    case Base32 =>
      if Between('A', c, 'Z') then Some(n - 65) else if Between('2', c, '7') then Some(n - 50 + 26) else None
    case Base64Url =>
      if Between('A', c, 'Z') then Some(n - 65) else if Between('a', c, 'z') then Some(n - 97 + 26)
      else if Between('0', c, '9') then Some(n - 48 + 52) else if c == '-' then Some(62)
      else if c == '_' then Some(63) else None
    case Crockford =>
      if Between('0', c, '9') then Some(n - 48) else if Between('A', c, 'H') then Some(n - 65 + 10)
      else if c == 'J' || c == 'K' then Some(n - 74 + 18) else if c == 'M' || c == 'N' then Some(n - 77 + 20)
      else if Between('P', c, 'T') then Some(n - 80 + 22) else if Between('V', c, 'Z') then Some(n - 86 + 27) else None
  }

  lemma SymbolValue(a: Alphabet, v: nat)
    requires v < Pow2(Width(a))
    ensures ValueOf(a, Symbol(a, v)) == Some(v)
    ensures !IsSpace(Symbol(a, v)) && Symbol(a, v) !in " \r\n"
    ensures a != Base64Url ==> Symbol(a, v) != '-' && Symbol(a, v) != '_' && Upper(Symbol(a, v)) == Symbol(a, v)
  {
    Powers();
  }

  function Symbols(a: Alphabet, digits: seq<nat>): (s: string)
    requires AllBelow(digits, Pow2(Width(a)))
    ensures |s| == |digits| && forall i :: 0 <= i < |s| ==> s[i] == Symbol(a, digits[i])
  {
    seq(|digits|, i requires 0 <= i < |digits| => Symbol(a, digits[i]))
  }

  /** The digits a text spells, if every character is in the alphabet. */
  function Values(a: Alphabet, s: string): Option<seq<nat>>
  {
    if s == [] then Some([])
    else
      match (ValueOf(a, s[0]), Values(a, s[1..]))
      case (Some(v), Some(vs)) => Some([v] + vs)
      case _ => None
  }

  lemma {:induction false} ValuesOfSymbols(a: Alphabet, digits: seq<nat>)
    requires AllBelow(digits, Pow2(Width(a)))
    ensures Values(a, Symbols(a, digits)) == Some(digits)
  {
    if digits == [] {
      assert Symbols(a, digits) == "";
    } else {
      SymbolValue(a, digits[0]);
      assert Symbols(a, digits)[1..] == Symbols(a, digits[1..]);
      ValuesOfSymbols(a, digits[1..]);
      assert [digits[0]] + digits[1..] == digits;
    }
  }

  lemma {:induction false} ValuesLength(a: Alphabet, s: string)
    ensures Values(a, s).Some? ==> |Values(a, s).value| == |s|
  {
    if s != [] { ValuesLength(a, s[1..]); }
  }

  // ---- Encoding ----------------------------------------------------------------------------

  function Text(a: Alphabet, raw: Bytes): string
  {
    EncodeDigits(raw, Width(a));
    Symbols(a, Encode(raw, Width(a)))
  }

  /** The machine form. */
  function TokenString(raw: Bytes): string { Text(Base64Url, raw) }

  /** Four characters to a group. */
  function Grouped(s: string): string
  {
    if |s| <= 4 then s else s[..4] + "-" + Grouped(s[4..])
  }

  function JoinCode(a: Alphabet, raw: Bytes): string { "P2P-" + Grouped(Text(a, raw)) }

  /** The builder's loop: a dash before every group but the first. */
  method GroupByFour(s: string) returns (out: string)
    ensures out == Grouped(s)
  {
    hide Grouped;
    out := "";
    var i := 0;
    if s == "" { GroupedNone(); }
    while i < |s|
      invariant i <= |s| && (i < |s| ==> i % 4 == 0)
      invariant Grouped(s) == if i < |s| then out + (if i > 0 then "-" else "") + Grouped(s[i..]) else out
    {
      var end := if i + 4 > |s| then |s| else i + 4;
      GroupedNext(s[i..], end - i);
      assert s[i..][..end - i] == s[i..end] && s[i..][end - i..] == s[end..];
      if i > 0 { out := out + "-"; }
      AppendAssoc(out, s[i..end], "-");
      AppendAssoc(out, s[i..end] + "-", Grouped(s[end..]));
      out := out + s[i..end];
      i := end;
    }
  }

  lemma GroupedNone()
    ensures Grouped("") == ""
  {
  }

  lemma GroupedNext(s: string, n: nat)
    requires s != "" && n == if |s| < 4 then |s| else 4
    ensures Grouped(s) == if n < |s| then s[..n] + "-" + Grouped(s[n..]) else s[..n]
  {
  }

  method EncodeJoinCode(raw: Bytes) returns (code: string)
    ensures code == if |raw| == TOKEN_BYTES then JoinCode(Base32, raw) else ""
  {
    if |raw| != TOKEN_BYTES { return ""; }
    var groups := GroupByFour(Text(Base32, raw));
    code := "P2P-" + groups;
  }

  // ---- Decoding ----------------------------------------------------------------------------

  function Trim(s: string): string { TrimLeft(TrimRight(s)) }

  /** The decoders of the Go library skip line breaks. */
  function Unbroken(s: string): string
  {
    if s == [] then []
    else if s[0] == '\r' || s[0] == '\n' then Unbroken(s[1..])
    else [s[0]] + Unbroken(s[1..])
  }

  /** The bytes a text decodes to, if it does and they are 32. (The library also refuses or shortens some
      odd lengths, never one that makes 32 bytes.) */
  function Raw32(a: Alphabet, s: string): Option<Bytes>
  {
    match Values(a, Unbroken(s))
    case None => None
    case Some(vs) =>
      var bytes := Decode(vs, Width(a));
      if |bytes| == TOKEN_BYTES && AllBelow(bytes, 256) then Some(AsBytes(bytes)) else None
  }

  /** base64url without padding or with it: 32 bytes take 43 characters and one sign of padding. */
  function Raw64(s: string): Option<Bytes>
  {
    var u := Unbroken(s);
    if Raw32(Base64Url, s).Some? then Raw32(Base64Url, s)
    else if |u| == 44 && u[43] == '=' then Raw32(Base64Url, u[..43])
    else None
  }

  function AsBytes(digits: seq<nat>): Bytes
    requires AllBelow(digits, 256)
  {
    digits
  }

  predicate HasPrefix(s: string)
  {
    |s| >= 4 && Upper(s[0]) == 'P' && s[1] == '2' && Upper(s[2]) == 'P' && s[3] == '-'
  }

  function Uppercase(s: string): string { seq(|s|, i requires 0 <= i < |s| => Upper(s[i])) }

  function Without(s: string, drop: string): string
  {
    if s == [] then [] else (if s[0] in drop then [] else [s[0]]) + Without(s[1..], drop)
  }

  predicate LooksBase32(s: string)
  {
    s != "" && forall i :: 0 <= i < |s| ==> ValueOf(Base32, Upper(s[i])).Some?
  }

  method IsBase32Alphabet(s: string) returns (ok: bool)
    ensures ok == LooksBase32(s)
  {
    if s == "" { return false; }
    for k := 0 to |s|
      invariant forall i :: 0 <= i < k ==> ValueOf(Base32, Upper(s[i])).Some?
    {
      var c := s[k];
      if !(Between('A', c, 'Z') || Between('a', c, 'z') || Between('2', c, '7')) { return false; }
    }
    return true;
  }

  function DecodeToken(input: string): Option<Bytes>
  {
    var s := Trim(input);
    if s == "" then None
    else if HasPrefix(s) then Raw32(Base32, Compact(s[4..]))
    else
      var compact := Without(s, "-_");
      if LooksBase32(compact) && Raw32(Base32, Uppercase(compact)).Some? then Raw32(Base32, Uppercase(compact))
      else if Raw64(s).Some? then Raw64(s)
      else Raw32(Base32, Uppercase(compact))
  }

  // ---- Round trips ---------------------------------------------------------------------------

  predicate TidyChar(c: char) { c != '-' && c != ' ' && c != '_' && Upper(c) == c }

  predicate Tidy(s: string) { forall i :: 0 <= i < |s| ==> TidyChar(s[i]) }

  predicate Plain(s: string) { forall i :: 0 <= i < |s| ==> !IsSpace(s[i]) && s[i] !in " \r\n" }

  lemma TextIsPlain(a: Alphabet, raw: Bytes)
    ensures Plain(Text(a, raw))
    ensures a != Base64Url ==> Tidy(Text(a, raw))
  {
    EncodeDigits(raw, Width(a));
    var digits := Encode(raw, Width(a));
    forall i | 0 <= i < |digits|
      ensures !IsSpace(Text(a, raw)[i]) && Text(a, raw)[i] !in " \r\n"
      ensures a != Base64Url ==> TidyChar(Text(a, raw)[i])
    {
      SymbolValue(a, digits[i]);
    }
  }

  lemma {:induction false} PlainIsUnbroken(s: string)
    requires Plain(s)
    ensures Unbroken(s) == s
  {
    if s != [] { PlainIsUnbroken(s[1..]); }
  }

  lemma TextDecodes(a: Alphabet, raw: Bytes)
    requires |raw| == TOKEN_BYTES
    ensures Raw32(a, Text(a, raw)) == Some(raw)
  {
    EncodeDigits(raw, Width(a));
    ValuesOfSymbols(a, Encode(raw, Width(a)));
    TextIsPlain(a, raw);
    PlainIsUnbroken(Text(a, raw));
    DecodeOfEncode(raw, Width(a));
    hide Encode, Decode;
  }

  lemma {:induction false} UnbrokenLength(s: string)
    ensures |Unbroken(s)| <= |s|
  {
    if s != [] { UnbrokenLength(s[1..]); }
  }

  /** Too short to hold 32 bytes. */
  lemma ShortTextFails(a: Alphabet, s: string)
    requires Width(a) * |s| < 8 * TOKEN_BYTES
    ensures Raw32(a, s) == None
  {
    UnbrokenLength(s);
    ValuesLength(a, Unbroken(s));
    var vs := Values(a, Unbroken(s));
    if vs.Some? {
      DecodeLength(vs.value, Width(a));
      assert Width(a) * |vs.value| <= Width(a) * |s|;
    }
  }

  lemma {:induction false} TrimRightCompact(s: string)
    requires forall c :: c in Compact(s) ==> !IsSpace(c)
    ensures Compact(TrimRight(s)) == Compact(s)
    decreases |s|
  {
    if s != [] && IsSpace(s[|s| - 1]) {
      var init, last := s[..|s| - 1], s[|s| - 1];
      CompactConcat(init, [last]);
      assert init + [last] == s;
      assert [last][1..] == [];
      assert Compact([last]) == if last == ' ' then [] else [Upper(last)];
      assert last != ' ' ==> Upper(last) in Compact(s);
      TrimRightCompact(init);
    }
  }

  lemma {:induction false} TrimRightPrefix(p: string, t: string)
    requires p != [] && !IsSpace(p[|p| - 1])
    ensures TrimRight(p + t) == p + TrimRight(t)
    decreases |t|
  {
    if t == [] {
      assert p + t == p;
    } else {
      assert (p + t)[..|p + t| - 1] == p + t[..|t| - 1];
      if IsSpace(t[|t| - 1]) { TrimRightPrefix(p, t[..|t| - 1]); }
    }
  }

  /** A join code is read under any letter case, with dashes and blanks put anywhere after the prefix. */
  lemma JoinCodeDecodes(raw: Bytes, s: string)
    requires |raw| == TOKEN_BYTES && HasPrefix(s) && Compact(s[4..]) == Text(Base32, raw)
    ensures DecodeToken(s) == Some(raw)
  {
    var p, t := s[..4], s[4..];
    assert s == p + t;
    TextIsPlain(Base32, raw);
    TrimRightPrefix(p, t);
    TrimRightCompact(t);
    var r := p + TrimRight(t);
    assert TrimLeft(r) == r && Trim(s) == r;
    assert HasPrefix(r) && r[4..] == TrimRight(t);
    TextDecodes(Base32, raw);
    hide Text, Raw32, Compact;
  }

  lemma {:induction false} GroupedCompacts(s: string)
    requires Tidy(s)
    ensures Compact(Grouped(s)) == s
  {
    if |s| <= 4 {
      CompactIsIdentity(s);
    } else {
      CompactIsIdentity(s[..4]);
      GroupedCompacts(s[4..]);
      CompactConcat(s[..4] + "-", Grouped(s[4..]));
      CompactConcat(s[..4], "-");
      assert "-"[1..] == "" && Compact("-") == "";
    }
  }

  lemma {:induction false} CompactIsIdentity(s: string)
    requires Tidy(s)
    ensures Compact(s) == s
  {
    if s != [] { CompactIsIdentity(s[1..]); }
  }

  /** In particular as it was handed out. */
  lemma OwnJoinCodeDecodes(raw: Bytes)
    requires |raw| == TOKEN_BYTES
    ensures DecodeToken(JoinCode(Base32, raw)) == Some(raw)
  {
    TextIsPlain(Base32, raw);
    GroupedCompacts(Text(Base32, raw));
    var s := JoinCode(Base32, raw);
    assert s[4..] == Grouped(Text(Base32, raw));
    JoinCodeDecodes(raw, s);
  }

  lemma {:induction false} NothingToTrim(s: string)
    requires Plain(s)
    ensures Trim(s) == s
  {
  }

  lemma {:induction false} WithoutLength(s: string, drop: string)
    ensures |Without(s, drop)| <= |s|
  {
    if s != [] { WithoutLength(s[1..], drop); }
  }

  lemma {:induction false} CompactLength(s: string)
    ensures |Compact(s)| <= |s|
  {
    if s != [] { CompactLength(s[1..]); }
  }

  /** The machine form is read back exactly when it does not start like a join code. */
  lemma TokenDecodesIff(raw: Bytes)
    requires |raw| == TOKEN_BYTES
    ensures DecodeToken(TokenString(raw)) == Some(raw) <==> !HasPrefix(TokenString(raw))
    ensures HasPrefix(TokenString(raw)) ==> DecodeToken(TokenString(raw)) == None
  {
    var s := TokenString(raw);
    TextIsPlain(Base64Url, raw);
    NothingToTrim(s);
    EncodeLength(raw);
    assert |s| == 43;
    hide Raw32, Text, Trim;
    if HasPrefix(s) {
      CompactLength(s[4..]);
      ShortTextFails(Base32, Compact(s[4..]));
    } else {
      WithoutLength(s, "-_");
      ShortTextFails(Base32, Uppercase(Without(s, "-_")));
      TextDecodes(Base64Url, raw);
    }
  }

  lemma {:induction false} ForeignChar(a: Alphabet, s: string, i: nat)
    requires i < |s| && ValueOf(a, s[i]) == None
    ensures Values(a, s) == None
  {
    if i > 0 { ForeignChar(a, s[1..], i - 1); }
  }

  /** So is the machine form with padding. */
  lemma PaddedTokenDecodesIff(raw: Bytes)
    requires |raw| == TOKEN_BYTES
    ensures DecodeToken(TokenString(raw) + "=") == Some(raw) <==> !HasPrefix(TokenString(raw))
  {
    var t, s := TokenString(raw), TokenString(raw) + "=";
    TextIsPlain(Base64Url, raw);
    assert Plain(s);
    NothingToTrim(s);
    EncodeLength(raw);
    assert |t| == 43 && s[..43] == t && s[43] == '=';
    hide Text, Trim;
    if HasPrefix(s) {
      CompactLength(s[4..]);
      ShortTextFails(Base32, Compact(s[4..]));
    } else {
      WithoutLength(s, "-_");
      ShortTextFails(Base32, Uppercase(Without(s, "-_")));
      PlainIsUnbroken(s);
      ForeignChar(Base64Url, s, 43);
      TextDecodes(Base64Url, raw);
      hide Decode, Values;
    }
  }

  /** Without the prefix: base32 under any letter case, with dashes or underscores anywhere. */
  lemma BareBase32Decodes(raw: Bytes, s: string)
    requires |raw| == TOKEN_BYTES && Plain(s) && !HasPrefix(s) && Uppercase(Without(s, "-_")) == Text(Base32, raw)
    ensures DecodeToken(s) == Some(raw)
  {
    var compact := Without(s, "-_");
    NothingToTrim(s);
    EncodeLength(raw);
    TextIsPlain(Base32, raw);
    forall i | 0 <= i < |compact| ensures ValueOf(Base32, Upper(compact[i])).Some? {
      EncodeDigits(raw, 5);
      SymbolValue(Base32, Encode(raw, 5)[i]);
      assert Text(Base32, raw)[i] == Upper(compact[i]);
    }
    TextDecodes(Base32, raw);
    hide Raw32, Text, Trim;
  }

  /** Such tokens exist: about one machine form in four million starts like a join code. */
  lemma UnreadableTokenExists()
    ensures exists raw: Bytes :: |raw| == TOKEN_BYTES && DecodeToken(TokenString(raw)) == None
  {
    var init: seq<nat> := [15, 54, 15, 62] + seq(38, _ => 0);
    var digits := init + [0];
    Powers();
    SpreadLength(digits, 6);
    SpreadAppend(init, 0, 6);
    ToBitsOfZero(6);
    DecodeThenEncode(digits, 6, 32, 2);
    var raw := AsBytes(Decode(digits, 6));
    DecodeLength(digits, 6);
    EncodeLength(raw);
    hide Encode, Decode, Spread;
    TokenDecodesIff(raw);
    var s := TokenString(raw);
    assert s[0] == Symbol(Base64Url, 15) && s[1] == Symbol(Base64Url, 54) && s[2] == 'P' && s[3] == Symbol(Base64Url, 62);
    assert DecodeToken(s) == None;
  }

  // ---- What is on paper ------------------------------------------------------------------------

  /** The letters for 8 q to 8 q + 7. */
  function Octet(a: Alphabet, q: nat): (s: string)
    requires 8 * q < Pow2(Width(a))
    ensures |s| == 8
  {
    Powers();
    match a
    case Base32 => if q == 0 then "ABCDEFGH" else if q == 1 then "IJKLMNOP" else if q == 2 then "QRSTUVWX" else "YZ234567"
    case Base64Url =>
      if q == 0 then "ABCDEFGH" else if q == 1 then "IJKLMNOP" else if q == 2 then "QRSTUVWX" else if q == 3 then "YZabcdef"
      else if q == 4 then "ghijklmn" else if q == 5 then "opqrstuv" else if q == 6 then "wxyz0123" else "456789-_"
    case Crockford => if q == 0 then "01234567" else if q == 1 then "89ABCDEF" else if q == 2 then "GHJKMNPQ" else "RSTVWXYZ"
  }

  /** The digits are written with these letters, the tables of RFC 4648 and the worker's own, and nothing else
      is read as a digit. */
  lemma AlphabetIs(a: Alphabet, v: nat, c: char)
    requires v < Pow2(Width(a))
    ensures Symbol(a, v) == Octet(a, v / 8)[v % 8]
    ensures ValueOf(a, c) == Some(v) <==> c == Octet(a, v / 8)[v % 8]
    ensures ValueOf(a, c).Some? ==> ValueOf(a, c).value < Pow2(Width(a))
  {
    LetterOf(a, v / 8, v % 8);
    SymbolValue(a, v);
    SymbolOfValue(a, c);
    hide Symbol, ValueOf, Octet, Pow2, Width;
  }

  lemma SymbolOfValue(a: Alphabet, c: char)
    ensures ValueOf(a, c).Some? ==> ValueOf(a, c).value < Pow2(Width(a)) && Symbol(a, ValueOf(a, c).value) == c
  {
    Powers();
  }

  lemma LetterOf(a: Alphabet, q: nat, r: nat)
    requires r < 8 && 8 * q + r < Pow2(Width(a))
    ensures Symbol(a, 8 * q + r) == Octet(a, q)[r]
  {
    Powers();
    if r == 0 {
    } else if r == 1 {
    } else if r == 2 {
    } else if r == 3 {
    } else if r == 4 {
    } else if r == 5 {
    } else if r == 6 {
    }
    hide Pow2;
  }

  lemma {:induction false} GroupedLength(s: string)
    ensures |Grouped(s)| == if s == "" then 0 else |s| + (|s| - 1) / 4
  {
    if |s| > 4 { GroupedLength(s[4..]); }
  }

  /** Letter i stands behind a dash for every four letters before it. */
  lemma {:induction false} GroupedLetter(s: string, i: nat)
    requires i < |s|
    ensures i + i / 4 < |Grouped(s)| && Grouped(s)[i + i / 4] == s[i]
    decreases |s|
  {
    if |s| > 4 && i >= 4 {
      GroupedLetter(s[4..], i - 4);
      assert Grouped(s)[5..] == Grouped(s[4..]);
      assert i + i / 4 == 5 + ((i - 4) + (i - 4) / 4);
      hide Grouped;
    }
  }

  lemma {:induction false} GroupedDash(s: string, j: nat)
    requires 5 * j + 4 < |Grouped(s)|
    ensures Grouped(s)[5 * j + 4] == '-'
    decreases j
  {
    if j > 0 {
      assert Grouped(s)[5..] == Grouped(s[4..]);
      GroupedDash(s[4..], j - 1);
    }
  }

  /** A join code in full: the prefix, then 52 letters in groups of four with dashes between, letter i standing
      for digit i of the token. */
  lemma JoinCodeOnPaper(a: Alphabet, raw: Bytes)
    requires |raw| == TOKEN_BYTES && a != Base64Url
    ensures var code, digits := JoinCode(a, raw), Encode(raw, 5);
      && |code| == 68 && code[..4] == "P2P-" && |digits| == 52
      && (forall i :: 0 <= i < 52 ==>
            digits[i] < Pow2(Width(a)) && code[4 + i + i / 4] == Octet(a, digits[i] / 8)[digits[i] % 8])
      && (forall j :: 0 <= j < 12 ==> code[8 + 5 * j] == '-')
  {
    hide Encode, Pow2, Grouped, Octet, Symbol, Width;
    var code, digits := JoinCode(a, raw), Encode(raw, 5);
    FiveWide(a);
    EncodeLength(raw);
    EncodeDigits(raw, 5);
    var text := Text(a, raw);
    GroupedLength(text);
    forall i | 0 <= i < 52
      ensures digits[i] < Pow2(Width(a)) && code[4 + i + i / 4] == Octet(a, digits[i] / 8)[digits[i] % 8]
    {
      GroupedLetter(text, i);
      AlphabetIs(a, digits[i], text[i]);
    }
    forall j | 0 <= j < 12 ensures code[8 + 5 * j] == '-' { GroupedDash(text, j); }
  }

  lemma FiveWide(a: Alphabet)
    requires a != Base64Url
    ensures Width(a) == 5
  {
  }

  // ---- What is read ------------------------------------------------------------------------------

  /** What marks a join code: the prefix in any letter case. */
  lemma PrefixReads(s: string)
    ensures HasPrefix(s) <==> |s| >= 4 && s[..4] in {"P2P-", "p2P-", "P2p-", "p2p-"}
  {
    if |s| >= 4 {
      var p := s[..4];
      assert p[0] == s[0] && p[1] == s[1] && p[2] == s[2] && p[3] == s[3];
      assert p == [s[0], s[1], s[2], s[3]];
    }
  }

  lemma Raw32Unbroken(a: Alphabet, s: string, raw: Bytes)
    requires |raw| == TOKEN_BYTES && Unbroken(s) == Text(a, raw)
    ensures Raw32(a, s) == Some(raw)
  {
    TextDecodes(a, raw);
    TextIsPlain(a, raw);
    PlainIsUnbroken(Text(a, raw));
    hide Text, Values, Decode;
  }

  /** Dropping dashes, underscores and line breaks in either order. */
  lemma {:induction false} UnbrokenOfLess(s: string)
    ensures Unbroken(Uppercase(Without(s, "-_"))) == Uppercase(Without(s, "-_\r\n"))
    ensures |Uppercase(Without(s, "-_\r\n"))| <= |Unbroken(s)|
  {
    if s == [] {
      assert Uppercase("") == "";
    } else {
      UnbrokenOfLess(s[1..]);
      var less, none := Without(s[1..], "-_"), Without(s[1..], "-_\r\n");
      UpperFirst(s[0], less);
      UpperFirst(s[0], none);
      assert s[0] in "-_" ==> Without(s, "-_") == less && Without(s, "-_\r\n") == none;
      assert s[0] !in "-_" ==> Without(s, "-_") == [s[0]] + less;
      assert s[0] !in "-_\r\n" ==> Without(s, "-_\r\n") == [s[0]] + none;
      assert s[0] in "\r\n" ==> Without(s, "-_\r\n") == none && Upper(s[0]) == s[0];
    }
  }

  lemma UpperFirst(c: char, s: string)
    ensures Uppercase([c] + s) == [Upper(c)] + Uppercase(s)
    ensures Unbroken([Upper(c)] + Uppercase(s)) == (if c in "\r\n" then [] else [Upper(c)]) + Unbroken(Uppercase(s))
  {
    assert ([Upper(c)] + Uppercase(s))[1..] == Uppercase(s);
  }

  /** Too long to be 32 bytes in base64. */
  lemma LongTextFails(s: string)
    requires |Unbroken(s)| >= 52
    ensures Raw64(s) == None
  {
    var u := Unbroken(s);
    ValuesLength(Base64Url, u);
    if Values(Base64Url, u).Some? { DecodeLength(Values(Base64Url, u).value, 6); }
    hide Values, Decode, Unbroken;
  }

  /** Without the prefix, base32 under any letter case, with dashes, underscores and line breaks anywhere
      inside. */
  lemma WrappedBase32Decodes(raw: Bytes, s: string)
    requires |raw| == TOKEN_BYTES && s != "" && Trim(s) == s && !HasPrefix(s)
    requires Uppercase(Without(s, "-_\r\n")) == Text(Base32, raw)
    ensures DecodeToken(s) == Some(raw)
  {
    hide Raw32, Raw64, Text, Trim, Unbroken, Without, HasPrefix;
    UnbrokenOfLess(s);
    Raw32Unbroken(Base32, Uppercase(Without(s, "-_")), raw);
    TextLength(raw);
    LongTextFails(s);
  }

  lemma TextLength(raw: Bytes)
    requires |raw| == TOKEN_BYTES
    ensures |Text(Base32, raw)| == 52
  {
    EncodeLength(raw);
    hide Encode;
  }
}
