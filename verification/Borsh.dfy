/** Borsh serialization of Anchor arguments (internal/vm/solana/anchor.go), and the decoder of a program
    that knows the types. Arguments arrive as text. */
module Borsh {
  import opened Bytes
  import opened Congruence
  import opened Decimals
  import opened Options
  import opened SnakeCase

  /** A Go string: a string of bytes. */
  type Text = s: string | forall i :: 0 <= i < |s| ==> s[i] as int < 256

  /** Integer types by width in bytes: 1, 2, 4, 8, 16 unsigned and 1, 2, 4, 8 signed. A defined type is
      given by its fields, whose names differ even up to snake case. */
  datatype Type =
    | Unsigned(width: Width)
    | Signed(width: Width)
    | Bool
    | Str
    | PublicKey
    | Raw
    | Opt(inner: Type)
    | Defined(fields: seq<Field>)

  datatype Field = Field(name: Text, typ: Type)

  type Width = w: int | w == 1 || w == 2 || w == 4 || w == 8 || w == 16 witness 1

  datatype Value =
    | Int(n: int)
    | Truth(b: bool)
    | Chars(s: string)
    | Key(k: seq<Byte>)
    | Octets(o: seq<Byte>)
    | Absent
    | Present(v: Value)

  /** solana-go's base58 reader; None stands for its panic. */
  type Base58 = string -> Option<seq<Byte>>

  const WORD: int := 0x1_0000_0000_0000_0000

  // ----- the serializer -----

  function TextBytes(s: Text): (r: seq<Byte>)
    ensures |r| == |s|
  {
    seq(|s|, i requires 0 <= i < |s| => s[i] as int)
  }

  function Abs(n: int): nat {
    if n < 0 then 0 - n else n
  }

  /** The low k bytes of the machine word n in two's complement. */
  function WordBytes(n: int, k: nat): (s: seq<Byte>)
    ensures |s| == k
  {
    LEBytes(n % WORD, k)
  }

  /** big.Int.Uint64 drops the sign, Int64 restores it on the low word. */
  function Uint64(n: int): nat {
    Abs(n) % WORD
  }

  function Int64(n: int): int {
    if n < 0 then 0 - Uint64(n) else Uint64(n)
  }

  type Nibble = n: int | 0 <= n < 16

  function HexByte(high: Nibble, low: Nibble): Byte {
    16 * high + low
  }

  function HexDigit(c: char): Option<Nibble> {
    if '0' <= c <= '9' then Some(c as int - '0' as int)
    else if 'a' <= c <= 'f' then Some(c as int - 'a' as int + 10)
    else if 'A' <= c <= 'F' then Some(c as int - 'A' as int + 10)
    else None
  }

  /** The bytes of pairs of hexadecimal digits. */
  function HexPairs(s: string): Option<seq<Byte>>
    requires |s| % 2 == 0
  {
    if s == "" then Some([]) else
    var n := |s| - 2;
    match (HexPairs(s[..n]), HexDigit(s[n]), HexDigit(s[n + 1]))
    case (Some(b), Some(high), Some(low)) => Some(b + [HexByte(high, low)])
    case _ => None
  }

  /** The digits after an optional 0x, made even in number. */
  function HexDigits(s: string): (r: string)
    ensures |r| % 2 == 0
  {
    var digits := if "0x" <= s then s[2..] else s;
    if |digits| % 2 != 0 then "0" + digits else digits
  }

  predicate MeansNone(val: string) {
    val == "" || val == "null" || val == "none"
  }

  function Serialize(base58: Base58, val: Text, typ: Type): Option<seq<Byte>>
    decreases typ
  {
    match typ
    case Unsigned(width) =>
      (match ParseInt(val)
       case None => None
       case Some(n) => Some(if width == 16 then LEBytes(Abs(n), 16) else WordBytes(Uint64(n), width)))
    case Signed(width) =>
      if width == 16 then None else       // i128 is an unsupported primitive
      (match ParseInt(val)
       case None => None
       case Some(n) => Some(WordBytes(Int64(n), width)))
    case Bool => Some(if val == "true" || val == "1" then [1] else [0])
    case Str => Some(LEBytes(|val| % 0x1_0000_0000, 4) + TextBytes(val))
    case PublicKey => base58(val)
    case Raw => HexPairs(HexDigits(val))
    case Opt(inner) =>
      if MeansNone(val) then Some([0])
      else (match Serialize(base58, val, inner) case None => None case Some(b) => Some([1] + b))
    case Defined(fields) =>             // the text goes to the first field, so a second one is missing
      if |fields| == 1 then Serialize(base58, val, fields[0].typ) else None
  }

  /** hexDecodeBytes. */
  method HexDecodeBytes(val: Text) returns (r: Option<seq<Byte>>)
    ensures r == HexPairs(HexDigits(val))
  {
    hide HexPairs, HexDigits, HexDigit, HexByte;
    var s := HexDigits(val);
    var n := |s| / 2;
    var b := new Byte[n](i => 0);
    HexNone(s);
    for k := 0 to n
      invariant HexPairs(s[..2 * k]) == Some(b[..k])
    {
      HexStep(s, k);
      var high, low := HexDigit(s[2 * k]), HexDigit(s[2 * k + 1]);
      if high == None || low == None {
        HexFails(s, k + 1);
        return None;
      }
      ghost var before := b[..k];
      b[k] := HexByte(high.value, low.value);
      assert b[..k + 1] == before + [b[k]];
    }
    assert s[..2 * n] == s && b[..n] == b[..];
    return Some(b[..]);
  }

  lemma HexNone(s: string)
    ensures HexPairs(s[..0]) == Some([])
  {
  }

  lemma HexStep(s: string, k: nat)
    requires 2 * k + 2 <= |s| && HexPairs(s[..2 * k]).Some?
    ensures HexPairs(s[..2 * (k + 1)])
              == match (HexDigit(s[2 * k]), HexDigit(s[2 * k + 1]))
                 case (Some(high), Some(low)) => Some(HexPairs(s[..2 * k]).value + [HexByte(high, low)])
                 case _ => None
  {
    hide HexDigit, HexByte;
    assert s[..2 * (k + 1)][..2 * k] == s[..2 * k];
  }

  lemma {:induction false} HexFails(s: string, k: nat)
    requires |s| % 2 == 0 && 2 * k <= |s| && HexPairs(s[..2 * k]) == None
    ensures HexPairs(s) == None
    decreases |s|
  {
    hide HexDigit, HexByte;
    if 2 * k == |s| {
      assert s[..2 * k] == s;
    } else {
      assert s[..|s| - 2][..2 * k] == s[..2 * k];
      HexFails(s[..|s| - 2], k);
    }
  }

  /** The hexadecimal numeral of bytes, in small letters or capitals. */
  function HexChar(n: Nibble, capitals: bool): char {
    if n < 10 then ('0' as int + n) as char else ((if capitals then 'A' else 'a') as int + n - 10) as char
  }

  function ShowHex(b: seq<Byte>, capitals: bool): (s: string)
    ensures |s| == 2 * |b|
  {
    if b == [] then "" else
    var n := |b| - 1;
    ShowHex(b[..n], capitals) + [HexChar(b[n] / 16, capitals), HexChar(b[n] % 16, capitals)]
  }

  lemma HexOfNibbles(b: Byte)
    ensures HexByte(b / 16, b % 16) == b
  {
  }

  lemma HexCharReads(n: Nibble, capitals: bool)
    ensures HexDigit(HexChar(n, capitals)) == Some(n) && HexChar(n, capitals) != 'x'
  {
  }

  lemma {:induction false} HexPairsOfShow(b: seq<Byte>, capitals: bool)
    ensures HexPairs(ShowHex(b, capitals)) == Some(b)
    ensures forall i :: 0 <= i < 2 * |b| ==> ShowHex(b, capitals)[i] != 'x'
  {
    hide HexChar, HexDigit, HexByte, HexPairs;
    if b == [] {
      HexNone("");
    } else {
      var n := |b| - 1;
      var high, low := HexChar(b[n] / 16, capitals), HexChar(b[n] % 16, capitals);
      var before := ShowHex(b[..n], capitals);
      HexPairsOfShow(b[..n], capitals);
      HexCharReads(b[n] / 16, capitals);
      HexCharReads(b[n] % 16, capitals);
      HexOfNibbles(b[n]);
      var s := before + [high, low];
      assert s[..2 * n] == before && s[..2 * (n + 1)] == s;
      HexStep(s, n);
      assert b == b[..n] + [b[n]];
    }
  }

  lemma DigitsOf(s: string)
    requires |s| % 2 == 0 && forall i :: 0 <= i < |s| ==> s[i] != 'x'
    ensures HexDigits(s) == s && HexDigits("0x" + s) == s
    ensures s != "" && s[0] == '0' ==> HexDigits("0x" + s[1..]) == s
  {
    assert |s| >= 2 ==> s[..2][1] != "0x"[1];
    assert ("0x" + s)[2..] == s;
    if s != "" && s[0] == '0' {
      assert ("0x" + s[1..])[2..] == s[1..] && "0" + s[1..] == s;
    }
  }

  /** Bytes are read back from their numeral, in small letters or capitals, with 0x or without it, and also when
      a leading zero digit has been dropped. */
  lemma HexReadsBack(b: seq<Byte>, capitals: bool)
    ensures var s := ShowHex(b, capitals);
            && HexPairs(HexDigits(s)) == Some(b) && HexPairs(HexDigits("0x" + s)) == Some(b)
            && (b != [] && b[0] < 16 ==> HexPairs(HexDigits("0x" + s[1..])) == Some(b))
  {
    hide HexPairs, HexDigits, ShowHex, HexChar;
    HexPairsOfShow(b, capitals);
    DigitsOf(ShowHex(b, capitals));
    if b != [] {
      FirstDigit(b, capitals);
    }
  }

  lemma {:induction false} FirstDigit(b: seq<Byte>, capitals: bool)
    requires b != []
    ensures ShowHex(b, capitals)[0] == HexChar(b[0] / 16, capitals)
    ensures b[0] < 16 ==> ShowHex(b, capitals)[0] == '0'
    decreases |b|
  {
    if |b| > 1 {
      FirstDigit(b[..|b| - 1], capitals);
    }
  }

  /** The first byte of an option tells whether its text was one of the three for none, and the byte of a boolean
      whether its text was one of the two for true. */
  lemma TagsTell(base58: Base58, val: Text, inner: Type)
    ensures var r := Serialize(base58, val, Opt(inner));
            && (r == Some([0]) <==> val in {"", "null", "none"})
            && (r.Some? && val !in {"", "null", "none"} ==>
                  r.value[0] == 1 && Serialize(base58, val, inner) == Some(r.value[1..]))
    ensures Serialize(base58, val, Bool) == Some([if val in {"true", "1"} then 1 else 0])
  {
    hide ParseInt, HexPairs, HexDigits;
    if Serialize(base58, val, Opt(inner)).Some? && !MeansNone(val) {
      var b := Serialize(base58, val, inner).value;
      assert ([1] + b)[1..] == b && ([1] + b)[0] == 1;
    }
  }

  /** fillLE: the reversed big-endian bytes, as many as fit. */
  method FillLE(dst: array<Byte>, n: int)
    requires forall i :: 0 <= i < dst.Length ==> dst[i] == 0
    modifies dst
    ensures dst[..] == LEBytes(Abs(n), dst.Length)
    ensures n >= 0 ==> LE(dst[..]) == n % Pow256(dst.Length)
  {
    hide Pow256, LE, BE, Abs, Minimal, LEBytes;
    var b := Minimal(Abs(n));
    ghost var len, rest := dst.Length, Abs(n);
    var i, j := 0, |b| - 1;
    assert b[..j + 1] == b;
    while j >= 0 && i < dst.Length
      invariant 0 <= i <= len == dst.Length && j == |b| - 1 - i >= -1
      invariant b[..j + 1] == Minimal(rest)
      invariant LEBytes(Abs(n), len) == dst[..i] + LEBytes(rest, len - i)
      invariant forall k :: i <= k < dst.Length ==> dst[k] == 0
    {
      FillStep(b, j, rest, len - i);
      ghost var before := dst[..i];
      dst[i] := b[j];
      i, j, rest := i + 1, j - 1, rest / 256;
      assert dst[..i] == before + [dst[i - 1]];
    }
    FillEnd(b, j, rest, len - i);
    assert dst[..] == dst[..i] + dst[i..];
    assert dst[i..] == Zeros(len - i);
    LEOfLEBytes(Abs(n), len);
    AbsOfNat(n);
  }

  lemma FillStep(b: seq<Byte>, j: nat, rest: nat, k: nat)
    requires j < |b| && b[..j + 1] == Minimal(rest) && k > 0
    ensures b[..j] == Minimal(rest / 256) && LEBytes(rest, k) == [b[j]] + LEBytes(rest / 256, k - 1)
  {
    assert b[..j + 1][..j] == b[..j] && b[..j + 1][j] == b[j];
  }

  lemma FillEnd(b: seq<Byte>, j: int, rest: nat, k: nat)
    requires -1 <= j < |b| && b[..j + 1] == Minimal(rest) && (j >= 0 ==> k == 0)
    ensures LEBytes(rest, k) == Zeros(k)
  {
    if j < 0 {
      LEBytesOfZero(k);
    }
  }

  lemma AbsOfNat(n: int)
    ensures n >= 0 ==> Abs(n) == n
  {
  }

  // ----- what an argument means, and the decoder -----

  /** The value a piece of text stands for. */
  function Meaning(base58: Base58, val: Text, typ: Type): Option<Value>
    decreases typ
  {
    match typ
    case Unsigned(_) => (match ParseInt(val) case None => None case Some(n) => Some(Int(n)))
    case Signed(_) => (match ParseInt(val) case None => None case Some(n) => Some(Int(n)))
    case Bool => Some(Truth(val == "true" || val == "1"))
    case Str => Some(Chars(val))
    case PublicKey => (match base58(val) case None => None case Some(k) => Some(Key(k)))
    case Raw => (match HexPairs(HexDigits(val)) case None => None case Some(b) => Some(Octets(b)))
    case Opt(inner) =>
      if MeansNone(val) then Some(Absent)
      else (match Meaning(base58, val, inner) case None => None case Some(v) => Some(Present(v)))
    case Defined(fields) => if |fields| == 1 then Meaning(base58, val, fields[0].typ) else None
  }

  function TwosComplement(n: nat, width: nat): int {
    if 2 * n < Pow256(width) then n else n - Pow256(width)
  }

  function Take(s: seq<Byte>, k: nat): Option<(seq<Byte>, seq<Byte>)> {
    if |s| < k then None else Some((s[..k], s[k..]))
  }

  function BytesText(s: seq<Byte>): (r: Text)
    ensures |r| == |s|
  {
    seq(|s|, i requires 0 <= i < |s| => s[i] as char)
  }

  /** Reads a length and as many bytes. */
  function TakeCounted(s: seq<Byte>): Option<(seq<Byte>, seq<Byte>)> {
    match Take(s, 4)
    case None => None
    case Some((len, rest)) => Take(rest, LE(len))
  }

  /** Reads one value off the front. */
  function Decode(typ: Type, s: seq<Byte>): Option<(Value, seq<Byte>)>
    decreases typ
  {
    match typ
    case Unsigned(width) => (match Take(s, width) case None => None case Some((b, rest)) => Some((Int(LE(b)), rest)))
    case Signed(width) =>
      (match Take(s, width) case None => None case Some((b, rest)) => Some((Int(TwosComplement(LE(b), width)), rest)))
    case Bool => (match Take(s, 1) case None => None case Some((b, rest)) => Some((Truth(b == [1]), rest)))
    case Str => (match TakeCounted(s) case None => None case Some((b, rest)) => Some((Chars(BytesText(b)), rest)))
    case PublicKey => (match Take(s, 32) case None => None case Some((b, rest)) => Some((Key(b), rest)))
    case Raw => (match TakeCounted(s) case None => None case Some((b, rest)) => Some((Octets(b), rest)))
    case Opt(inner) =>
      (match Take(s, 1)
       case None => None
       case Some((tag, rest)) =>
         if tag == [0] then Some((Absent, rest))
         else (match Decode(inner, rest) case None => None case Some((v, rest')) => Some((Present(v), rest'))))
    case Defined(fields) => if |fields| == 1 then Decode(fields[0].typ, s) else None
  }

  /** The value is one its type can hold and its serialization can carry: raw bytes go without their
      length. */
  predicate InRange(v: Value, typ: Type)
    decreases typ
  {
    match typ
    case Unsigned(width) => v.Int? && 0 <= v.n < Pow256(width)
    case Signed(width) => v.Int? && width != 16 && -Pow256(width) <= 2 * v.n < Pow256(width)
    case Bool => v.Truth?
    case Str => v.Chars? && |v.s| < 0x1_0000_0000
    case PublicKey => v.Key? && |v.k| == 32
    case Raw => false
    case Opt(inner) => v.Absent? || (v.Present? && InRange(v.v, inner))
    case Defined(fields) => |fields| == 1 && InRange(v, fields[0].typ)
  }

  // ----- one value -----

  lemma ModMod(x: int, a: int, b: int)
    requires a > 0 && b > 0
    ensures a * b > 0 && (x % (a * b)) % a == x % a
  {
    assert a * b > 0;
    var q, r := x / (a * b), x % (a * b);
    assert x == q * (a * b) + r;
    var q', r' := r / a, r % a;
    assert r == q' * a + r';
    assert x == (q * b + q') * a + r' by {
      assert q * (a * b) == (q * b) * a;
    }
    ModUnique(x, q * b + q', r', a);
  }

  lemma Powers(width: Width)
    ensures Pow256(8) == WORD && Pow256(16) == WORD * WORD && Pow256(1) == 256 && Pow256(width) % 2 == 0
    ensures width <= 8 ==> Pow256(width) <= WORD && Pow256(width) * Pow256(8 - width) == WORD
  {
    assert Pow256(2) == 0x1_0000 && Pow256(3) == 0x100_0000 && Pow256(4) == 0x1_0000_0000;
    assert Pow256(5) == 0x100_0000_0000 && Pow256(6) == 0x1_0000_0000_0000 && Pow256(7) == 0x100_0000_0000_0000;
    Pow256Add(8, 8);
    if width <= 8 {
      Pow256Add(width, 8 - width);
      Pow256Monotone(width, 8);
    }
  }

  lemma LEOfWord(n: int, width: Width)
    requires width <= 8
    ensures LE(WordBytes(n, width)) == n % Pow256(width)
  {
    hide Pow256, LE;
    Powers(width);
    LEOfLEBytes(n % WORD, width);
    ModMod(n, Pow256(width), Pow256(8 - width));
  }

  /** What an unsigned field decodes to: the magnitude, wrapped, whatever the sign. */
  lemma UnsignedDecodes(n: int, width: Width)
    ensures var b := if width == 16 then LEBytes(Abs(n), 16) else WordBytes(Uint64(n), width);
            LE(b) == Abs(n) % Pow256(width)
  {
    hide Pow256, LE;
    Powers(width);
    if width == 16 {
      LEOfLEBytes(Abs(n), 16);
    } else {
      LEOfWord(Uint64(n), width);
      ModMod(Abs(n), Pow256(width), Pow256(8 - width));
    }
  }

  lemma WrapIff(n: int, p: int)
    requires p > 0
    ensures (if n < 0 then 0 - n else n) % p == n <==> 0 <= n < p
  {
    if 0 <= n < p {
      ModUnique(n, 0, n, p);
    }
  }

  /** Two's complement of a wrapped number is the number exactly in the signed range. */
  lemma SignedIff(n: int, m: int, p: int)
    requires p > 1 && p % 2 == 0 && (-p <= 2 * n < p ==> m == n)
    ensures (if 2 * (m % p) < p then m % p else m % p - p) == n <==> -p <= 2 * n < p
  {
    if -p <= 2 * n < p {
      if n >= 0 {
        ModUnique(n, 0, n, p);
      } else {
        ModUnique(n, -1, n + p, p);
      }
    }
  }

  lemma SignedDecodes(n: int, width: Width)
    requires width <= 8
    ensures TwosComplement(LE(WordBytes(Int64(n), width)), width) == n <==>
              -Pow256(width) <= 2 * n < Pow256(width)
  {
    hide Pow256, LE;
    Powers(width);
    LEOfWord(Int64(n), width);
    if -Pow256(width) <= 2 * n < Pow256(width) {
      ModUnique(Abs(n), 0, Abs(n), WORD);
    }
    SignedIff(n, Int64(n), Pow256(width));
  }

  lemma TextOfBytes(s: Text)
    ensures BytesText(TextBytes(s)) == s
  {
  }

  ghost predicate KeyReader(base58: Base58) {
    forall s :: base58(s).Some? ==> |base58(s).value| == 32
  }

  /** Bytes without their length are not read back, whatever follows. */
  lemma NeverCounted(b: seq<Byte>, rest: seq<Byte>)
    ensures TakeCounted(b + rest) != Some((b, rest))
  {
    CountedLength(b + rest);
    hide TakeCounted;
  }

  lemma CountedLength(s: seq<Byte>)
    ensures TakeCounted(s).Some? ==> |s| == 4 + |TakeCounted(s).value.0| + |TakeCounted(s).value.1|
  {
    hide LE;
  }

  /** Followed by anything, a serialized argument decodes to what the text means exactly when its type can
      hold that, and then nothing of what follows is consumed. */
  lemma {:induction false} ValueRoundTripIff(base58: Base58, val: Text, typ: Type, rest: seq<Byte>)
    requires KeyReader(base58) && Serialize(base58, val, typ).Some?
    ensures Meaning(base58, val, typ).Some?
    ensures InRange(Meaning(base58, val, typ).value, typ) <==>
              Decode(typ, Serialize(base58, val, typ).value + rest) == Some((Meaning(base58, val, typ).value, rest))
    decreases typ
  {
    var b, v := Serialize(base58, val, typ).value, Meaning(base58, val, typ);
    match typ
    case Unsigned(width) =>
      IntRoundTrip(b, rest, width);
      UnsignedDecodes(v.value.n, width);
      WrapIff(v.value.n, Pow256(width));
    case Signed(width) =>
      IntRoundTrip(b, rest, width);
      SignedDecodes(v.value.n, width);
    case Bool => assert (b + rest)[..1] == b && (b + rest)[1..] == rest;
    case Str => StringRoundTrip(val, rest);
    case PublicKey => assert (b + rest)[..32] == b && (b + rest)[32..] == rest;
    case Raw => NeverCounted(b, rest);
    case Defined(fields) => ValueRoundTripIff(base58, val, fields[0].typ, rest);
    case Opt(inner) =>
      assert (b + rest)[..1] == b[..1] && (b + rest)[1..] == b[1..] + rest;
      if !MeansNone(val) {
        ValueRoundTripIff(base58, val, inner, rest);
        assert b[1..] == Serialize(base58, val, inner).value;
      }
  }

  lemma IntRoundTrip(b: seq<Byte>, rest: seq<Byte>, width: Width)
    requires |b| == width
    ensures Take(b + rest, width) == Some((b, rest))
  {
    assert (b + rest)[..width] == b && (b + rest)[width..] == rest;
  }

  lemma StringRoundTrip(val: Text, rest: seq<Byte>)
    ensures var b := LEBytes(|val| % 0x1_0000_0000, 4) + TextBytes(val);
            Decode(Str, b + rest) == Some((Chars(val), rest)) <==> |val| < 0x1_0000_0000
  {
    hide LE, LEBytes, Pow256, TextBytes, BytesText;
    var head, text := LEBytes(|val| % 0x1_0000_0000, 4), TextBytes(val);
    var s := head + text + rest;
    assert s[..4] == head && s[4..] == text + rest;
    LengthReads(|val| % 0x1_0000_0000);
    if |val| < 0x1_0000_0000 {
      assert (text + rest)[..|val|] == text && (text + rest)[|val|..] == rest;
      TextOfBytes(val);
    }
  }

  lemma LengthReads(n: nat)
    requires n < 0x1_0000_0000
    ensures LE(LEBytes(n, 4)) == n
  {
    assert Pow256(1) == 256 && Pow256(2) == 0x1_0000 && Pow256(3) == 0x100_0000 && Pow256(4) == 0x1_0000_0000;
    hide Pow256, LE, LEBytes;
    LEOfLEBytes(n, 4);
  }

  // ----- argument lists -----

  function SerializeAll(base58: Base58, vals: seq<Text>, fields: seq<Field>): Option<seq<Byte>>
    requires |vals| == |fields|
  {
    if fields == [] then Some([]) else
    var n := |fields| - 1;
    match (SerializeAll(base58, vals[..n], fields[..n]), Serialize(base58, vals[n], fields[n].typ))
    case (Some(buf), Some(b)) => Some(buf + b)
    case _ => None
  }

  /** A program reads its arguments one after the other. */
  function DecodeAll(fields: seq<Field>, s: seq<Byte>): Option<(seq<Value>, seq<Byte>)> {
    if fields == [] then Some(([], s)) else
    var n := |fields| - 1;
    match DecodeAll(fields[..n], s)
    case None => None
    case Some((vs, rest)) =>
      match Decode(fields[n].typ, rest) case None => None case Some((v, rest')) => Some((vs + [v], rest'))
  }

  /** The texts mean these values, and every field can hold its own. */
  predicate Fits(base58: Base58, vals: seq<Text>, fields: seq<Field>, vs: seq<Value>) {
    && |vals| == |fields| == |vs|
    && forall i :: 0 <= i < |vs| ==>
         Meaning(base58, vals[i], fields[i].typ) == Some(vs[i]) && InRange(vs[i], fields[i].typ)
  }

  lemma {:induction false} ArgsRoundTripBefore(base58: Base58, vals: seq<Text>, fields: seq<Field>, vs: seq<Value>,
                                               rest: seq<Byte>)
    requires KeyReader(base58) && Fits(base58, vals, fields, vs) && SerializeAll(base58, vals, fields).Some?
    ensures DecodeAll(fields, SerializeAll(base58, vals, fields).value + rest) == Some((vs, rest))
    decreases |fields|
  {
    hide Decode, Serialize, Meaning, InRange;
    if fields == [] {
      assert SerializeAll(base58, vals, fields).value + rest == rest;
    } else {
      var n := |fields| - 1;
      var buf := SerializeAll(base58, vals[..n], fields[..n]).value;
      var b := Serialize(base58, vals[n], fields[n].typ).value;
      assert SerializeAll(base58, vals, fields).value + rest == buf + (b + rest);
      ArgsRoundTripBefore(base58, vals[..n], fields[..n], vs[..n], b + rest);
      ValueRoundTripIff(base58, vals[n], fields[n].typ, rest);
      assert vs == vs[..n] + [vs[n]];
    }
  }

  /** Decoding the whole buffer recovers every argument in field order and ends exactly at its last byte. */
  lemma ArgsRoundTrip(base58: Base58, vals: seq<Text>, fields: seq<Field>, vs: seq<Value>)
    requires KeyReader(base58) && Fits(base58, vals, fields, vs) && SerializeAll(base58, vals, fields).Some?
    ensures DecodeAll(fields, SerializeAll(base58, vals, fields).value) == Some((vs, []))
  {
    var buf := SerializeAll(base58, vals, fields).value;
    ArgsRoundTripBefore(base58, vals, fields, vs, []);
    assert buf + [] == buf;
  }

  /** No two argument lists that fit the same fields and mean different things serialize alike. */
  lemma UniquelyDecodable(base58: Base58, fields: seq<Field>, vals: seq<Text>, vs: seq<Value>,
                          vals': seq<Text>, vs': seq<Value>)
    requires KeyReader(base58) && Fits(base58, vals, fields, vs) && Fits(base58, vals', fields, vs')
    requires SerializeAll(base58, vals, fields).Some?
    requires SerializeAll(base58, vals, fields) == SerializeAll(base58, vals', fields)
    ensures vs == vs'
  {
    hide Fits, DecodeAll, SerializeAll;
    ArgsRoundTrip(base58, vals, fields, vs);
    ArgsRoundTrip(base58, vals', fields, vs');
  }

  /** Out of range, the sign of an unsigned argument is lost: -5 and 5 serialize alike. */
  lemma SignIsDropped(base58: Base58)
    ensures Serialize(base58, "-5", Unsigned(1)) == Serialize(base58, "5", Unsigned(1)) == Some([5])
  {
    assert ParseInt("5") == Some(5) by {
      assert "5"[..0] == "";
      assert Decimal("5") == 5;
    }
    assert ParseInt("-5") == Some(-5) by {
      assert "-5"[1..] == "5";
    }
    assert Uint64(5) == 5 && Uint64(-5) == 5;
    assert LEBytes(5, 1) == [5] + LEBytes(0, 0) == [5];
  }

  // ----- the lookup of arguments by name -----

  /** The argument is under its name, or else under some name with the same snake case. */
  predicate Finds(args: map<Text, Text>, name: Text, val: Text) {
    if name in args then val == args[name]
    else exists k :: k in args && Snake(k) == Snake(name) && val == args[k]
  }

  method LookupArg(args: map<Text, Text>, name: Text) returns (val: Option<Text>)
    ensures val.Some? ==> Finds(args, name, val.value)
    ensures val == None ==> forall v :: !Finds(args, name, v)
    ensures name in args ==> val == Some(args[name])
    ensures val.Some? ==> exists k :: k in args && Snake(k) == Snake(name) && val.value == args[k]
    ensures val == None ==> forall k :: k in args ==> Snake(k) != Snake(name)
  {
    if name in args {
      return Some(args[name]);
    }
    var wanted := ToSnakeCase(name);
    var left := args.Keys;
    while left != {}
      invariant left <= args.Keys
      invariant forall k :: k in args && k !in left ==> Snake(k) != Snake(name)
      decreases |left|
    {
      var k :| k in left;
      var snake := ToSnakeCase(k);
      if snake == wanted {
        return Some(args[k]);
      }
      left := left - {k};
    }
    return None;
  }

  lemma SerializeNone(base58: Base58, fields: seq<Field>)
    requires fields == []
    ensures SerializeAll(base58, [], fields) == Some([])
  {
  }

  lemma SerializeNext(base58: Base58, vals: seq<Text>, val: Text, fields: seq<Field>, i: nat)
    requires i < |fields| && |vals| == i && SerializeAll(base58, vals, fields[..i]).Some?
    requires Serialize(base58, val, fields[i].typ).Some?
    ensures SerializeAll(base58, vals + [val], fields[..i + 1])
              == Some(SerializeAll(base58, vals, fields[..i]).value + Serialize(base58, val, fields[i].typ).value)
  {
    hide Serialize;
    assert (vals + [val])[..i] == vals && fields[..i + 1][..i] == fields[..i];
  }

  /** serializeBorshArgs: the serializations of the arguments found, in field order, or an error for the
      first field that is missing or unreadable. */
  method SerializeBorshArgs(base58: Base58, fields: seq<Field>, args: map<Text, Text>)
    returns (buf: Option<seq<Byte>>, vals: seq<Text>)
    ensures |vals| <= |fields| && forall i :: 0 <= i < |vals| ==> Finds(args, fields[i].name, vals[i])
    ensures buf.Some? ==> |vals| == |fields| && buf == SerializeAll(base58, vals, fields)
    ensures buf == None ==>
              || (|vals| < |fields| && forall v :: !Finds(args, fields[|vals|].name, v))
              || (vals != [] && Serialize(base58, vals[|vals| - 1], fields[|vals| - 1].typ) == None)
  {
    hide Serialize, SerializeAll, Finds;
    vals := [];
    var bytes: seq<Byte> := [];
    SerializeNone(base58, fields[..0]);
    for i := 0 to |fields|
      invariant |vals| == i
      invariant forall j :: 0 <= j < i ==> Finds(args, fields[j].name, vals[j])
      invariant SerializeAll(base58, vals, fields[..i]) == Some(bytes)
    {
      var val := LookupArg(args, fields[i].name);
      if val == None {
        return None, vals;
      }
      var b := Serialize(base58, val.value, fields[i].typ);
      ghost var before := vals;
      vals := vals + [val.value];
      if b == None {
        return None, vals;
      }
      SerializeNext(base58, before, val.value, fields, i);
      bytes := bytes + b.value;
    }
    assert fields[..|fields|] == fields;
    return Some(bytes), vals;
  }
}
