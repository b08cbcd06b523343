/** Bytes and the byte orders of the wire formats: big.Int's minimal big-endian bytes, the
    fixed-width orders of encoding/binary, and the in-place reversal loops. */
module Bytes {
  import opened Congruence

  type Byte = b: int | 0 <= b < 256

  function Pow256(k: nat): (r: int)
    ensures r >= 1
  {
    if k == 0 then 1 else 256 * Pow256(k - 1)
  }

  /** The number a big-endian byte string denotes (big.Int.SetBytes). */
  function BE(s: seq<Byte>): nat {
    if s == [] then 0 else 256 * BE(s[..|s| - 1]) + s[|s| - 1]
  }

  /** The number a little-endian byte string denotes. */
  function LE(s: seq<Byte>): nat {
    if s == [] then 0 else s[0] + 256 * LE(s[1..])
  }

  /** big.Int.Bytes: big-endian, without leading zeros. */
  function Minimal(n: nat): seq<Byte> {
    if n == 0 then [] else Minimal(n / 256) + [n % 256]
  }

  /** The low k bytes of n, least significant first. */
  function LEBytes(n: nat, k: nat): (s: seq<Byte>)
    ensures |s| == k
  {
    if k == 0 then [] else [n % 256] + LEBytes(n / 256, k - 1)
  }

  /** The low k bytes of n, most significant first. */
  function BEBytes(n: nat, k: nat): (s: seq<Byte>)
    ensures |s| == k
  {
    if k == 0 then [] else BEBytes(n / 256, k - 1) + [n % 256]
  }

  function Zeros(k: nat): (s: seq<Byte>)
    ensures |s| == k
  {
    seq(k, i => 0)
  }

  function Reverse(s: seq<Byte>): (r: seq<Byte>)
    ensures |r| == |s|
  {
    seq(|s|, i requires 0 <= i < |s| => s[|s| - 1 - i])
  }

  lemma {:induction false} LEBounded(s: seq<Byte>)
    ensures LE(s) < Pow256(|s|)
  {
    if s != [] { LEBounded(s[1..]); }
  }

  lemma {:induction false} BEBounded(s: seq<Byte>)
    ensures BE(s) < Pow256(|s|)
  {
    if s != [] { BEBounded(s[..|s| - 1]); }
  }

  lemma {:induction false} Pow256Monotone(a: nat, b: nat)
    requires a <= b
    ensures Pow256(a) <= Pow256(b)
  {
    if a < b { Pow256Monotone(a, b - 1); }
  }

  lemma {:induction false} Pow256Add(a: nat, b: nat)
    ensures Pow256(a + b) == Pow256(a) * Pow256(b)
  {
    if a > 0 {
      Pow256Add(a - 1, b);
      assert 256 * (Pow256(a - 1) * Pow256(b)) == (256 * Pow256(a - 1)) * Pow256(b);
    }
  }

  /** Reading back k little-endian bytes loses exactly the part above 256^k. */
  lemma {:induction false} LEOfLEBytes(n: nat, k: nat)
    ensures LE(LEBytes(n, k)) == n % Pow256(k)
  {
    if k > 0 {
      LEOfLEBytes(n / 256, k - 1);
      assert LEBytes(n, k)[1..] == LEBytes(n / 256, k - 1);
      ModSplit(n, Pow256(k - 1));
    }
  }

  lemma ModSplit(n: int, b: int)
    requires n >= 0 && b > 0
    ensures n % (256 * b) == n % 256 + 256 * ((n / 256) % b)
  {
    var q, r := n / 256 / b, n / 256 % b;
    assert n / 256 == q * b + r;
    assert n == q * (256 * b) + (n % 256 + 256 * r);
    ModUnique(n, q, n % 256 + 256 * r, 256 * b);
  }

  lemma {:induction false} LEBytesOfLE(s: seq<Byte>)
    ensures LEBytes(LE(s), |s|) == s
  {
    if s != [] {
      LEBytesOfLE(s[1..]);
      assert LE(s) % 256 == s[0] && LE(s) / 256 == LE(s[1..]);
      assert s == [s[0]] + s[1..];
    }
  }

  lemma {:induction false} BEOfBEBytes(n: nat, k: nat)
    requires n < Pow256(k)
    ensures BE(BEBytes(n, k)) == n
  {
    if k > 0 {
      BEOfBEBytes(n / 256, k - 1);
      assert BEBytes(n, k)[..k - 1] == BEBytes(n / 256, k - 1);
    }
  }

  lemma {:induction false} BEBytesOfBE(s: seq<Byte>)
    ensures BEBytes(BE(s), |s|) == s
  {
    if s != [] {
      var t := s[..|s| - 1];
      BEBytesOfBE(t);
      assert BE(s) % 256 == s[|s| - 1] && BE(s) / 256 == BE(t);
      assert s == t + [s[|s| - 1]];
    }
  }

  lemma {:induction false} BEOfMinimal(n: nat)
    ensures BE(Minimal(n)) == n
  {
    if n > 0 {
      BEOfMinimal(n / 256);
      assert Minimal(n)[..|Minimal(n)| - 1] == Minimal(n / 256);
    }
  }

  /** Reading a reversed string little-endian is reading the string big-endian. */
  lemma {:induction false} LEOfReverse(s: seq<Byte>)
    ensures LE(Reverse(s)) == BE(s)
  {
    if s != [] {
      LEOfReverse(s[..|s| - 1]);
      assert Reverse(s)[1..] == Reverse(s[..|s| - 1]);
    }
  }

  lemma {:induction false} LEBytesOfZero(k: nat)
    ensures LEBytes(0, k) == Zeros(k)
  {
    if k > 0 {
      LEBytesOfZero(k - 1);
    }
  }

  /** Reversing the minimal bytes into a zeroed buffer of k bytes gives the k little-endian bytes. */
  lemma {:induction false} ReverseMinimal(n: nat, k: nat)
    requires n < Pow256(k)
    ensures |Minimal(n)| <= k
    ensures LEBytes(n, k) == Reverse(Minimal(n)) + Zeros(k - |Minimal(n)|)
  {
    if n == 0 {
      LEBytesOfZero(k);
    } else {
      ReverseMinimal(n / 256, k - 1);
      assert Reverse(Minimal(n)) == [n % 256] + Reverse(Minimal(n / 256));
    }
  }

  lemma {:induction false} BEBytesOfZero(k: nat)
    ensures BEBytes(0, k) == Zeros(k)
  {
    if k > 0 {
      BEBytesOfZero(k - 1);
    }
  }

  /** Right-aligning the minimal bytes in a zeroed buffer of k bytes gives the k big-endian bytes. */
  lemma {:induction false} PadMinimal(n: nat, k: nat)
    requires n < Pow256(k)
    ensures |Minimal(n)| <= k
    ensures BEBytes(n, k) == Zeros(k - |Minimal(n)|) + Minimal(n)
  {
    if n == 0 {
      BEBytesOfZero(k);
    } else {
      PadMinimal(n / 256, k - 1);
    }
  }

  /** The loop that copies src into dst backwards. */
  method ReverseInto(dst: array<Byte>, src: seq<Byte>)
    requires |src| <= dst.Length
    modifies dst
    ensures dst[..] == Reverse(src) + old(dst[|src|..])
  {
    for i := 0 to |src|
      invariant forall j :: 0 <= j < i ==> dst[j] == src[|src| - 1 - j]
      invariant forall j :: i <= j < dst.Length ==> dst[j] == old(dst[j])
    {
      dst[i] := src[|src| - 1 - i];
    }
    assert dst[..] == dst[..|src|] + dst[|src|..];
  }

  /** A fresh k-byte buffer filled with the little-endian bytes of n. */
  method LittleEndianBuffer(n: nat, k: nat) returns (buf: array<Byte>)
    requires n < Pow256(k)
    ensures fresh(buf) && buf[..] == LEBytes(n, k)
  {
    buf := new Byte[k](i => 0);
    ReverseMinimal(n, k);
    ReverseInto(buf, Minimal(n));
    assert buf[..] == LEBytes(n, k);
  }

  /** A fresh k-byte buffer with the bytes of n copied to its end. */
  method BigEndianBuffer(n: nat, k: nat) returns (buf: array<Byte>)
    requires n < Pow256(k)
    ensures fresh(buf) && buf[..] == BEBytes(n, k)
  {
    buf := new Byte[k](i => 0);
    PadMinimal(n, k);
    var bytes := Minimal(n);
    forall i | 0 <= i < |bytes| {
      buf[k - |bytes| + i] := bytes[i];
    }
    assert buf[..] == Zeros(k - |bytes|) + bytes;
  }
}
