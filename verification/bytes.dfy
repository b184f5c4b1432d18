/** Big-endian byte strings: the hash conversions the lending core relies on
    (`common.BytesToHash` at tomoxlending/tomoxlending.go:420 and the
    hash-to-`uint64` trading-id conversion at :495). */
module Bytes {
  import opened Types

  /** 256 to the power `n`; never zero, so the byte conversions can divide
      by it. */
  function Pow256(n: nat): (r: nat)
    ensures r >= 1
  {
    if n == 0 then 1 else 256 * Pow256(n - 1)
  }

  /** The unsigned value a big-endian byte string denotes. */
  function BigEndian(b: seq<byte>): nat {
    if |b| == 0 then 0 else BigEndian(b[..|b| - 1]) * 256 + b[|b| - 1] as nat
  }

  function Zeros(n: nat): (r: seq<byte>)
    ensures |r| == n && forall i :: 0 <= i < n ==> r[i] == 0
  {
    seq(n, _ => 0 as byte)
  }

  /** The `len`-byte big-endian encoding of `n` modulo 256^len. */
  function Encode(n: nat, len: nat): (r: seq<byte>)
    ensures |r| == len
  {
    if len == 0 then [] else Encode(n / 256, len - 1) + [(n % 256) as byte]
  }

  /** `common.BytesToHash`: the last 32 bytes, left-padded with zeros when
      the input is shorter. */
  function BytesToHash(b: seq<byte>): Hash {
    if |b| >= 32 then b[|b| - 32..] else Zeros(32 - |b|) + b
  }

  /** The hash a trading id is stored under: its 32-byte big-endian form,
      24 zero bytes followed by the 8 bytes of the id. */
  function U64ToHash(n: u64): Hash {
    Zeros(24) + Encode(n, 8)
  }

  /** `new(big.Int).SetBytes(h.Bytes()).Uint64()`: the low 64 bits of the
      hash, which are its last 8 bytes read big-endian. */
  function HashToU64(h: Hash): u64 {
    BigEndianBound(h[24..]);
    assert Pow256(8) == U64Modulus;
    BigEndian(h[24..])
  }

  lemma {:induction false} BigEndianBound(b: seq<byte>)
    ensures BigEndian(b) < Pow256(|b|)
    decreases |b|
  {
    if |b| > 0 {
      BigEndianBound(b[..|b| - 1]);
    }
  }

  /** Splitting off the last digit: n mod 256p is 256 (n/256 mod p) + n mod 256. */
  lemma ModSplit(n: nat, p: nat)
    requires p > 0
    ensures n % (256 * p) == (n / 256) % p * 256 + n % 256
  {
    var q, r := n / 256, n % 256;
    var a, b := q / p, q % p;
    assert n == 256 * p * a + (256 * b + r) by {
      assert n == 256 * q + r;
      assert q == p * a + b;
      assert 256 * q == 256 * p * a + 256 * b;
    }
    assert 0 <= 256 * b + r < 256 * p;
    LeastResidue(n, 256 * p, a, 256 * b + r);
  }

  lemma LeastResidue(n: nat, m: nat, a: nat, r: nat)
    requires m > 0 && n == m * a + r && r < m
    ensures n % m == r
  {
    var q, s := n / m, n % m;
    assert m * q + s == n;
    assert m * (q - a) == r - s by {
      assert m * (q - a) == m * q - m * a;
    }
    MultipleBound(q - a, m);
  }

  /** A non-zero multiple of `m` is at least `m` away from zero. */
  lemma MultipleBound(k: int, m: int)
    requires m > 0
    ensures k >= 1 ==> m * k >= m
    ensures k <= -1 ==> m * k <= -m
  {
    if k >= 1 {
      assert m * k == m + m * (k - 1);
      assert m * (k - 1) >= 0;
    } else if k <= -1 {
      assert m * k == -m + m * (k + 1);
      assert m * (-(k + 1)) >= 0;
    }
  }

  /** Encoding and decoding agree: `Encode(n, len)` denotes n mod 256^len. */
  lemma {:induction false} EncodeValue(n: nat, len: nat)
    ensures BigEndian(Encode(n, len)) == n % Pow256(len)
    decreases len
  {
    if len > 0 {
      var e := Encode(n, len);
      assert e[..len - 1] == Encode(n / 256, len - 1);
      EncodeValue(n / 256, len - 1);
      ModSplit(n, Pow256(len - 1));
    }
  }

  /** Decoding a byte string as a number and encoding it back at the same
      width gives the byte string. */
  lemma {:induction false} DecodeEncode(b: seq<byte>)
    ensures Encode(BigEndian(b), |b|) == b
    decreases |b|
  {
    if |b| > 0 {
      var init := b[..|b| - 1];
      var n := BigEndian(b);
      assert n / 256 == BigEndian(init) && n % 256 == b[|b| - 1] as nat;
      DecodeEncode(init);
    }
  }

  /** Leading zero bytes do not change the hash an input denotes. */
  lemma LeadingZerosIgnored(b: seq<byte>, k: nat)
    ensures BytesToHash(Zeros(k) + b) == BytesToHash(b)
  {
    var c := Zeros(k) + b;
    if |b| >= 32 {
      assert c[|c| - 32..] == b[|b| - 32..];
    } else if |c| >= 32 {
      assert c[|c| - 32..] == Zeros(32 - |b|) + b;
    } else {
      assert Zeros(32 - |c|) + c == Zeros(32 - |b|) + b;
    }
  }

  /** An input of at most 32 bytes ends the hash unchanged, after zeros. */
  lemma BytesToHashPads(b: seq<byte>)
    requires |b| <= 32
    ensures BytesToHash(b)[32 - |b|..] == b
    ensures forall i :: 0 <= i < 32 - |b| ==> BytesToHash(b)[i] == 0
  {
  }

  /** A 32-byte input is already a hash, so converting twice is converting once. */
  lemma BytesToHashIdempotent(b: seq<byte>)
    ensures BytesToHash(BytesToHash(b)) == BytesToHash(b)
  {
  }

  /** A trading id survives the round trip through its hash. */
  lemma TradingIdRoundTrip(n: u64)
    ensures HashToU64(U64ToHash(n)) == n
  {
    var h := U64ToHash(n);
    assert h[24..] == Encode(n, 8);
    EncodeValue(n, 8);
    assert Pow256(8) == U64Modulus;
  }

  /** Distinct trading ids are stored under distinct hashes. */
  lemma U64ToHashInjective(m: u64, n: u64)
    requires U64ToHash(m) == U64ToHash(n)
    ensures m == n
  {
    TradingIdRoundTrip(m);
    TradingIdRoundTrip(n);
  }
}
