/** Bytes and big-endian words (big.Int.FillBytes and SetBytes). */
module Bytes {
  import opened Arithmetic

  newtype byte = b: int | 0 <= b < 256

  type Word = w: seq<byte> | |w| == 32 witness seq(32, _ => 0 as byte)

  const WORD_SIZE: nat := 32

  const UINT256_LIMIT: nat := 0x1_0000000000000000_0000000000000000_0000000000000000_0000000000000000

  function Pow(b: nat, e: nat): nat {
    if e == 0 then 1 else b * Pow(b, e - 1)
  }

  /** SetBytes: the bytes read as a base-256 number, most significant first. */
  function FromBytes(s: seq<byte>): nat {
    if s == [] then 0 else 256 * FromBytes(s[..|s| - 1]) + s[|s| - 1] as nat
  }

  /** FillBytes: exactly `len` bytes, most significant first. */
  function FillBytes(n: nat, len: nat): (s: seq<byte>)
    ensures |s| == len
  {
    if len == 0 then [] else FillBytes(n / 256, len - 1) + [(n % 256) as byte]
  }

  lemma {:induction false} FillBytesValue(n: nat, len: nat)
    requires n < Pow(256, len)
    ensures FromBytes(FillBytes(n, len)) == n
  {
    if len > 0 {
      FillBytesValue(n / 256, len - 1);
      assert FillBytes(n, len)[..len - 1] == FillBytes(n / 256, len - 1);
    }
  }

  lemma {:induction false} FromBytesFill(s: seq<byte>)
    ensures FromBytes(s) < Pow(256, |s|)
    ensures FillBytes(FromBytes(s), |s|) == s
  {
    if s != [] {
      var init := s[..|s| - 1];
      FromBytesFill(init);
      assert FromBytes(s) / 256 == FromBytes(init);
      assert s == init + [s[|s| - 1]];
    }
  }

  lemma {:induction false} PowPositive(b: nat, e: nat)
    requires b > 0
    ensures Pow(b, e) > 0
  {
    if e > 0 { PowPositive(b, e - 1); }
  }

  /** The byte at each place, counted from the most significant. */
  lemma {:induction false} FillBytesAt(n: nat, len: nat, i: nat)
    requires i < len
    ensures Pow(256, len - 1 - i) > 0 && FillBytes(n, len)[i] as nat == n / Pow(256, len - 1 - i) % 256
  {
    PowPositive(256, len - 1 - i);
    if i < len - 1 {
      FillBytesAt(n / 256, len - 1, i);
      DivDiv(n, 256, Pow(256, len - 2 - i));
    }
  }

  lemma {:induction false} FromBytesConcat(a: seq<byte>, b: seq<byte>)
    ensures FromBytes(a + b) == FromBytes(a) * Pow(256, |b|) + FromBytes(b)
  {
    var s := a + b;
    if b == [] {
      assert s == a;
    } else {
      var init := b[..|b| - 1];
      FromBytesConcat(a, init);
      assert s[..|s| - 1] == a + init && s[|s| - 1] == b[|b| - 1];
      ShiftLeft(256, FromBytes(a), Pow(256, |init|));
    }
  }

  lemma OneByte(b: byte)
    ensures FromBytes([b]) == b as nat
  {
    assert [b][..0] == [];
  }

  lemma {:induction false} FillBytesZero(len: nat)
    ensures FillBytes(0, len) == seq(len, _ => 0 as byte)
  {
    if len > 0 { FillBytesZero(len - 1); }
  }

  lemma WordLimit()
    ensures Pow(256, 32) == UINT256_LIMIT
  {
    assert Pow(256, 4) == 0x1_0000_0000;
    PowAdd(256, 4, 4);
    PowAdd(256, 8, 8);
    PowAdd(256, 16, 16);
  }

  lemma {:induction false} PowAdd(b: nat, m: nat, n: nat)
    ensures Pow(b, m + n) == Pow(b, m) * Pow(b, n)
  {
    if m > 0 {
      PowAdd(b, m - 1, n);
      assert Pow(b, m + n) == b * Pow(b, m - 1 + n);
      Associate(b, Pow(b, m - 1), Pow(b, n));
    }
  }

  /** A uint256 as the 32-byte word of the contract ABI. */
  function ToWord(n: nat): Word {
    FillBytes(n, WORD_SIZE)
  }

  /** Encoding a uint256 as a word loses nothing, in either direction. */
  lemma WordRoundTrip(n: nat, w: Word)
    ensures n < UINT256_LIMIT ==> FromBytes(ToWord(n)) == n
    ensures FromBytes(w) < UINT256_LIMIT && ToWord(FromBytes(w)) == w
  {
    WordLimit();
    if n < UINT256_LIMIT { FillBytesValue(n, 32); }
    FromBytesFill(w);
  }
}
