/** The parts of the contract ABI encoding the client packs: `uint256[]`, `(uint256, bytes)` and `bytes`. */
module ContractAbi {
  import opened Wrappers
  import opened Bytes

  function Zeros(n: nat): (s: seq<byte>)
    ensures |s| == n
  {
    seq(n, _ => 0 as byte)
  }

  /** Dynamic bytes: the length, then the content padded on the right to whole words. */
  function EncodeBytesTail(b: seq<byte>): seq<byte> {
    ToWord(|b|) + b + Zeros((WORD_SIZE - |b| % WORD_SIZE) % WORD_SIZE)
  }

  function EncodeWords(xs: seq<nat>): (s: seq<byte>)
    ensures |s| == WORD_SIZE * |xs|
  {
    if xs == [] then [] else ToWord(xs[0]) + EncodeWords(xs[1..])
  }

  /** Arguments (uint256[]): the offset of the array, its length, its elements. */
  function EncodeUintArray(xs: seq<nat>): (s: seq<byte>)
    ensures |s| == 2 * WORD_SIZE + WORD_SIZE * |xs|
  {
    ToWord(WORD_SIZE) + ToWord(|xs|) + EncodeWords(xs)
  }

  /** Arguments (uint256, bytes). */
  function EncodeUintAndBytes(n: nat, b: seq<byte>): seq<byte> {
    ToWord(n) + ToWord(2 * WORD_SIZE) + EncodeBytesTail(b)
  }

  /** Arguments (bytes). */
  function EncodeSingleBytes(b: seq<byte>): seq<byte> {
    ToWord(WORD_SIZE) + EncodeBytesTail(b)
  }

  ghost predicate AllUint256(xs: seq<nat>) {
    forall i :: 0 <= i < |xs| ==> xs[i] < UINT256_LIMIT
  }

  // ----- reading, by the offsets in the head -----

  /** The word at a byte position. */
  function WordAt(data: seq<byte>, pos: nat): Option<nat> {
    if pos + WORD_SIZE <= |data| then Some(FromBytes(data[pos..pos + WORD_SIZE])) else None
  }

  /** The dynamic bytes argument whose offset is in the head word at `head`. */
  function ReadBytes(data: seq<byte>, head: nat): Option<seq<byte>> {
    var offset := WordAt(data, head);
    if offset.None? then None
    else
      var len := WordAt(data, offset.value);
      if len.None? then None
      else
        var start := offset.value + WORD_SIZE;
        if start + len.value <= |data| then Some(data[start..start + len.value]) else None
  }

  function ReadWords(data: seq<byte>, pos: nat, count: nat): Option<seq<nat>>
    decreases count
  {
    if count == 0 then Some([])
    else
      var first, rest := WordAt(data, pos), ReadWords(data, pos + WORD_SIZE, count - 1);
      if first.None? || rest.None? then None else Some([first.value] + rest.value)
  }

  /** The dynamic array of words whose offset is in the head word at `head`. */
  function ReadUintArray(data: seq<byte>, head: nat): Option<seq<nat>> {
    var offset := WordAt(data, head);
    if offset.None? then None
    else
      var count := WordAt(data, offset.value);
      if count.None? then None else ReadWords(data, offset.value + WORD_SIZE, count.value)
  }

  lemma WordIsThere(before: seq<byte>, n: nat, after: seq<byte>)
    requires n < UINT256_LIMIT
    ensures WordAt(before + ToWord(n) + after, |before|) == Some(n)
  {
    hide FillBytes, FromBytes;
    var data := before + ToWord(n) + after;
    assert data[|before|..|before| + WORD_SIZE] == ToWord(n);
    WordRoundTrip(n, ToWord(n));
  }

  /** Content is padded with zeros to whole words. */
  lemma TailShape(b: seq<byte>)
    ensures var tail := EncodeBytesTail(b);
      && |tail| % WORD_SIZE == 0 && WORD_SIZE + |b| <= |tail| < 2 * WORD_SIZE + |b|
      && forall i :: WORD_SIZE + |b| <= i < |tail| ==> tail[i] == 0
  {
    hide ToWord;
  }

  lemma TailIsRead(before: seq<byte>, b: seq<byte>)
    requires |b| < UINT256_LIMIT
    ensures var data := before + EncodeBytesTail(b);
      && WordAt(data, |before|) == Some(|b|)
      && |before| + WORD_SIZE + |b| <= |data|
      && data[|before| + WORD_SIZE..|before| + WORD_SIZE + |b|] == b
  {
    hide ToWord, WordAt;
    var pad := Zeros((WORD_SIZE - |b| % WORD_SIZE) % WORD_SIZE);
    var data := before + EncodeBytesTail(b);
    assert data == before + ToWord(|b|) + (b + pad);
    WordIsThere(before, |b|, b + pad);
  }

  /** Both arguments of (uint256, bytes) are read back. */
  lemma UintAndBytesRoundTrip(n: nat, b: seq<byte>)
    requires n < UINT256_LIMIT && |b| < UINT256_LIMIT
    ensures WordAt(EncodeUintAndBytes(n, b), 0) == Some(n)
    ensures ReadBytes(EncodeUintAndBytes(n, b), WORD_SIZE) == Some(b)
  {
    hide ToWord, WordAt, EncodeBytesTail;
    var data, head := EncodeUintAndBytes(n, b), ToWord(n) + ToWord(2 * WORD_SIZE);
    assert data == [] + ToWord(n) + (ToWord(2 * WORD_SIZE) + EncodeBytesTail(b));
    WordIsThere([], n, ToWord(2 * WORD_SIZE) + EncodeBytesTail(b));
    WordIsThere(ToWord(n), 2 * WORD_SIZE, EncodeBytesTail(b));
    TailIsRead(head, b);
  }

  lemma UintAndBytesSize(n: nat, b: seq<byte>)
    ensures |b| % WORD_SIZE == 0 ==> |EncodeUintAndBytes(n, b)| == 3 * WORD_SIZE + |b|
  {
    hide ToWord;
  }

  /** The argument of (bytes) is read back. */
  lemma SingleBytesRoundTrip(b: seq<byte>)
    requires |b| < UINT256_LIMIT
    ensures ReadBytes(EncodeSingleBytes(b), 0) == Some(b)
  {
    hide ToWord, WordAt, EncodeBytesTail;
    assert EncodeSingleBytes(b) == [] + ToWord(WORD_SIZE) + EncodeBytesTail(b);
    WordIsThere([], WORD_SIZE, EncodeBytesTail(b));
    TailIsRead(ToWord(WORD_SIZE), b);
  }

  lemma {:induction false} WordsAreRead(before: seq<byte>, xs: seq<nat>)
    requires AllUint256(xs)
    ensures ReadWords(before + EncodeWords(xs), |before|, |xs|) == Some(xs)
    decreases xs
  {
    hide ToWord, WordAt;
    if xs != [] {
      var next := before + ToWord(xs[0]);
      assert before + EncodeWords(xs) == next + EncodeWords(xs[1..]);
      WordIsThere(before, xs[0], EncodeWords(xs[1..]));
      WordsAreRead(next, xs[1..]);
      assert xs == [xs[0]] + xs[1..];
    }
  }

  /** The argument of (uint256[]) is read back. */
  lemma UintArrayRoundTrip(xs: seq<nat>)
    requires AllUint256(xs) && |xs| < UINT256_LIMIT
    ensures ReadUintArray(EncodeUintArray(xs), 0) == Some(xs)
  {
    hide ToWord, WordAt, EncodeWords;
    var data, head := EncodeUintArray(xs), ToWord(WORD_SIZE) + ToWord(|xs|);
    assert data == [] + ToWord(WORD_SIZE) + (ToWord(|xs|) + EncodeWords(xs));
    WordIsThere([], WORD_SIZE, ToWord(|xs|) + EncodeWords(xs));
    WordIsThere(ToWord(WORD_SIZE), |xs|, EncodeWords(xs));
    WordsAreRead(head, xs);
  }

  // ----- what the encodings determine -----

  lemma {:induction false} WordsInjective(xs: seq<nat>, ys: seq<nat>)
    requires AllUint256(xs) && AllUint256(ys) && EncodeWords(xs) == EncodeWords(ys)
    ensures xs == ys
  {
    assert |xs| == |ys|;
    WordsAreRead([], xs);
    WordsAreRead([], ys);
    assert [] + EncodeWords(xs) == [] + EncodeWords(ys);
  }

  /** The content of a dynamic bytes argument can be read back from its encoding. */
  lemma BytesTailInjective(b: seq<byte>, b': seq<byte>)
    requires |b| < UINT256_LIMIT && |b'| < UINT256_LIMIT && EncodeBytesTail(b) == EncodeBytesTail(b')
    ensures b == b'
  {
    hide EncodeBytesTail;
    TailIsRead([], b);
    TailIsRead([], b');
    assert [] + EncodeBytesTail(b) == [] + EncodeBytesTail(b');
  }

  /** Different tuples (n, array) have different encodings of (n, encoding of the array). */
  lemma NestedEncodingInjective(n: nat, xs: seq<nat>, n': nat, ys: seq<nat>)
    requires n < UINT256_LIMIT && n' < UINT256_LIMIT && AllUint256(xs) && AllUint256(ys)
    requires |EncodeUintArray(xs)| < UINT256_LIMIT && |EncodeUintArray(ys)| < UINT256_LIMIT
    requires EncodeUintAndBytes(n, EncodeUintArray(xs)) == EncodeUintAndBytes(n', EncodeUintArray(ys))
    ensures n == n' && xs == ys
  {
    hide EncodeUintAndBytes, EncodeUintArray, ReadUintArray;
    UintAndBytesRoundTrip(n, EncodeUintArray(xs));
    UintAndBytesRoundTrip(n', EncodeUintArray(ys));
    UintArrayRoundTrip(xs);
    UintArrayRoundTrip(ys);
  }
}
