/**
 Aggregation of Safe transactions: one transaction passes through, several become one delegate call to
 the MultiSend contract, whose decoder is defined here independently of the encoder.
 */
module SafeMultiSend {
  import opened Wrappers
  import opened Bytes
  import opened Text
  import opened ContractAbi

  /** A transaction as the caller writes it. */
  datatype SafeTransaction = SafeTransaction(to: string, operation: byte, data: string, value: string)

  /** What a transaction asks the Safe to do. */
  datatype Call = Call(operation: byte, to: seq<byte>, value: nat, data: seq<byte>)

  const OPERATION_DELEGATE_CALL: byte := 1
  const SELECTOR: seq<byte> := [0x8d, 0x80, 0xff, 0x0a]
  const POLYGON: int := 137
  const SAFE_MULTISEND_POLYGON: Address :=
    [0xA2, 0x38, 0xCB, 0xeb, 0x14, 0x2c, 0x10, 0xEf, 0x7A, 0xd8,
     0x44, 0x2C, 0x6D, 0x1f, 0x9E, 0x89, 0xe0, 0x7e, 0x77, 0x61]

  // ----- reading a transaction -----

  function NormalizeHex(value: string): string {
    var v := TrimSpace(value);
    if v == "" then "0x" else if HasHexPrefix(v) then v else "0x" + v
  }

  function ParseSafeUint256(value: string): (r: Option<nat>)
    ensures r.Some? ==> r.value < UINT256_LIMIT
  {
    var n := ParseInt10(TrimSpace(value));
    if n.None? || n.value < 0 || n.value >= UINT256_LIMIT then None else Some(n.value)
  }

  /** The value of a transaction; blank means zero. */
  function ValueOf(value: string): Option<nat> {
    ParseSafeUint256(if TrimSpace(value) == "" then "0" else value)
  }

  /** The call a transaction stands for, None when it is malformed. */
  function Denote(tx: SafeTransaction): Option<Call> {
    var data := HexutilDecode(NormalizeHex(tx.data));
    var value := ValueOf(tx.value);
    if !IsHexAddress(tx.to) || data.None? || value.None? then None
    else Some(Call(tx.operation, AddressBytes(tx.to), value.value, data.value))
  }

  predicate IsWellFormed(tx: SafeTransaction) {
    Denote(tx).Some?
  }

  /** Every transaction of the list is well formed. */
  predicate AllDenote(txs: seq<SafeTransaction>) {
    txs == [] || (AllDenote(txs[..|txs| - 1]) && IsWellFormed(txs[|txs| - 1]))
  }

  lemma {:induction false} AllDenoteEach(txs: seq<SafeTransaction>, i: nat)
    requires AllDenote(txs) && i < |txs|
    ensures IsWellFormed(txs[i])
  {
    if i < |txs| - 1 { AllDenoteEach(txs[..|txs| - 1], i); }
  }

  function Calls(txs: seq<SafeTransaction>): seq<Call> {
    if txs == [] then []
    else
      var call := Denote(txs[|txs| - 1]);
      Calls(txs[..|txs| - 1]) + if call.Some? then [call.value] else []
  }

  /** A value is read with blanks around it, and refused from 2^256 on; blank text is zero. */
  lemma ValueIsRead(n: nat, left: string, right: string)
    requires AllBlank(left) && AllBlank(right)
    ensures ValueOf(left + NatToString(n) + right) == if n < UINT256_LIMIT then Some(n) else None
    ensures ValueOf(left) == Some(0)
  {
    hide NatToString, TrimSpace, ParseInt10, AllBlank;
    ParsePrinted(n);
    PrintedHasNoBlank(n);
    TrimSpaceMeaning(left, NatToString(n), right);
    TrimBlank(left);
    PrintedHasNoBlank(0);
    ParsePrinted(0);
    assert NatToString(0) == "0" by { DigitsInOrder(0); }
  }

  /** What a transaction is read as: its own operation, and the bytes whose hex it spells in any case. */
  lemma DenoteMeaning(tx: SafeTransaction)
    requires Denote(tx).Some?
    ensures var call := Denote(tx).value;
      && call.operation == tx.operation
      && HexEncode(call.to) == ToLower(StripHexPrefix(tx.to))
      && HexEncode(call.data) == ToLower(StripHexPrefix(NormalizeHex(tx.data)))
      && ValueOf(tx.value) == Some(call.value)
  {
    hide NormalizeHex, ValueOf, HexDecode, HexEncode;
    HexDecodeMeaning(StripHexPrefix(tx.to));
    HexDecodeMeaning(StripHexPrefix(NormalizeHex(tx.data)));
  }

  // ----- the packed encoding and the contract's decoder -----

  function Record(c: Call): seq<byte> {
    [c.operation] + c.to + ToWord(c.value) + ToWord(|c.data|) + c.data
  }

  function EncodeCalls(calls: seq<Call>): seq<byte> {
    if calls == [] then [] else EncodeCalls(calls[..|calls| - 1]) + Record(calls[|calls| - 1])
  }

  const HEADER: nat := 85

  /** operation (1 byte), address (20), value (32), data length (32), data. */
  lemma RecordLayout(c: Call)
    requires Packable(c)
    ensures var r := Record(c);
      && |r| == 85 + |c.data|
      && r[0] == c.operation && r[1..21] == c.to
      && FromBytes(r[21..53]) == c.value && FromBytes(r[53..85]) == |c.data|
      && r[85..] == c.data
  {
    WordRoundTrip(c.value, ToWord(c.value));
    WordRoundTrip(|c.data|, ToWord(|c.data|));
    var r := Record(c);
    assert r[21..53] == ToWord(c.value) && r[53..85] == ToWord(|c.data|);
  }

  /** multiSend's loop: operation, address, value, length, data, until the bytes are used up. */
  function DecodeCalls(b: seq<byte>): Option<seq<Call>>
    decreases |b|
  {
    if b == [] then Some([])
    else if |b| < HEADER then None
    else
      var len := FromBytes(b[53..HEADER]);
      if |b| < HEADER + len then None
      else
        var rest := DecodeCalls(b[HEADER + len..]);
        if rest.None? then None
        else Some([Call(b[0], b[1..21], FromBytes(b[21..53]), b[HEADER..HEADER + len])] + rest.value)
  }

  /** The contract's view of its call data: the selector, then the bytes argument. */
  function DecodeMultiSend(data: seq<byte>): Option<seq<Call>> {
    if |data| < 4 || data[..4] != SELECTOR then None
    else
      var packed := ReadBytes(data[4..], 0);
      if packed.None? then None else DecodeCalls(packed.value)
  }

  ghost predicate Packable(c: Call) {
    |c.to| == 20 && c.value < UINT256_LIMIT && |c.data| < UINT256_LIMIT
  }

  /** Decoding starts with the first record, whatever follows it. */
  lemma DecodeRecord(c: Call, rest: seq<byte>)
    requires Packable(c)
    ensures DecodeCalls(Record(c) + rest) ==
            if DecodeCalls(rest).None? then None else Some([c] + DecodeCalls(rest).value)
  {
    var b := Record(c) + rest;
    WordRoundTrip(c.value, ToWord(c.value));
    WordRoundTrip(|c.data|, ToWord(|c.data|));
    assert b[0] == c.operation && b[1..21] == c.to;
    assert b[21..53] == ToWord(c.value) && b[53..HEADER] == ToWord(|c.data|);
    assert b[HEADER..HEADER + |c.data|] == c.data && b[HEADER + |c.data|..] == rest;
  }

  lemma {:induction false} EncodeFirst(c: Call, calls: seq<Call>)
    ensures EncodeCalls([c] + calls) == Record(c) + EncodeCalls(calls)
  {
    hide Record;
    var all := [c] + calls;
    if calls == [] {
      assert all == [c] && all[..0] == [];
    } else {
      EncodeFirst(c, calls[..|calls| - 1]);
      assert all[..|all| - 1] == [c] + calls[..|calls| - 1];
    }
  }

  /** The packed bytes of any list decode to exactly that list. */
  lemma {:induction false} CallsRoundTrip(calls: seq<Call>)
    requires forall i :: 0 <= i < |calls| ==> Packable(calls[i])
    ensures DecodeCalls(EncodeCalls(calls)) == Some(calls)
  {
    if calls != [] {
      assert calls == [calls[0]] + calls[1..];
      CallsRoundTrip(calls[1..]);
      EncodeFirst(calls[0], calls[1..]);
      DecodeRecord(calls[0], EncodeCalls(calls[1..]));
    }
  }

  function MultiSendData(packed: seq<byte>): seq<byte> {
    SELECTOR + EncodeSingleBytes(packed)
  }

  lemma SelectorStripped(packed: seq<byte>)
    ensures MultiSendData(packed)[..4] == SELECTOR && MultiSendData(packed)[4..] == EncodeSingleBytes(packed)
  {
  }

  /** The contract reads back the packed bytes from the call data. */
  lemma MultiSendDataRoundTrip(packed: seq<byte>)
    requires |packed| < UINT256_LIMIT
    ensures DecodeMultiSend(MultiSendData(packed)) == DecodeCalls(packed)
  {
    hide EncodeSingleBytes, ReadBytes, DecodeCalls;
    SelectorStripped(packed);
    SingleBytesRoundTrip(packed);
  }

  // ----- aggregation -----

  ghost function MultiSendTransaction(multisend: Address, txs: seq<SafeTransaction>,
                                      hex: Address -> string): SafeTransaction
  {
    SafeTransaction(hex(multisend), OPERATION_DELEGATE_CALL,
                    HexutilEncode(MultiSendData(EncodeCalls(Calls(txs)))), "0")
  }

  /** One more record appended by the loop. */
  lemma OneMoreRecord(txs: seq<SafeTransaction>, i: nat)
    requires i < |txs| && IsWellFormed(txs[i])
    ensures EncodeCalls(Calls(txs[..i + 1])) == EncodeCalls(Calls(txs[..i])) + Record(Denote(txs[i]).value)
  {
    var calls, call := Calls(txs[..i]), Denote(txs[i]).value;
    assert txs[..i + 1][..i] == txs[..i];
    assert (calls + [call])[..|calls|] == calls;
  }

  /** One iteration of the encoding loop. */
  method EncodeTransaction(tx: SafeTransaction) returns (r: Result<seq<byte>, string>)
    ensures r.Ok? <==> IsWellFormed(tx)
    ensures r.Ok? ==> r.value == Record(Denote(tx).value)
  {
    if !IsHexAddress(tx.to) {
      return Err("safe tx to must be a valid address");
    }
    var data := HexutilDecode(NormalizeHex(tx.data));
    if data.None? {
      return Err("decode safe tx data");
    }
    var value := ValueOf(tx.value);
    if value.None? {
      return Err("value must be a uint256 decimal");
    }
    var encoded := [tx.operation];
    encoded := encoded + AddressBytes(tx.to);
    encoded := encoded + ToWord(value.value);
    encoded := encoded + ToWord(|data.value|);
    encoded := encoded + data.value;
    return Ok(encoded);
  }

  /** The encoding loop: the packed records, if every transaction is well formed. */
  method EncodeTransactions(txs: seq<SafeTransaction>) returns (r: Result<seq<byte>, string>)
    ensures r.Ok? <==> AllDenote(txs)
    ensures r.Ok? ==> r.value == EncodeCalls(Calls(txs))
  {
    hide Denote, Record;
    var encodedTxs: seq<byte> := [];
    var i := 0;
    while i < |txs|
      invariant i <= |txs|
      invariant AllDenote(txs[..i])
      invariant encodedTxs == EncodeCalls(Calls(txs[..i]))
    {
      var encoded := EncodeTransaction(txs[i]);
      if encoded.Err? {
        if AllDenote(txs) { AllDenoteEach(txs, i); }
        return Err(encoded.error);
      }
      assert txs[..i + 1][..i] == txs[..i];
      OneMoreRecord(txs, i);
      encodedTxs := encodedTxs + encoded.value;
      i := i + 1;
    }
    assert txs[..i] == txs;
    return Ok(encodedTxs);
  }

  /** CreateSafeMultiSendTransaction: succeeds exactly when every transaction is well formed. */
  method CreateSafeMultiSendTransaction(txs: seq<SafeTransaction>, multisend: Address, hex: Address -> string)
    returns (r: Result<SafeTransaction, string>)
    ensures r.Ok? <==> txs != [] && AllDenote(txs)
    ensures r.Ok? ==> r.value == MultiSendTransaction(multisend, txs, hex)
  {
    if |txs| == 0 {
      return Err("no safe transactions");
    }
    var encodedTxs := EncodeTransactions(txs);
    if encodedTxs.Err? {
      return Err(encodedTxs.error);
    }
    return Ok(SafeTransaction(hex(multisend), OPERATION_DELEGATE_CALL,
                              HexutilEncode(MultiSendData(encodedTxs.value)), "0"));
  }

  /** The batch is a delegate call (operation 1) of value 0 to MultiSend, with the selector of multiSend(bytes). */
  lemma BatchShape(multisend: Address, txs: seq<SafeTransaction>, hex: Address -> string)
    ensures var tx := MultiSendTransaction(multisend, txs, hex);
      && tx.to == hex(multisend) && tx.operation == 1 && tx.value == "0"
      && HexutilDecode(tx.data).Some?
      && HexutilDecode(tx.data).value[..4] == [0x8d, 0x80, 0xff, 0x0a]
  {
    var data := MultiSendData(EncodeCalls(Calls(txs)));
    SelectorStripped(EncodeCalls(Calls(txs)));
    HexutilRoundTrip(data);
  }

  /** The single-transaction path: defaults filled in, spelling normalised. */
  function PassThrough(tx: SafeTransaction, hex: Address -> string): SafeTransaction
    requires IsHexAddress(tx.to)
  {
    SafeTransaction(hex(AddressBytes(tx.to)), tx.operation,
                    NormalizeHex(if tx.data == "" then "0x" else tx.data),
                    if tx.value == "" then "0" else tx.value)
  }

  /** The transaction a list is aggregated to, when it can be. */
  ghost function Aggregated(txs: seq<SafeTransaction>, hex: Address -> string): Option<SafeTransaction> {
    if |txs| == 1 then
      if IsHexAddress(txs[0].to) then Some(PassThrough(txs[0], hex)) else None
    else if txs != [] && AllDenote(txs) then Some(MultiSendTransaction(SAFE_MULTISEND_POLYGON, txs, hex))
    else None
  }

  /** aggregateSafeTransactions: only lists of two or more need the chain's MultiSend contract. */
  method AggregateSafeTransactions(txs: seq<SafeTransaction>, chainID: int, hex: Address -> string)
    returns (r: Result<SafeTransaction, string>)
    ensures r.Ok? <==> Aggregated(txs, hex).Some? && (|txs| > 1 ==> chainID == POLYGON)
    ensures r.Ok? ==> Aggregated(txs, hex) == Some(r.value)
  {
    if |txs| == 0 {
      return Err("no safe transactions");
    }
    if |txs| == 1 {
      if !IsHexAddress(txs[0].to) {
        return Err("safe tx to must be a valid address");
      }
      return Ok(PassThrough(txs[0], hex));
    }
    if chainID != POLYGON {
      return Err("unsupported chain id");
    }
    r := CreateSafeMultiSendTransaction(txs, SAFE_MULTISEND_POLYGON, hex);
  }

  // ----- meaning -----

  /** Executing calls in order, for any way of executing one. */
  ghost function Execute<S>(exec: (S, Call) -> S, s: S, calls: seq<Call>): S {
    if calls == [] then s else exec(Execute(exec, s, calls[..|calls| - 1]), calls[|calls| - 1])
  }

  /** The MultiSend contract executes, in order, the calls it decodes from its call data. */
  ghost predicate MultiSendExecutesInOrder<S(!new)>(exec: (S, Call) -> S, multisend: seq<byte>) {
    forall s: S, data :: DecodeMultiSend(data).Some? ==>
      exec(s, Call(OPERATION_DELEGATE_CALL, multisend, 0, data)) == Execute(exec, s, DecodeMultiSend(data).value)
  }

  lemma NormalizeHexFixed(s: string)
    requires HasHexPrefix(s) && !IsSpace(s[|s| - 1])
    ensures NormalizeHex(s) == s
  {
    TrimSpaceFixed(s);
  }

  lemma HexutilEncodeNoSpace(b: seq<byte>)
    ensures HasHexPrefix(HexutilEncode(b)) && !IsSpace(HexutilEncode(b)[|HexutilEncode(b)| - 1])
  {
    HexRoundTrip(b);
    var s := HexutilEncode(b);
    if b != [] { assert s[|s| - 1] == HexEncode(b)[|HexEncode(b)| - 1]; }
  }

  /** The aggregate denotes a delegate call to MultiSend with value 0 and the encoded list. */
  lemma MultiSendDenotes(multisend: Address, data: seq<byte>, hex: Address -> string)
    requires PrintsAddresses(hex)
    ensures Denote(SafeTransaction(hex(multisend), OPERATION_DELEGATE_CALL, HexutilEncode(data), "0"))
         == Some(Call(OPERATION_DELEGATE_CALL, multisend, 0, data))
  {
    HexutilEncodeNoSpace(data);
    NormalizeHexFixed(HexutilEncode(data));
    HexutilRoundTrip(data);
    TrimSpaceFixed("0");
    assert DigitsValue("0") == 0;
  }

  lemma NormalizeHexIdempotent(value: string)
    ensures NormalizeHex(NormalizeHex(value)) == NormalizeHex(value)
  {
    var v, t := NormalizeHex(value), TrimSpace(value);
    if t == "" {
      NormalizeHexFixed("0x");
    } else {
      assert v[|v| - 1] == t[|t| - 1];
      NormalizeHexFixed(v);
    }
  }

  /** The single-transaction path changes the spelling of a transaction, not its meaning. */
  lemma PassThroughKeepsMeaning(tx: SafeTransaction, hex: Address -> string)
    requires Denote(tx).Some? && PrintsAddresses(hex)
    ensures Denote(PassThrough(tx, hex)) == Denote(tx)
  {
    hide HexDecode, ParseInt10;
    NormalizeHexIdempotent(tx.data);
    assert NormalizeHex("0x") == "0x" by { NormalizeHexFixed("0x"); }
    TrimSpaceFixed("0");
  }

  /** A well-formed transaction whose data length fits a word. */
  ghost predicate PackableTx(tx: SafeTransaction) {
    Denote(tx).Some? && |Denote(tx).value.data| < UINT256_LIMIT
  }

  lemma PackableTxIsPackable(tx: SafeTransaction)
    requires PackableTx(tx)
    ensures Packable(Denote(tx).value)
  {
  }

  lemma {:induction false} CallsPackable(txs: seq<SafeTransaction>)
    requires forall i :: 0 <= i < |txs| ==> PackableTx(txs[i])
    ensures |Calls(txs)| == |txs| && forall i :: 0 <= i < |txs| ==> Packable(Calls(txs)[i])
  {
    if txs != [] {
      CallsPackable(txs[..|txs| - 1]);
      PackableTxIsPackable(txs[|txs| - 1]);
    }
  }

  /**
   Executing the aggregated transaction means executing the input list in order: for every list, on the
   one-transaction path and on the MultiSend path, and for every way of executing a single call.
   */
  lemma AggregateMeansSequence<S(!new)>(txs: seq<SafeTransaction>, tx: SafeTransaction, hex: Address -> string,
                                        exec: (S, Call) -> S, s: S)
    requires txs != [] && forall i :: 0 <= i < |txs| ==> PackableTx(txs[i])
    requires Aggregated(txs, hex) == Some(tx) && PrintsAddresses(hex)
    requires MultiSendExecutesInOrder(exec, SAFE_MULTISEND_POLYGON)
    requires |EncodeCalls(Calls(txs))| < UINT256_LIMIT
    ensures Denote(tx).Some? && exec(s, Denote(tx).value) == Execute(exec, s, Calls(txs))
  {
    CallsPackable(txs);
    if |txs| == 1 {
      PassThroughKeepsMeaning(txs[0], hex);
      assert Calls(txs) == [Denote(txs[0]).value];
    } else {
      var packed := EncodeCalls(Calls(txs));
      MultiSendDenotes(SAFE_MULTISEND_POLYGON, MultiSendData(packed), hex);
      MultiSendDataRoundTrip(packed);
      CallsRoundTrip(Calls(txs));
    }
  }

  // ----- signatures -----

  /** packSafeSignature: r and s as they are, v moved to the Safe's 31/32 range. */
  method PackSafeSignature(sig: seq<byte>) returns (r: Result<string, string>)
    ensures r.Ok? <==> |sig| == 65 && sig[64] in {0, 1, 27, 28}
    ensures r.Ok? ==>
      HexutilDecode(r.value) == Some(sig[..64] + [if sig[64] == 0 || sig[64] == 27 then 31 else 32])
  {
    if |sig| != 65 {
      return Err("invalid signature length");
    }
    var v := sig[64];
    if v == 0 || v == 1 {
      v := v + 31;
    } else if v == 27 || v == 28 {
      v := v + 4;
    } else {
      return Err("invalid signature v");
    }
    WordRoundTrip(0, sig[..32]);
    WordRoundTrip(0, sig[32..64]);
    var out := ToWord(FromBytes(sig[..32]));
    out := out + ToWord(FromBytes(sig[32..64]));
    out := out + [v];
    assert out == sig[..64] + [v];
    HexutilRoundTrip(out);
    return Ok(HexutilEncode(out));
  }
}
