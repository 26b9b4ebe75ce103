/**
 Signing an order: missing fields are filled in place, every other field is checked, and only then is
 the order signed. BuildOrder and BuildMarketOrder put the amounts and this gate together.
 */
module OrderSigning {
  import opened Wrappers
  import opened Bytes
  import opened Text
  import opened Rationals
  import opened OrderAmounts
  import opened OrderValidation
  import opened SignatureTypes

  /** The configured salt, the one the generator would give (None when it fails), and the clock. */
  datatype Config = Config(salt: Option<int>, generated: Option<int>, nowMillis: int, hex: Address -> string)

  datatype Fields = Fields(salt: int, maker: string, signer: string, tokenID: string, makerAmount: string,
                           takerAmount: string, expiration: string, side: Side, signatureType: int,
                           timestamp: string, metadata: string, builder: string, signature: string)

  const TWO64: int := 0x1_0000_0000_0000_0000
  const TWO63: int := 0x8000_0000_0000_0000

  /** big.Int.Int64: the low 64 bits of the magnitude as a signed integer, with the sign. */
  function Int64(n: int): int {
    var low: int := Abs(n) % TWO64;
    var signed := if low >= TWO63 then low - TWO64 else low;
    if n < 0 && signed != -TWO63 then -signed else signed
  }

  lemma Int64Fits(n: int)
    ensures -TWO63 <= Int64(n) < TWO63
    ensures -TWO63 <= n < TWO63 ==> Int64(n) == n
  {
  }

  // ----- the gate -----

  predicate SaltOk(salt: int, c: Config) {
    if salt == 0 then c.salt.Some? || c.generated.Some? else salt > 0
  }

  function SaltOf(salt: int, c: Config): int {
    if salt != 0 then salt
    else if c.salt.Some? then Int64(c.salt.value)
    else if c.generated.Some? then Int64(c.generated.value)
    else 0
  }

  /** The checks both kinds of orders share. */
  ghost predicate CommonGate(f: Fields, c: Config) {
    && ValidBytes32(f.metadata) && ValidBytes32(f.builder)
    && ValidUint256(f.tokenID, true, false)
    && ValidUint256(f.makerAmount, true, true) && ValidUint256(f.takerAmount, true, true)
    && !f.side.Other?
    && SaltOk(f.salt, c)
    && (f.timestamp == "" || ValidUint256(f.timestamp, true, true))
  }

  function FillCommon(f: Fields, c: Config): Fields {
    f.(metadata := if f.metadata == "" then ZERO_BYTES32 else f.metadata,
       builder := if f.builder == "" then ZERO_BYTES32 else f.builder,
       salt := SaltOf(f.salt, c),
       timestamp := if f.timestamp == "" then IntToString(c.nowMillis) else f.timestamp)
  }

  /** An order signed by the wallet that signs: its signer is that wallet, if it names one. */
  ghost predicate WalletGate(f: Fields, wallet: Address, c: Config) {
    && (f.maker == "" || IsHexAddress(f.maker))
    && (f.signer == "" || (IsHexAddress(f.signer) && AddressBytes(f.signer) == wallet))
    && EOA <= f.signatureType <= POLY_1271
    && CommonGate(f, c)
  }

  function AddressOr(text: string, default: Address, c: Config): string {
    c.hex(if IsHexAddress(text) then AddressBytes(text) else default)
  }

  function WalletForm(f: Fields, wallet: Address, c: Config): Fields {
    FillCommon(f, c).(maker := AddressOr(f.maker, wallet, c), signer := AddressOr(f.signer, wallet, c))
  }

  /** A deposit-wallet order: maker and signer name one address, and at least one of them names it. */
  ghost predicate DepositGate(f: Fields, c: Config) {
    && f.signatureType == POLY_1271
    && (IsHexAddress(f.maker) || (f.maker == "" && IsHexAddress(f.signer)))
    && (f.signer == "" || IsHexAddress(f.signer))
    && (IsHexAddress(f.maker) && IsHexAddress(f.signer) ==> AddressBytes(f.maker) == AddressBytes(f.signer))
    && CommonGate(f, c)
  }

  function DepositWallet(f: Fields): Address
    requires IsHexAddress(f.maker) || IsHexAddress(f.signer)
  {
    AddressBytes(if IsHexAddress(f.maker) then f.maker else f.signer)
  }

  function DepositForm(f: Fields, c: Config): Fields
    requires IsHexAddress(f.maker) || IsHexAddress(f.signer)
  {
    var hex := c.hex(DepositWallet(f));
    FillCommon(f, c).(maker := hex, signer := hex, expiration := if f.expiration == "" then "0" else f.expiration)
  }

  ghost predicate Signable(f: Fields, wallet: Address, c: Config) {
    if f.signatureType == POLY_1271 then DepositGate(f, c) else WalletGate(f, wallet, c)
  }

  ghost function SignedForm(f: Fields, wallet: Address, c: Config): Fields
    requires Signable(f, wallet, c)
  {
    if f.signatureType == POLY_1271 then DepositForm(f, c) else WalletForm(f, wallet, c)
  }

  lemma HexAddressIsTrimmed(text: string)
    requires IsHexAddress(text)
    ensures TrimSpace(text) == text && text != ""
  {
    var hex := StripHexPrefix(text);
    assert IsHexDigit(hex[0]) && IsHexDigit(hex[|hex| - 1]);
    assert text[|text| - 1] == hex[|hex| - 1];
    TrimSpaceFixed(text);
  }

  /** An absent bytes32 field becomes 32 zero bytes, any other must be valid. */
  method Bytes32OrZero(value: string) returns (ok: bool, r: string)
    ensures ok <==> ValidBytes32(value)
    ensures r == if value == "" then ZERO_BYTES32 else value
  {
    if value == "" {
      return true, ZERO_BYTES32;
    }
    ok := ValidateBytes32Hex(value);
    r := value;
  }

  /** A zero salt is replaced by the configured one, or by a generated one. */
  method ChooseSalt(salt: int, c: Config) returns (ok: bool, r: int)
    ensures ok <==> SaltOk(salt, c)
    ensures ok ==> r == SaltOf(salt, c)
  {
    if salt == 0 {
      var chosen := c.salt;
      if chosen.None? {
        chosen := c.generated;
        if chosen.None? { return false, 0; }
      }
      return true, Int64(chosen.value);
    } else if salt < 0 {
      return false, salt;
    }
    return true, salt;
  }

  class SignedOrder {
    var salt: int
    var maker: string
    var signer: string
    var tokenID: string
    var makerAmount: string
    var takerAmount: string
    var expiration: string
    var side: Side
    var signatureType: int
    var timestamp: string
    var metadata: string
    var builder: string
    var signature: string

    constructor (f: Fields)
      ensures State() == f
    {
      salt, maker, signer, tokenID := f.salt, f.maker, f.signer, f.tokenID;
      makerAmount, takerAmount, expiration, side := f.makerAmount, f.takerAmount, f.expiration, f.side;
      signatureType, timestamp, metadata := f.signatureType, f.timestamp, f.metadata;
      builder, signature := f.builder, f.signature;
    }

    ghost function State(): Fields
      reads this
    {
      Fields(salt, maker, signer, tokenID, makerAmount, takerAmount, expiration, side, signatureType,
             timestamp, metadata, builder, signature)
    }

    /** The part both preparations share, from the metadata to the timestamp. */
    method PrepareCommon(c: Config) returns (ok: bool)
      modifies this`metadata, this`builder, this`salt, this`timestamp
      ensures ok <==> CommonGate(old(State()), c)
      ensures ok ==> State() == FillCommon(old(State()), c)
    {
      hide ValidUint256, ValidBytes32, SaltOk, SaltOf, IntToString, HexutilEncode, ToWord;
      var valid, value := Bytes32OrZero(metadata);
      if !valid { return false; }
      metadata := value;
      valid, value := Bytes32OrZero(builder);
      if !valid { return false; }
      builder := value;
      if !ValidUint256(tokenID, true, false) { return false; }
      if !ValidUint256(makerAmount, true, true) { return false; }
      if !ValidUint256(takerAmount, true, true) { return false; }
      if side != Buy && side != Sell { return false; }
      var salted, chosen := ChooseSalt(salt, c);
      if !salted { return false; }
      salt := chosen;
      if timestamp == "" {
        timestamp := IntToString(c.nowMillis);
      } else if !ValidUint256(timestamp, true, true) {
        return false;
      }
      return true;
    }

    /** prepareOrderForSigning: accepted exactly when the gate lets it through; the amounts are never touched. */
    method PrepareOrderForSigning(wallet: Address, c: Config) returns (ok: bool)
      requires PrintsAddresses(c.hex)
      modifies this`maker, this`signer, this`metadata, this`builder, this`salt, this`timestamp
      ensures ok <==> WalletGate(old(State()), wallet, c)
      ensures ok ==> State() == WalletForm(old(State()), wallet, c)
    {
      hide CommonGate, FillCommon, IsHexAddress, AddressBytes, TrimSpace;
      EmptyIsNoAddress();
      var signerAddress := c.hex(wallet);
      if maker == "" {
        maker := signerAddress;
      } else if !IsHexAddress(maker) {
        return false;
      } else {
        maker := c.hex(AddressBytes(maker));
      }
      if signer == "" {
        signer := signerAddress;
      } else if !IsHexAddress(signer) {
        return false;
      } else {
        signer := c.hex(AddressBytes(signer));
      }
      if AddressBytes(signer) != AddressBytes(signerAddress) { return false; }
      CommonIgnoresAddresses(old(State()), maker, signer, c);
      // the source checks the signature type between two of the shared checks
      if signatureType < EOA || signatureType > POLY_1271 { return false; }
      ok := PrepareCommon(c);
    }

    /** prepareDepositWalletOrderForSigning, with the wallet that SignOrder infers. */
    method PrepareDepositWalletOrderForSigning(c: Config) returns (ok: bool)
      requires PrintsAddresses(c.hex)
      modifies this`maker, this`signer, this`metadata, this`builder, this`salt, this`timestamp, this`expiration
      ensures ok <==> DepositGate(old(State()), c)
      ensures ok ==> State() == DepositForm(old(State()), c)
    {
      hide CommonGate, FillCommon, IsHexAddress, AddressBytes, TrimSpace;
      EmptyIsNoAddress();
      var trimmedMaker, trimmedSigner := TrimSpace(maker), TrimSpace(signer);
      if IsHexAddress(maker) { HexAddressIsTrimmed(maker); }
      if IsHexAddress(signer) { HexAddressIsTrimmed(signer); }
      var wallet;
      if trimmedMaker != "" {
        if !IsHexAddress(trimmedMaker) { return false; }
        wallet := AddressBytes(trimmedMaker);
      } else if trimmedSigner != "" {
        if !IsHexAddress(trimmedSigner) { return false; }
        wallet := AddressBytes(trimmedSigner);
      } else {
        return false;
      }
      var walletHex := c.hex(wallet);
      if signatureType != POLY_1271 { return false; }
      if maker == "" {
        maker := walletHex;
      } else if !IsHexAddress(maker) {
        return false;
      } else {
        maker := c.hex(AddressBytes(maker));
      }
      if AddressBytes(maker) != AddressBytes(walletHex) { return false; }
      if signer == "" {
        signer := walletHex;
      } else if !IsHexAddress(signer) {
        return false;
      } else {
        signer := c.hex(AddressBytes(signer));
      }
      if AddressBytes(signer) != AddressBytes(walletHex) { return false; }
      CommonIgnoresAddresses(old(State()), maker, signer, c);
      ok := PrepareCommon(c);
      if ok && expiration == "" {
        expiration := "0";
      }
    }

    /**
     SignOrder; `knownChain` tells whether the chain has contract addresses, `produced` is what the signing
     function returns for the prepared order, None when it fails.
     */
    method SignOrder(wallet: Address, knownChain: bool, c: Config, produced: Option<string>) returns (ok: bool)
      requires PrintsAddresses(c.hex)
      modifies this
      ensures ok <==> knownChain && Signable(old(State()), wallet, c) && produced.Some?
      ensures ok ==> State() == SignedForm(old(State()), wallet, c).(signature := produced.value)
    {
      if !knownChain { return false; }
      if signatureType == POLY_1271 {
        ok := PrepareDepositWalletOrderForSigning(c);
      } else {
        ok := PrepareOrderForSigning(wallet, c);
      }
      if !ok { return; }
      if produced.None? { return false; }
      signature := produced.value;
    }
  }

  lemma EmptyIsNoAddress()
    ensures !IsHexAddress("") && TrimSpace("") == ""
  {
  }

  lemma CommonIgnoresAddresses(f: Fields, maker: string, signer: string, c: Config)
    ensures CommonGate(f.(maker := maker, signer := signer), c) == CommonGate(f, c)
    ensures FillCommon(f.(maker := maker, signer := signer), c) == FillCommon(f, c).(maker := maker, signer := signer)
  {
  }

  // ----- what the gate asks and what signing fills in -----

  /** Empty, or the hex of 32 bytes. */
  predicate BlankOrHash(text: string) {
    text == "" || (HexutilDecode(text).Some? && |HexutilDecode(text).value| == 32)
  }

  /** The gate, in terms of the numbers and bytes the fields stand for. */
  lemma GateMeaning(f: Fields, wallet: Address, c: Config)
    ensures Signable(f, wallet, c) <==>
      && UintText(f.tokenID, 0) && UintText(f.makerAmount, 1) && UintText(f.takerAmount, 1)
      && (f.side == Buy || f.side == Sell)
      && (f.salt > 0 || (f.salt == 0 && (c.salt.Some? || c.generated.Some?)))
      && (f.timestamp == "" || UintText(f.timestamp, 1))
      && BlankOrHash(f.metadata) && BlankOrHash(f.builder)
      && (if f.signatureType == 3 then
            && (IsHexAddress(f.maker) || (f.maker == "" && IsHexAddress(f.signer)))
            && (f.signer == "" || IsHexAddress(f.signer))
            && (IsHexAddress(f.maker) && IsHexAddress(f.signer) ==> AddressBytes(f.maker) == AddressBytes(f.signer))
          else
            && 0 <= f.signatureType <= 2
            && (f.maker == "" || IsHexAddress(f.maker))
            && (f.signer == "" || (IsHexAddress(f.signer) && AddressBytes(f.signer) == wallet)))
  {
    Uint256Meaning(f.tokenID, true, false);
    Uint256Meaning(f.makerAmount, true, true);
    Uint256Meaning(f.takerAmount, true, true);
    Uint256Meaning(f.timestamp, true, true);
    hide ParseInt10, IsHexAddress, HexutilDecode, UintText, ValidUint256;
    assert !UintText("", 0) && !UintText("", 1) by { BlankIsNoUint(); }
  }

  lemma BlankIsNoUint()
    ensures !UintText("", 0) && !UintText("", 1)
  {
  }

  /** The text is kept, or replaced by 32 zero bytes if it was empty. */
  predicate KeptOrZero(was: string, now: string) {
    if was == "" then HexutilDecode(now) == Some(seq(32, _ => 0 as byte)) else now == was
  }

  /** The printed address is the given one, or the default if none was given. */
  predicate Names(now: string, was: string, default: Address) {
    IsHexAddress(now) && AddressBytes(now) == if IsHexAddress(was) then AddressBytes(was) else default
  }

  /** What a signed order carries: what was given, and for each gap the documented default. */
  lemma SignedFields(f: Fields, wallet: Address, c: Config)
    requires Signable(f, wallet, c) && PrintsAddresses(c.hex)
    ensures var g := SignedForm(f, wallet, c);
      && g.tokenID == f.tokenID && g.makerAmount == f.makerAmount && g.takerAmount == f.takerAmount
      && g.side == f.side && g.signatureType == f.signatureType
      && KeptOrZero(f.metadata, g.metadata) && KeptOrZero(f.builder, g.builder)
      && (if f.timestamp == "" then ParseInt10(g.timestamp) == Some(c.nowMillis) else g.timestamp == f.timestamp)
      && (if f.salt != 0 then g.salt == f.salt
          else if c.salt.Some? then g.salt == Int64(c.salt.value)
          else c.generated.Some? && g.salt == Int64(c.generated.value))
      && (if f.signatureType == 3 then
            && (IsHexAddress(f.maker) || IsHexAddress(f.signer))
            && Names(g.maker, f.maker, DepositWallet(f)) && g.signer == g.maker
            && g.expiration == (if f.expiration == "" then "0" else f.expiration)
          else
            && Names(g.maker, f.maker, wallet) && IsHexAddress(g.signer) && AddressBytes(g.signer) == wallet
            && g.expiration == f.expiration)
  {
    ZeroBytes32IsValid();
    ParsePrintedInt(c.nowMillis);
    hide HexutilDecode, HexutilEncode, ToWord, ParseInt10, IntToString, ValidUint256, IsHexAddress, AddressBytes, Int64;
    EmptyIsNoAddress();
  }

  // ----- signing twice -----

  /** What makes the filled fields final: a positive salt, and a timestamp that was given or is past the epoch. */
  predicate FillsForGood(f: Fields, c: Config) {
    SaltOf(f.salt, c) > 0 && (f.timestamp != "" || 0 < c.nowMillis < UINT256_LIMIT)
  }

  lemma FilledIsFixed(f: Fields, c: Config, c': Config)
    requires CommonGate(f, c) && FillsForGood(f, c)
    ensures CommonGate(FillCommon(f, c), c') && FillCommon(FillCommon(f, c), c') == FillCommon(f, c)
  {
    hide ValidUint256, ValidBytes32, IntToString, ToWord, HexutilEncode;
    ZeroBytes32IsValid();
    PrintedUint256(c.nowMillis, true, true);
    PrintedNotEmpty(c.nowMillis);
  }

  lemma PrintedNotEmpty(n: int)
    ensures IntToString(n) != ""
  {
    if n >= 0 { NatToStringDigits(n); }
  }

  /** Otherwise a signer without any salt at hand refuses the filled order. */
  lemma NotForGood(f: Fields, c: Config, c': Config)
    requires CommonGate(f, c) && !FillsForGood(f, c) && c'.salt.None? && c'.generated.None?
    ensures !CommonGate(FillCommon(f, c), c')
  {
    hide ValidBytes32, IntToString, ToWord, HexutilEncode;
    PrintedUint256(c.nowMillis, true, true);
    PrintedNotEmpty(c.nowMillis);
  }

  lemma PrintedAddress(a: Address, c: Config)
    requires PrintsAddresses(c.hex)
    ensures c.hex(a) != "" && IsHexAddress(c.hex(a)) && AddressBytes(c.hex(a)) == a
  {
    HexAddressIsTrimmed(c.hex(a));
  }

  /** The gate of a signed order is the shared part of it, and its addresses are already in final form. */
  lemma SignedGate(f: Fields, wallet: Address, c: Config, c': Config)
    requires Signable(f, wallet, c) && PrintsAddresses(c.hex) && c'.hex == c.hex
    ensures var g := SignedForm(f, wallet, c);
      && (Signable(g, wallet, c') <==> CommonGate(FillCommon(f, c), c'))
      && (Signable(g, wallet, c') && FillCommon(FillCommon(f, c), c') == FillCommon(f, c) ==>
            SignedForm(g, wallet, c') == g)
  {
    var g := SignedForm(f, wallet, c);
    EmptyIsNoAddress();
    hide CommonGate, IsHexAddress, AddressBytes, SaltOf;
    if f.signatureType == POLY_1271 {
      PrintedAddress(DepositWallet(f), c);
      DepositIgnored(FillCommon(f, c), g, c');
    } else {
      PrintedAddress(if IsHexAddress(f.maker) then AddressBytes(f.maker) else wallet, c);
      PrintedAddress(wallet, c);
      CommonIgnoresAddresses(FillCommon(f, c), g.maker, g.signer, c');
    }
  }

  /**
   Signing fills every gap once and for all exactly when the salt it leaves is positive (and its clock, if it
   was asked, is past the epoch): then signing again, with any salt at hand and at any time, is accepted and
   changes nothing; otherwise some second signing is refused.
   */
  lemma ResigningChangesNothing(f: Fields, wallet: Address, c: Config)
    requires Signable(f, wallet, c) && PrintsAddresses(c.hex)
    ensures var g := SignedForm(f, wallet, c);
      (forall c': Config :: c'.hex == c.hex ==> Signable(g, wallet, c') && SignedForm(g, wallet, c') == g)
      <==> g.salt > 0 && (f.timestamp != "" || 0 < c.nowMillis < UINT256_LIMIT)
  {
    var g := SignedForm(f, wallet, c);
    SignedSalt(f, wallet, c);
    hide Signable, SignedForm;
    if FillsForGood(f, c) {
      forall c': Config | c'.hex == c.hex ensures Signable(g, wallet, c') && SignedForm(g, wallet, c') == g {
        SignedGate(f, wallet, c, c');
        FilledIsFixed(f, c, c');
      }
    } else {
      var c' := Config(None, None, c.nowMillis, c.hex);
      SignedGate(f, wallet, c, c');
      NotForGood(f, c, c');
      assert c'.hex == c.hex && !Signable(g, wallet, c');
    }
  }

  lemma SignedSalt(f: Fields, wallet: Address, c: Config)
    requires Signable(f, wallet, c)
    ensures SignedForm(f, wallet, c).salt == SaltOf(f.salt, c) && CommonGate(f, c)
  {
    hide CommonGate, IsHexAddress;
  }

  lemma DepositIgnored(f: Fields, g: Fields, c: Config)
    requires g == f.(maker := g.maker, signer := g.signer, expiration := g.expiration)
    ensures CommonGate(g, c) == CommonGate(f, c)
    ensures FillCommon(g, c) == FillCommon(f, c).(maker := g.maker, signer := g.signer, expiration := g.expiration)
  {
  }
}
