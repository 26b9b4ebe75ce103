/** The checks a quote passes before it is submitted, and which built quotes pass them. */
module QuoteSubmission {
  import opened Wrappers
  import opened Bytes
  import opened Text
  import opened DecimalE6
  import opened OrderValidation
  import opened SignatureTypes
  import opened QuoteBuilder

  datatype Submission = Submission(quoteID: string, rfqID: string, identity: Identity,
                                   priceE6: string, sizeE6: string, order: Order)

  /** parseUint256Field. */
  function ParseUint256Field(value: string, positive: bool): (r: Option<nat>)
    ensures r.Some? <==> value != "" && ValidUint256(value, true, positive)
  {
    var n := ParseInt10(value);
    if n.None? || n.value < 0 || n.value >= UINT256_LIMIT || (positive && n.value == 0) then None else Some(n.value)
  }

  /** validateBytes32Field: unlike an order field elsewhere, it may not be empty. */
  predicate IsBytes32(value: string) {
    value != "" && ValidBytes32(value)
  }

  predicate NumbersOk(s: Submission) {
    && ParseUint256Field(s.priceE6, true).Some? && ParseUint256Field(s.priceE6, true).value < ONE_E6
    && ParseUint256Field(s.sizeE6, true).Some?
    && ParseUint256Field(s.order.tokenID, true).Some?
    && ParseUint256Field(s.order.makerAmount, true).Some?
    && ParseUint256Field(s.order.takerAmount, true).Some?
    && ParseUint256Field(s.order.timestamp, true).Some?
    && ParseUint256Field(s.order.salt, false).Some?
    && (s.order.expiration == "" || ParseUint256Field(s.order.expiration, false).Some?)
  }

  predicate AddressesOk(s: Submission) {
    && EqualFold(s.order.maker, s.identity.maker) && EqualFold(s.order.signer, s.identity.signer)
    && s.order.signatureType == s.identity.signatureType
    && NonZeroAddress(s.order.maker) && NonZeroAddress(s.order.signer)
  }

  predicate SignatureOk(o: Order) {
    var signature := HexutilDecode(o.signature);
    && signature.Some?
    && (if o.signatureType == EOA then EqualFold(o.signer, o.maker) && |signature.value| == 65
        else if o.signatureType == PROXY || o.signatureType == GNOSIS_SAFE then |signature.value| == 65
        else
          && o.signatureType == POLY_1271 && EqualFold(o.signer, o.maker)
          && |signature.value| == 65 + 32 + 32 + 2 + |ORDER_TYPE|)
  }

  /** validateSubmitQuote. */
  predicate ValidSubmitQuote(s: Submission) {
    && NumbersOk(s) && AddressesOk(s)
    && (s.order.side == 0 || s.order.side == 1)
    && IsBytes32(s.order.metadata) && IsBytes32(s.order.builder)
    && SignatureOk(s.order)
  }

  /** The hex of exactly 32 bytes. */
  predicate IsHash(text: string) {
    HexutilDecode(text).Some? && |HexutilDecode(text).value| == 32
  }

  /** The submission check in terms of the numbers and bytes the fields stand for. */
  lemma SubmissionMeaning(s: Submission)
    ensures ValidSubmitQuote(s) <==>
      && UintText(s.priceE6, 1) && ParseInt10(s.priceE6).value < 1_000_000 && UintText(s.sizeE6, 1)
      && UintText(s.order.tokenID, 1) && UintText(s.order.makerAmount, 1) && UintText(s.order.takerAmount, 1)
      && UintText(s.order.timestamp, 1) && UintText(s.order.salt, 0)
      && (s.order.expiration == "" || UintText(s.order.expiration, 0))
      && (s.order.side == 0 || s.order.side == 1)
      && IsHash(s.order.metadata) && IsHash(s.order.builder)
      && EqualFold(s.order.maker, s.identity.maker) && EqualFold(s.order.signer, s.identity.signer)
      && s.order.signatureType == s.identity.signatureType && 0 <= s.order.signatureType <= 3
      && NonZeroAddress(s.order.maker) && NonZeroAddress(s.order.signer)
      && (s.order.signatureType == 0 || s.order.signatureType == 3 ==> EqualFold(s.order.signer, s.order.maker))
      && HexutilDecode(s.order.signature).Some?
      && |HexutilDecode(s.order.signature).value| == (if s.order.signatureType == 3 then 131 + |ORDER_TYPE| else 65)
  {
    hide ParseInt10, HexutilDecode, EqualFold, NonZeroAddress;
    BlankIsNoHash();
  }

  lemma BlankIsNoHash()
    ensures HexutilDecode("") == None
  {
  }

  /** An accepted submission names the identity's own two addresses. */
  lemma AcceptedNamesIdentity(s: Submission)
    requires ValidSubmitQuote(s)
    ensures IsHexAddress(s.identity.maker) && AddressBytes(s.order.maker) == AddressBytes(s.identity.maker)
    ensures IsHexAddress(s.identity.signer) && AddressBytes(s.order.signer) == AddressBytes(s.identity.signer)
  {
    hide IsHexAddress, AddressBytes, EqualFold, NumbersOk, SignatureOk, IsBytes32;
    FoldedAddress(s.order.maker, s.identity.maker);
    FoldedAddress(s.order.signer, s.identity.signer);
  }

  /** SubmitQuote up to the request: ids present, the client's own identity, and a valid quote. */
  predicate Submittable(own: Identity, address: string, s: Submission) {
    && s.quoteID != "" && s.rfqID != ""
    && IsHexAddress(s.identity.signer) && IsHexAddress(s.identity.maker)
    && EqualFold(s.identity.signer, own.signer) && EqualFold(s.identity.maker, own.maker)
    && s.identity.signatureType == own.signatureType
    && ValidIdentity(s.identity, address)
    && ValidSubmitQuote(s)
  }

  lemma PrintedField(n: int, positive: bool)
    ensures ParseUint256Field(IntToString(n), positive).Some? <==> 0 <= n < UINT256_LIMIT && (positive ==> n > 0)
    ensures 0 < n < UINT256_LIMIT ==> ParseUint256Field(IntToString(n), positive) == Some(n)
  {
    hide IntToString;
    ParsePrintedInt(n);
  }

  /** The numeric checks of a built quote come down to the size, the token and the clock. */
  lemma BuiltNumbers(id: Identity, env: Env, request: Request, t: Terms, s: Submission)
    requires 0 < t.price < ONE_E6 && CanSign(id, env) && env.salt.value < UINT256_LIMIT && env.now < UINT256_LIMIT
    requires 1 <= MakerAmount(t.price, t.size, request.direction, t.source) <= t.size
    requires 1 <= TakerAmount(t.price, t.size, request.direction, t.source) <= t.size
    requires var q := SignedQuote(id, env, request, t);
      s.priceE6 == q.priceE6 && s.sizeE6 == q.sizeE6 && s.order == q.order
    ensures NumbersOk(s) <==>
      t.size < UINT256_LIMIT && ParseUint256Field(TokenOf(request, t.source), true).Some? && env.now > 0
  {
    hide NatToString, MakerAmount, TakerAmount, SignatureBytes, HexutilEncode, ParseUint256Field;
    PrintedField(t.price, true);
    PrintedField(t.size, true);
    PrintedField(MakerAmount(t.price, t.size, request.direction, t.source), true);
    PrintedField(TakerAmount(t.price, t.size, request.direction, t.source), true);
    PrintedField(env.now, true);
    PrintedField(env.salt.value, false);
  }

  /** Everything else a built quote is checked for holds. */
  lemma BuiltShape(id: Identity, env: Env, request: Request, t: Terms)
    requires 0 < t.price < ONE_E6 && CanSign(id, env) && ValidIdentity(id, env.address)
    ensures var o := SignedQuote(id, env, request, t).order;
      && (o.side == 0 || o.side == 1) && IsBytes32(o.metadata) && IsBytes32(o.builder) && SignatureOk(o)
      && EqualFold(o.maker, id.maker) && EqualFold(o.signer, id.signer) && o.signatureType == id.signatureType
      && NonZeroAddress(o.maker) && NonZeroAddress(o.signer)
  {
    hide NatToString, IntToString, MakerAmount, TakerAmount, SignatureBytes, HexutilEncode, ToWord, IsHexAddress;
    ZeroBytes32IsValid();
    var contents := if env.contents.Some? then env.contents.value else env.domainSeparator;
    HexutilRoundTrip(SignatureBytes(id.signatureType, env.inner.value, env.domainSeparator, contents));
  }

  /**
   A built quote submitted under the identity that built it is accepted exactly when its size and its token
   id fit a positive uint256 and the clock is past the epoch; every other check holds by construction.
   */
  lemma BuiltQuoteAcceptedIff(id: Identity, env: Env, request: Request, opts: Options, s: Submission)
    requires ValidIdentity(id, env.address) && TermsOf(request, opts).Some? && CanSign(id, env)
    requires env.salt.value < UINT256_LIMIT && env.now < UINT256_LIMIT
    requires var q := SignedQuote(id, env, request, TermsOf(request, opts).value);
      s == Submission(s.quoteID, s.rfqID, id, q.priceE6, q.sizeE6, q.order) && s.quoteID != "" && s.rfqID != ""
    ensures var t := TermsOf(request, opts).value;
      Submittable(id, env.address, s) <==>
        t.size < UINT256_LIMIT && ParseUint256Field(TokenOf(request, t.source), true).Some? && env.now > 0
  {
    TermsMeaning(request, opts);
    var t := TermsOf(request, opts).value;
    hide TermsOf, MakerAmount, TakerAmount, NatToString, SignedQuote, NumbersOk, IsBytes32, SignatureOk;
    BuiltNumbers(id, env, request, t, s);
    BuiltShape(id, env, request, t);
  }
}
