/**
 Correlation of RFQ requests and replies: which pending call a server message is for,
 and what a call can therefore receive.
 */
module RfqMessages {
  import opened Wrappers

  datatype AckValue =
    | QuoteReference(rfqID: string, quoteID: string)
    | ConfirmationAck(rfqID: string, quoteID: string, decision: string)

  datatype RfqError = RfqError(code: string, requestType: string, rfqID: string, quoteID: string, message: string)

  /** What a pending channel can carry. */
  datatype Reply = Ack(value: AckValue) | Failed(error: RfqError) | SessionClosed

  /** A call that waits for a reply. */
  datatype Request =
    | Quote(rfqID: string)
    | CancelQuote(rfqID: string, quoteID: string)
    | RespondConfirmation(rfqID: string, quoteID: string, decision: string)

  predicate ValidDecision(decision: string) {
    decision == "CONFIRM" || decision == "DECLINE"
  }

  /** The checks each call makes before it registers. */
  predicate ValidRequest(r: Request) {
    && r.rfqID != ""
    && (r.Quote? || r.quoteID != "")
    && (r.RespondConfirmation? ==> ValidDecision(r.decision))
  }

  function Joined(rfqID: string, quoteID: string): string {
    rfqID + ":" + quoteID
  }

  function RequestKey(r: Request): string {
    match r
    case Quote(rfq) => "quote:" + rfq
    case CancelQuote(rfq, quote) => "cancel:" + Joined(rfq, quote)
    case RespondConfirmation(rfq, quote, _) => "confirm:" + Joined(rfq, quote)
  }

  /** A message after JSON decoding; `valid` is the verdict of the event validators. */
  datatype Message =
    | AckQuote(rfqID: string, quoteID: string)
    | AckCancel(rfqID: string, quoteID: string)
    | AckConfirmation(rfqID: string, quoteID: string, decision: string)
    | ErrorMessage(error: RfqError)
    | EventMessage(event: string, valid: bool)
    | Undecodable

  /** errorKey: the key an error reply resolves, "" when it is not about a call, or a protocol error. */
  function ErrorKey(e: RfqError): Result<string, string> {
    if e.requestType == "RFQ_QUOTE" then
      if e.rfqID == "" then Err("uncorrelated quote error") else Ok("quote:" + e.rfqID)
    else if e.requestType == "RFQ_QUOTE_CANCEL" then
      if e.rfqID == "" || e.quoteID == "" then Err("uncorrelated quote cancellation error")
      else Ok("cancel:" + Joined(e.rfqID, e.quoteID))
    else if e.requestType == "RFQ_CONFIRMATION_RESPONSE" then
      if e.rfqID == "" || e.quoteID == "" then Err("uncorrelated confirmation error")
      else Ok("confirm:" + Joined(e.rfqID, e.quoteID))
    else Ok("")
  }

  datatype Action =
    | Resolve(key: string, reply: Reply)
    | Push(event: string)
    | Report(error: RfqError)
    | Fail(reason: string)

  /** handle: what the read loop does with one message. */
  function Dispatch(m: Message): Action {
    match m
    case AckQuote(rfq, quote) =>
      if rfq == "" || quote == "" then Fail("malformed quote acknowledgement")
      else Resolve("quote:" + rfq, Ack(QuoteReference(rfq, quote)))
    case AckCancel(rfq, quote) =>
      if rfq == "" || quote == "" then Fail("malformed quote cancellation acknowledgement")
      else Resolve("cancel:" + Joined(rfq, quote), Ack(QuoteReference(rfq, quote)))
    case AckConfirmation(rfq, quote, decision) =>
      if rfq == "" || quote == "" || !ValidDecision(decision) then Fail("malformed confirmation acknowledgement")
      else Resolve("confirm:" + Joined(rfq, quote), Ack(ConfirmationAck(rfq, quote, decision)))
    case ErrorMessage(e) =>
      if e.code == "" || e.message == "" then Fail("malformed rfq error")
      else
        var key := ErrorKey(e);
        if key.Err? then Fail(key.error)
        else if key.value != "" then Resolve(key.value, Failed(e))
        else Report(e)
    case EventMessage(event, valid) => if valid then Push(event) else Fail("malformed event")
    case Undecodable => Fail("decode message")
  }

  /** A reply that can reach a call: one dispatched to its key, or the notice that the session closed. */
  ghost predicate Answers(r: Request, reply: Reply) {
    reply.SessionClosed? || exists m: Message :: Dispatch(m) == Resolve(RequestKey(r), reply)
  }

  /** The ids a reply carries; the type of an acknowledgement is the one its call asserts. */
  ghost predicate WellTyped(r: Request, reply: Reply) {
    match reply
    case SessionClosed => true
    case Failed(_) => true
    case Ack(value) => if r.RespondConfirmation? then value.ConfirmationAck? else value.QuoteReference?
  }

  function ReplyRfq(reply: Reply): string
    requires !reply.SessionClosed?
  {
    if reply.Ack? then reply.value.rfqID else reply.error.rfqID
  }

  function ReplyQuote(reply: Reply): string
    requires !reply.SessionClosed?
  {
    if reply.Ack? then reply.value.quoteID else reply.error.quoteID
  }

  // ----- which message answers which call -----

  /** A message that a call can be answered with: complete, and an error about one of the three kinds of calls. */
  predicate IsReply(m: Message) {
    match m
    case AckQuote(rfq, quote) => rfq != "" && quote != ""
    case AckCancel(rfq, quote) => rfq != "" && quote != ""
    case AckConfirmation(rfq, quote, decision) =>
      rfq != "" && quote != "" && (decision == "CONFIRM" || decision == "DECLINE")
    case ErrorMessage(e) =>
      && e.code != "" && e.message != "" && e.rfqID != ""
      && (e.requestType == "RFQ_QUOTE"
          || (e.quoteID != "" && (e.requestType == "RFQ_QUOTE_CANCEL" || e.requestType == "RFQ_CONFIRMATION_RESPONSE")))
    case _ => false
  }

  /** The message is an acknowledgement or an error of this kind of call. */
  predicate SameKind(m: Message, r: Request) {
    match r
    case Quote(_) => m.AckQuote? || (m.ErrorMessage? && m.error.requestType == "RFQ_QUOTE")
    case CancelQuote(_, _) => m.AckCancel? || (m.ErrorMessage? && m.error.requestType == "RFQ_QUOTE_CANCEL")
    case RespondConfirmation(_, _, _) =>
      m.AckConfirmation? || (m.ErrorMessage? && m.error.requestType == "RFQ_CONFIRMATION_RESPONSE")
  }

  function MessageRfq(m: Message): string
    requires IsReply(m)
  {
    if m.ErrorMessage? then m.error.rfqID else m.rfqID
  }

  function MessageQuote(m: Message): string
    requires IsReply(m)
  {
    if m.ErrorMessage? then m.error.quoteID else m.quoteID
  }

  /** The message answers the call: its kind, and the ids the call was made with. */
  predicate IsReplyTo(m: Message, r: Request) {
    IsReply(m) && SameKind(m, r) && MessageRfq(m) == r.rfqID && (r.Quote? || MessageQuote(m) == r.quoteID)
  }

  /** What the call then gets. */
  function Content(m: Message): Reply
    requires IsReply(m)
  {
    match m
    case AckConfirmation(rfq, quote, decision) => Ack(ConfirmationAck(rfq, quote, decision))
    case ErrorMessage(e) => Failed(e)
    case _ => Ack(QuoteReference(m.rfqID, m.quoteID))
  }

  /** Every message that answers a call is dispatched to that call's key, with its content. */
  lemma ReplyIsDispatched(m: Message, r: Request)
    requires IsReplyTo(m, r)
    ensures Dispatch(m) == Resolve(RequestKey(r), Content(m))
  {
  }

  /** What a call receives, unless the session closed, is the content of a message of its own kind. */
  lemma ReceivedFromOwnKind(r: Request, reply: Reply) returns (m: Message)
    requires ValidRequest(r) && Answers(r, reply) && !reply.SessionClosed?
    ensures IsReply(m) && SameKind(m, r) && reply == Content(m)
    ensures r.Quote? || !SplitsElsewhere(r.rfqID, r.quoteID) ==> IsReplyTo(m, r)
  {
    m :| Dispatch(m) == Resolve(RequestKey(r), reply);
    RepliesFitTheirCall(r, reply);
    OwnKind(m, r);
    if !r.Quote? { CorrelationUniqueIff(r.rfqID, r.quoteID); }
  }

  lemma OwnKind(m: Message, r: Request)
    requires Dispatch(m).Resolve? && Dispatch(m).key == RequestKey(r)
    ensures IsReply(m) && SameKind(m, r) && Dispatch(m).reply == Content(m)
  {
    hide Joined;
    match r {
      case Quote(id) => KindsDiffer(id, Joined(ReplyRfq(Dispatch(m).reply), ReplyQuote(Dispatch(m).reply)));
      case CancelQuote(id, quote) =>
        KindsDiffer(ReplyRfq(Dispatch(m).reply), Joined(id, quote));
        KindsDiffer(Joined(id, quote), Joined(ReplyRfq(Dispatch(m).reply), ReplyQuote(Dispatch(m).reply)));
      case RespondConfirmation(id, quote, _) =>
        KindsDiffer(ReplyRfq(Dispatch(m).reply), Joined(id, quote));
        KindsDiffer(Joined(ReplyRfq(Dispatch(m).reply), ReplyQuote(Dispatch(m).reply)), Joined(id, quote));
    }
  }

  /**
   The other messages: a complete error about nothing else is reported, a valid event is pushed, and anything
   else ends the session.
   */
  lemma DispatchOfOthers(m: Message)
    ensures Dispatch(m).Resolve? <==> IsReply(m)
    ensures Dispatch(m).Report? <==>
      && m.ErrorMessage? && m.error.code != "" && m.error.message != ""
      && m.error.requestType !in {"RFQ_QUOTE", "RFQ_QUOTE_CANCEL", "RFQ_CONFIRMATION_RESPONSE"}
    ensures Dispatch(m).Report? ==> Dispatch(m).error == m.error
    ensures Dispatch(m).Push? <==> m.EventMessage? && m.valid
    ensures Dispatch(m).Push? ==> Dispatch(m).event == m.event
  {
  }

  lemma PrefixCancels(prefix: string, a: string, b: string)
    requires prefix + a == prefix + b
    ensures a == b
  {
    assert (prefix + a)[|prefix|..] == a && (prefix + b)[|prefix|..] == b;
  }

  /** What a reply tells about the key it was dispatched to. */
  lemma DispatchedKey(m: Message, key: string, reply: Reply)
    requires Dispatch(m) == Resolve(key, reply)
    ensures !reply.SessionClosed? && ReplyRfq(reply) != ""
    ensures
      || (key == "quote:" + ReplyRfq(reply) && (reply.Ack? ==> reply.value.QuoteReference?))
      || (key == "cancel:" + Joined(ReplyRfq(reply), ReplyQuote(reply)) && ReplyQuote(reply) != ""
          && (reply.Ack? ==> reply.value.QuoteReference?))
      || (key == "confirm:" + Joined(ReplyRfq(reply), ReplyQuote(reply)) && ReplyQuote(reply) != ""
          && (reply.Ack? ==> reply.value.ConfirmationAck?))
  {
  }

  /** The three kinds of keys never coincide. */
  lemma KindsDiffer(a: string, b: string)
    ensures "quote:" + a != "cancel:" + b && "quote:" + a != "confirm:" + b && "cancel:" + a != "confirm:" + b
  {
    assert ("quote:" + a)[0] == 'q' && ("cancel:" + b)[0] == 'c' && ("confirm:" + b)[0] == 'c';
    assert ("cancel:" + a)[1] == 'a' && ("confirm:" + b)[1] == 'o';
  }

  /**
   Whatever reaches a call passes its type assertion; a quote reply carries the requested RFQ id,
   and a cancel or confirm reply, error replies included, carries ids that join to the caller's key.
   */
  lemma RepliesFitTheirCall(r: Request, reply: Reply)
    requires ValidRequest(r) && Answers(r, reply)
    ensures WellTyped(r, reply)
    ensures !reply.SessionClosed? ==>
      && ReplyRfq(reply) != ""
      && (r.Quote? ==> ReplyRfq(reply) == r.rfqID)
      && (!r.Quote? ==>
            ReplyQuote(reply) != "" && Joined(ReplyRfq(reply), ReplyQuote(reply)) == Joined(r.rfqID, r.quoteID))
  {
    hide Dispatch, Joined;
    if !reply.SessionClosed? {
      var m: Message :| Dispatch(m) == Resolve(RequestKey(r), reply);
      DispatchedKey(m, RequestKey(r), reply);
      var rfq, both := ReplyRfq(reply), Joined(ReplyRfq(reply), ReplyQuote(reply));
      match r {
        case Quote(id) =>
          KindsDiffer(id, both);
          PrefixCancels("quote:", rfq, id);
        case CancelQuote(id, quote) =>
          KindsDiffer(rfq, Joined(id, quote));
          KindsDiffer(Joined(id, quote), both);
          PrefixCancels("cancel:", both, Joined(id, quote));
        case RespondConfirmation(id, quote, _) =>
          KindsDiffer(rfq, Joined(id, quote));
          KindsDiffer(both, Joined(id, quote));
          PrefixCancels("confirm:", both, Joined(id, quote));
      }
    }
  }

  ghost predicate ColonFree(id: string) {
    ':' !in id
  }

  /** With colon-free RFQ ids on both sides, a reply to a cancel or confirm call carries the caller's own ids. */
  lemma ColonFreeRepliesAreExact(r: Request, reply: Reply)
    requires ValidRequest(r) && !r.Quote? && Answers(r, reply) && !reply.SessionClosed?
    requires ColonFree(r.rfqID) && ColonFree(ReplyRfq(reply))
    ensures ReplyRfq(reply) == r.rfqID && ReplyQuote(reply) == r.quoteID
  {
    RepliesFitTheirCall(r, reply);
    JoinInjective(r.rfqID, r.quoteID, ReplyRfq(reply), ReplyQuote(reply));
  }

  lemma JoinInjective(rfq: string, quote: string, rfq': string, quote': string)
    requires ColonFree(rfq) && ColonFree(rfq') && Joined(rfq, quote) == Joined(rfq', quote')
    ensures rfq == rfq' && quote == quote'
  {
    var s := Joined(rfq, quote);
    assert s[|rfq|] == ':' && s[|rfq'|] == ':';
    assert s[..|rfq|] == rfq && s[..|rfq'|] == rfq';
    assert s[|rfq| + 1..] == quote && s[|rfq'| + 1..] == quote';
  }

  /** A second way to split the key: another colon with text on both sides of it. */
  ghost predicate SplitsElsewhere(rfq: string, quote: string) {
    exists i :: 0 < i < |Joined(rfq, quote)| - 1 && i != |rfq| && Joined(rfq, quote)[i] == ':'
  }

  /** The caller's ids determine every matching reply exactly when their key has no second split. */
  lemma CorrelationUniqueIff(rfq: string, quote: string)
    requires rfq != "" && quote != ""
    ensures !SplitsElsewhere(rfq, quote) <==>
      forall rfq', quote' :: rfq' != "" && quote' != "" && Joined(rfq', quote') == Joined(rfq, quote)
                             ==> rfq' == rfq && quote' == quote
  {
    var s := Joined(rfq, quote);
    if SplitsElsewhere(rfq, quote) {
      var i :| 0 < i < |s| - 1 && i != |rfq| && s[i] == ':';
      assert Joined(s[..i], s[i + 1..]) == s;
      assert |s[..i]| != |rfq|;
    } else {
      forall rfq', quote' | rfq' != "" && quote' != "" && Joined(rfq', quote') == s
        ensures rfq' == rfq && quote' == quote
      {
        assert s[|rfq'|] == ':';
        assert |rfq'| == |rfq|;
        assert s[..|rfq|] == rfq && s[..|rfq'|] == rfq';
        assert s[|rfq| + 1..] == quote && s[|rfq'| + 1..] == quote';
      }
    }
  }

  /** The reply carries the caller's own ids. */
  ghost predicate CarriesOwnIds(r: Request, reply: Reply)
    requires !r.Quote? && !reply.SessionClosed?
  {
    ReplyRfq(reply) == r.rfqID && ReplyQuote(reply) == r.quoteID
  }

  /**
   A cancel or confirm call can only receive its own ids, from acknowledgements and errors alike, exactly
   when its key has no second split.
   */
  lemma RepliesExactIff(r: Request)
    requires ValidRequest(r) && !r.Quote?
    ensures (forall reply :: Answers(r, reply) && !reply.SessionClosed? ==> CarriesOwnIds(r, reply))
       <==> !SplitsElsewhere(r.rfqID, r.quoteID)
  {
    if SplitsElsewhere(r.rfqID, r.quoteID) {
      var rfq, quote := OtherIds(r.rfqID, r.quoteID);
      var reply := Acknowledgement(r, rfq, quote);
      assert Answers(r, reply) && !CarriesOwnIds(r, reply);
    } else {
      CorrelationUniqueIff(r.rfqID, r.quoteID);
      forall reply | Answers(r, reply) && !reply.SessionClosed? ensures CarriesOwnIds(r, reply) {
        RepliesFitTheirCall(r, reply);
      }
    }
  }

  lemma OtherIds(rfq: string, quote: string) returns (rfq': string, quote': string)
    requires SplitsElsewhere(rfq, quote)
    ensures rfq' != "" && quote' != "" && rfq' != rfq && Joined(rfq', quote') == Joined(rfq, quote)
  {
    var s := Joined(rfq, quote);
    var i :| 0 < i < |s| - 1 && i != |rfq| && s[i] == ':';
    rfq', quote' := s[..i], s[i + 1..];
    assert s == s[..i] + ":" + s[i + 1..];
  }

  /** The acknowledgement of another call whose ids join to the same key reaches this one. */
  lemma Acknowledgement(r: Request, rfq: string, quote: string) returns (reply: Reply)
    requires ValidRequest(r) && !r.Quote? && rfq != "" && quote != ""
    requires Joined(rfq, quote) == Joined(r.rfqID, r.quoteID)
    ensures Answers(r, reply) && reply.Ack? && reply.value.rfqID == rfq && reply.value.quoteID == quote
  {
    var m := if r.CancelQuote? then AckCancel(rfq, quote) else AckConfirmation(rfq, quote, "CONFIRM");
    reply := Dispatch(m).reply;
    assert Dispatch(m) == Resolve(RequestKey(r), reply);
  }

  /** Ids with colons can collide: the acknowledgement of one call resolves another, which gets the wrong ids. */
  lemma ColonsCollide()
    ensures RequestKey(CancelQuote("a:b", "c")) == RequestKey(CancelQuote("a", "b:c"))
    ensures SplitsElsewhere("a", "b:c")
    ensures var r, reply := CancelQuote("a", "b:c"), Ack(QuoteReference("a:b", "c"));
      ValidRequest(r) && Answers(r, reply) && !CarriesOwnIds(r, reply)
  {
    assert Joined("a", "b:c") == "a:b:c" == Joined("a:b", "c");
    assert Joined("a", "b:c")[3] == ':';
    assert Dispatch(AckCancel("a:b", "c"))
        == Resolve(RequestKey(CancelQuote("a", "b:c")), Ack(QuoteReference("a:b", "c")));
  }
}
