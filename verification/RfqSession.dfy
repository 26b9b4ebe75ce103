/**
 Every interleaving of an RFQ session: concurrent calls, the read loop, Close callers, the one
 execution of shutdown's body, and the consumers of the two output channels.
 A step is one atomic action; a blocking channel operation is enabled only when it can proceed.
 */
module RfqSession {
  import opened Wrappers
  import opened RfqMessages
  import opened PendingTable

  datatype SessionError = Rfq(error: RfqError) | Fatal(reason: string)

  /** Positions inside shutdown's body; the first four are reportTerminalError. */
  datatype Phase = CheckDone | TrySend | Discard | Resend | Swap | Draining | CloseDone

  datatype Once = Unused | Running(byReader: bool, phase: Phase) | Used(byReader: bool)

  /** `Exiting(n)`: the deferred closes of events, errs and readDone, n of them done. */
  datatype Reader =
    | Reading
    | Resolving
    | PushCheck(event: string) | PushSelect(event: string)
    | ReportCheck(error: SessionError) | ReportSelect(error: SessionError)
    | Stopping(error: SessionError)
    | Exiting(closed: nat)

  /**
   The output channels; `taken` and `drained` list what the consumer has taken from events and from errs,
   `panicked` that a select with a send case has run on a closed channel, whatever its other cases.
   */
  datatype Outlet = Outlet(events: seq<string>, eventsClosed: bool, errs: seq<SessionError>, errsClosed: bool,
                           taken: seq<string>, drained: seq<SessionError>, panicked: bool)

  /** `terminal` is the error the read loop entered shutdown with, if it was the first to enter. */
  datatype Session = Session(eventCap: nat, table: Table, reader: Reader, once: Once, done: bool,
                             outlet: Outlet, terminal: Option<SessionError>)

  const ERRS_CAP: nat := 1

  /** A send case of a select can run: there is room, or the channel is closed, and then running it panics. */
  predicate ErrsReady(o: Outlet) {
    o.errsClosed || |o.errs| < ERRS_CAP
  }

  predicate EventsReady(o: Outlet, cap: nat) {
    o.eventsClosed || |o.events| < cap
  }

  function SendError(o: Outlet, e: SessionError): Outlet {
    if o.errsClosed then o.(panicked := true) else o.(errs := o.errs + [e])
  }

  function SendEvent(o: Outlet, event: string): Outlet {
    if o.eventsClosed then o.(panicked := true) else o.(events := o.events + [event])
  }

  datatype Step =
    | CallStep(op: Op)
    | ReadMessage(message: Message)
    | ReadFails(reason: string)
    | ReaderStep(preferDone: bool)
    | CloseCalled
    | ShutdownStep(c: nat)
    | ConsumeEvent
    | ConsumeError

  /** handle, up to the end of its first critical section. */
  ghost function Handled(s: Session, m: Message): Session {
    match Dispatch(m)
    case Resolve(key, reply) =>
      var t := Take(s.table, key, reply);
      s.(table := t, reader := if t.held.Some? then Resolving else Reading)
    case Push(event) => s.(reader := PushCheck(event))
    case Report(error) => s.(reader := ReportCheck(Rfq(error)))
    case Fail(reason) => s.(reader := Stopping(Fatal(reason)))
  }

  ghost predicate ReaderNext(s: Session, preferDone: bool, s': Session) {
    var o := s.outlet;
    match s.reader
    case Reading => false
    case Resolving =>
      && s.table.held.Some? && s.table.held.value.0 < |s.table.chans|
      && s.table.chans[s.table.held.value.0].buffer == []
      && s' == s.(table := Deliver(s.table), reader := Reading)
    case PushCheck(event) =>
      s' == s.(reader := if s.done then Stopping(Fatal("session closed")) else PushSelect(event))
    case PushSelect(event) =>
      var room := EventsReady(o, s.eventCap);
      s' == if s.done && !o.eventsClosed && (preferDone || !room) then s.(reader := Stopping(Fatal("session closed")))
            else if room then s.(outlet := SendEvent(o, event), reader := Reading)
            else s.(reader := Stopping(Fatal("event buffer is full")))
    case ReportCheck(error) => s' == s.(reader := if s.done then Reading else ReportSelect(error))
    case ReportSelect(error) =>
      s' == if (s.done && !o.errsClosed && preferDone) || !ErrsReady(o) then s.(reader := Reading)
            else s.(outlet := SendError(o, error), reader := Reading)
    case Stopping(error) =>
      if s.once.Unused? then s' == s.(once := Running(true, CheckDone), terminal := Some(error))
      else s.once.Used? && s' == s.(reader := Exiting(0))
    case Exiting(n) =>
      && n < 3
      && s' == s.(reader := Exiting(n + 1),
                  outlet := if n == 0 then o.(eventsClosed := true) else if n == 1 then o.(errsClosed := true) else o)
  }

  ghost predicate ShutdownNext(s: Session, c: nat, s': Session) {
    && s.once.Running?
    && var o, go := s.outlet, (phase: Phase) => Running(s.once.byReader, phase);
    match s.once.phase
    case CheckDone => s' == s.(once := go(if s.done then Swap else TrySend))
    case TrySend =>
      s.terminal.Some? &&
      s' == if ErrsReady(o) then s.(outlet := SendError(o, s.terminal.value), once := go(Swap))
            else s.(once := go(Discard))
    case Discard => s' == s.(outlet := o.(errs := if o.errs == [] then [] else o.errs[1..]), once := go(Resend))
    case Resend =>
      s.terminal.Some? &&
      ((ErrsReady(o) && s' == s.(outlet := SendError(o, s.terminal.value), once := go(Swap)))
       || (s.done && !o.errsClosed && s' == s.(once := go(Swap))))
    case Swap => s' == s.(table := SwapOut(s.table), once := go(Draining))
    case Draining =>
      if s.table.draining == {} then s' == s.(once := go(CloseDone))
      else
        && c in s.table.draining && c < |s.table.chans|
        && s.table.chans[c].buffer == []
        && s' == s.(table := Drain(s.table, c))
    case CloseDone => s' == s.(done := true, once := Used(s.once.byReader))
  }

  ghost predicate Next(s: Session, step: Step, s': Session) {
    match step
    case CallStep(op) => PendingTable.Step(s.table, op, s.done, s'.table) && s' == s.(table := s'.table)
    case ReadMessage(m) => s.reader.Reading? && s' == Handled(s, m)
    case ReadFails(reason) => s.reader.Reading? && s' == s.(reader := Stopping(Fatal(reason)))
    case ReaderStep(preferDone) => ReaderNext(s, preferDone, s')
    case CloseCalled => s.once.Unused? && s' == s.(once := Running(false, Swap))
    case ShutdownStep(c) => ShutdownNext(s, c, s')
    case ConsumeEvent =>
      s.outlet.events != [] &&
      s' == s.(outlet := s.outlet.(events := s.outlet.events[1..], taken := s.outlet.taken + [s.outlet.events[0]]))
    case ConsumeError =>
      s.outlet.errs != [] &&
      s' == s.(outlet := s.outlet.(errs := s.outlet.errs[1..], drained := s.outlet.drained + [s.outlet.errs[0]]))
  }

  ghost predicate Init(s: Session) {
    && s.table.pending == map[] && s.table.chans == [] && s.table.held == None && s.table.draining == {}
    && s.reader == Reading && s.once == Unused && !s.done && s.terminal == None
    && s.outlet == Outlet([], false, [], false, [], [], false)
  }

  // ----- the invariant -----

  ghost predicate LateEnough(phase: Phase) {
    phase.Swap? || phase.Draining? || phase.CloseDone?
  }

  /** The terminal error has been put into errs and nothing has been put behind it. */
  ghost predicate TerminalIsLast(s: Session) {
    var log := s.outlet.drained + s.outlet.errs;
    s.terminal.Some? && log != [] && log[|log| - 1] == s.terminal.value
  }

  ghost predicate ControlOk(s: Session) {
    && (s.reader.Resolving? <==> s.table.held.Some?)
    && (s.table.draining != {} ==> s.once.Running? && s.once.phase.Draining?)
    && (s.done <==> s.once.Used?)
    && (s.once.Running? && s.once.byReader ==> s.terminal.Some? && s.reader == Stopping(s.terminal.value))
    && (s.once.Running? && !s.once.byReader ==> LateEnough(s.once.phase))
    && (s.once.Used? && s.once.byReader ==> s.reader.Stopping? || s.reader.Exiting?)
    && (s.reader.Exiting? ==> s.once.Used?)
  }

  ghost predicate OutletOk(s: Session) {
    var o := s.outlet;
    && !o.panicked
    && |o.events| <= s.eventCap && |o.errs| <= ERRS_CAP
    && (o.eventsClosed <==> s.reader.Exiting? && s.reader.closed >= 1)
    && (o.errsClosed <==> s.reader.Exiting? && s.reader.closed >= 2)
    && (s.once.Running? && s.once.phase.Resend? ==> o.errs == [])
    && (s.once.Running? && s.once.byReader && LateEnough(s.once.phase) ==> TerminalIsLast(s))
    && (s.once.Used? && s.once.byReader ==> TerminalIsLast(s))
  }

  ghost predicate Inv(s: Session) {
    PendingTable.Inv(s.table) && ControlOk(s) && OutletOk(s)
  }

  /** The table keeps its invariant in every step. */
  lemma TableNext(s: Session, step: Step, s': Session)
    requires Inv(s) && Next(s, step, s')
    ensures PendingTable.Inv(s'.table)
  {
    hide PendingTable.Inv, PendingTable.Step, PendingTable.Take, PendingTable.Drain, PendingTable.Deliver;
    hide PendingTable.SwapOut, OutletOk, Dispatch;
    match step {
      case CallStep(op) => InvStep(s.table, op, s.done, s'.table);
      case ReadMessage(m) => if Dispatch(m).Resolve? { StepTake(s.table, m); }
      case ReaderStep(preferDone) => if s.reader.Resolving? { StepDeliver(s.table); }
      case ShutdownStep(c) =>
        if s.once.phase.Swap? { StepSwap(s.table); }
        if s.once.phase.Draining? && s.table.draining != {} { StepDrain(s.table, c); }
      case _ =>
    }
  }

  lemma CallControl(s: Session, op: Op, s': Session)
    requires ControlOk(s) && OutletOk(s) && Next(s, CallStep(op), s')
    ensures ControlOk(s') && OutletOk(s')
  {
    assert s'.table.held == s.table.held && s'.table.draining == s.table.draining;
  }

  lemma MessageControl(s: Session, m: Message)
    requires ControlOk(s) && OutletOk(s) && s.reader.Reading?
    ensures ControlOk(Handled(s, m)) && OutletOk(Handled(s, m))
  {
    hide Dispatch;
  }

  lemma ReaderControl(s: Session, preferDone: bool, s': Session)
    requires ControlOk(s) && OutletOk(s) && ReaderNext(s, preferDone, s')
    ensures ControlOk(s') && OutletOk(s')
  {
  }

  /** Shutdown while it reports the terminal error. */
  lemma ReportControl(s: Session, c: nat, s': Session)
    requires ControlOk(s) && OutletOk(s) && ShutdownNext(s, c, s') && !LateEnough(s.once.phase)
    ensures ControlOk(s') && OutletOk(s')
  {
    hide PendingTable.SwapOut, PendingTable.Drain;
    assert s'.table == s.table && s'.terminal == s.terminal && s'.reader == s.reader;
    assert s'.once.Running? && s'.once.byReader == s.once.byReader;
  }

  /** Shutdown while it drains the table and closes `done`. */
  lemma DrainControl(s: Session, c: nat, s': Session)
    requires ControlOk(s) && OutletOk(s) && ShutdownNext(s, c, s') && LateEnough(s.once.phase)
    ensures ControlOk(s') && OutletOk(s')
  {
    assert s'.outlet == s.outlet && s'.terminal == s.terminal && s'.reader == s.reader;
    assert s'.table.held == s.table.held;
  }

  lemma InvNext(s: Session, step: Step, s': Session)
    requires Inv(s) && Next(s, step, s')
    ensures Inv(s')
  {
    hide ReaderNext, Handled, PendingTable.Inv, PendingTable.Step;
    TableNext(s, step, s');
    match step {
      case CallStep(op) => CallControl(s, op, s');
      case ReadMessage(m) => MessageControl(s, m);
      case ReaderStep(preferDone) => ReaderControl(s, preferDone, s');
      case ShutdownStep(c) =>
        if LateEnough(s.once.phase) { DrainControl(s, c, s'); } else { ReportControl(s, c, s'); }
      case ConsumeError =>
        assert s'.outlet.drained + s'.outlet.errs == s.outlet.drained + s.outlet.errs;
      case _ =>
    }
  }

  // ----- runs -----

  ghost predicate Run(ss: seq<Session>, steps: seq<Step>) {
    && |ss| == |steps| + 1
    && Init(ss[0])
    && forall i :: 0 <= i < |steps| ==> Next(ss[i], steps[i], ss[i + 1])
  }

  lemma {:induction false} RunInvariant(ss: seq<Session>, steps: seq<Step>, i: nat)
    requires Run(ss, steps) && i < |ss|
    ensures Inv(ss[i])
  {
    if i > 0 {
      RunInvariant(ss, steps, i - 1);
      InvNext(ss[i - 1], steps[i - 1], ss[i]);
    }
  }

  /**
   In every run each channel has at most one owner among the map, a resolver and shutdown, and receives
   at most one send in its life; each key has one entry and the table never exceeds its limit.
   */
  lemma ChannelsAreOneShot(ss: seq<Session>, steps: seq<Step>, i: nat)
    requires Run(ss, steps) && i < |ss|
    ensures forall c :: 0 <= c < |ss[i].table.chans| ==> Owners(ss[i].table, c) + ss[i].table.chans[c].sends <= 1
    ensures forall key :: key in ss[i].table.pending ==> |ss[i].table.pending[key]| == 1
    ensures Total(ss[i].table.pending) <= ss[i].table.maxPending
  {
    RunInvariant(ss, steps, i);
    forall c | 0 <= c < |ss[i].table.chans| ensures Owners(ss[i].table, c) + ss[i].table.chans[c].sends <= 1 {
      assert ChanOk(ss[i].table, c);
    }
    TotalOfSingletons(ss[i].table.pending);
  }

  /** In every run no send of resolve, of shutdown, or of the terminal error can block. */
  lemma SendsNeverBlock(ss: seq<Session>, steps: seq<Step>, i: nat)
    requires Run(ss, steps) && i < |ss|
    ensures ss[i].reader.Resolving? ==> exists s' :: Next(ss[i], ReaderStep(false), s')
    ensures ss[i].once.Running? ==> exists c, s' :: Next(ss[i], ShutdownStep(c), s')
  {
    RunInvariant(ss, steps, i);
    var s := ss[i];
    if s.reader.Resolving? {
      assert ChanOk(s.table, s.table.held.value.0);
      assert Next(s, ReaderStep(false), s.(table := Deliver(s.table), reader := Reading));
    }
    if s.once.Running? {
      ShutdownProgress(s);
    }
  }

  lemma ShutdownProgress(s: Session)
    requires Inv(s) && s.once.Running?
    ensures exists c, s' :: Next(s, ShutdownStep(c), s')
  {
    var go := (phase: Phase) => Running(s.once.byReader, phase);
    match s.once.phase {
      case CheckDone => assert Next(s, ShutdownStep(0), s.(once := go(TrySend)));
      case TrySend =>
        var s' := if ErrsReady(s.outlet) then s.(outlet := SendError(s.outlet, s.terminal.value), once := go(Swap))
                  else s.(once := go(Discard));
        assert Next(s, ShutdownStep(0), s');
      case Discard =>
        var errs := if s.outlet.errs == [] then [] else s.outlet.errs[1..];
        assert Next(s, ShutdownStep(0), s.(outlet := s.outlet.(errs := errs), once := go(Resend)));
      case Resend =>
        assert Next(s, ShutdownStep(0), s.(outlet := SendError(s.outlet, s.terminal.value), once := go(Swap)));
      case Swap => assert Next(s, ShutdownStep(0), s.(table := SwapOut(s.table), once := go(Draining)));
      case Draining =>
        if s.table.draining == {} {
          assert Next(s, ShutdownStep(0), s.(once := go(CloseDone)));
        } else {
          var c :| c in s.table.draining;
          assert ChanOk(s.table, c);
          assert Next(s, ShutdownStep(c), s.(table := Drain(s.table, c)));
        }
      case CloseDone => assert Next(s, ShutdownStep(0), s.(done := true, once := Used(s.once.byReader)));
    }
  }

  /**
   In every run a call that still waits has either its reply in its channel or exactly one owner that
   will send one, and once `done` is closed it can leave at once.
   */
  lemma WaitersAreNeverLost(ss: seq<Session>, steps: seq<Step>, i: nat, c: nat)
    requires Run(ss, steps) && i < |ss| && c < |ss[i].table.chans|
    requires ss[i].table.chans[c].pc.Waiting?
    ensures Owners(ss[i].table, c) + |ss[i].table.chans[c].buffer| == 1
    ensures ss[i].done ==> exists s' :: Next(ss[i], CallStep(OpSeeDone(c)), s')
  {
    RunInvariant(ss, steps, i);
    assert ChanOk(ss[i].table, c);
    if ss[i].done {
      var s' := ss[i].(table := SetPc(ss[i].table, c, Returned(SawDone)));
      assert Next(ss[i], CallStep(OpSeeDone(c)), s');
    }
  }

  /** In every run a call that gives up forgets no channel but its own, even if its key has been reused. */
  lemma GivingUpForgetsNobodyElse(ss: seq<Session>, steps: seq<Step>, i: nat, c: nat, k: nat)
    requires Run(ss, steps) && i < |steps| && steps[i] == CallStep(OpLeave(c))
    requires k < |ss[i].table.chans| && k != c
    ensures k < |ss[i + 1].table.chans| && ss[i + 1].table.chans[k] == ss[i].table.chans[k]
    ensures InMap(ss[i + 1].table, k) == InMap(ss[i].table, k)
  {
    RunInvariant(ss, steps, i);
    assert Next(ss[i], steps[i], ss[i + 1]);
    LeaveKeepsOthers(ss[i].table, c, k);
  }

  /**
   In every run what a call gets was dispatched to its own key: it has the asserted type, a quote gets
   the requested RFQ id, and with colon-free RFQ ids the other calls get their own ids.
   */
  lemma ResultsBelongToTheirCall(ss: seq<Session>, steps: seq<Step>, i: nat, c: nat, reply: Reply)
    requires Run(ss, steps) && i < |ss| && c < |ss[i].table.chans|
    requires ss[i].table.chans[c].pc == Returned(Got(reply))
    ensures WellTyped(ss[i].table.chans[c].request, reply)
    ensures var r := ss[i].table.chans[c].request;
      !reply.SessionClosed? ==>
        && (r.Quote? ==> ReplyRfq(reply) == r.rfqID)
        && (!r.Quote? && ColonFree(r.rfqID) && ColonFree(ReplyRfq(reply)) ==>
              ReplyRfq(reply) == r.rfqID && ReplyQuote(reply) == r.quoteID)
        && (!r.Quote? && !SplitsElsewhere(r.rfqID, r.quoteID) ==>
              ReplyRfq(reply) == r.rfqID && ReplyQuote(reply) == r.quoteID)
  {
    RunInvariant(ss, steps, i);
    assert ChanOk(ss[i].table, c);
    var r := ss[i].table.chans[c].request;
    RepliesFitTheirCall(r, reply);
    if !reply.SessionClosed? && !r.Quote? {
      if ColonFree(r.rfqID) && ColonFree(ReplyRfq(reply)) { ColonFreeRepliesAreExact(r, reply); }
      CorrelationUniqueIff(r.rfqID, r.quoteID);
    }
  }

  /** A reply taken for a channel stays in the reader's hands until the reader sends it there. */
  lemma HeldStep(s: Session, step: Step, s': Session)
    requires Inv(s) && Next(s, step, s') && s.table.held.Some?
    ensures !step.ReaderStep? ==> s'.table.held == s.table.held
    ensures step.ReaderStep? ==>
      var (c, reply) := s.table.held.value;
      && c < |s'.table.chans| && s'.table.chans[c].buffer == [reply] && s'.table.chans[c].sends == 1
  {
    hide Dispatch, OutletOk, Answers, RequestKey;
    var c := s.table.held.value.0;
    assert ChanOk(s.table, c);
    assert s.table.chans[c].buffer == [] && s.table.chans[c].sends == 0;
    hide ChanOk;
  }

  lemma {:induction false} HeldUntilSent(ss: seq<Session>, steps: seq<Step>, i: nat, j: nat)
    requires Run(ss, steps) && i <= j < |ss| && ss[i].table.held.Some?
    requires forall k :: i <= k < j ==> !steps[k].ReaderStep?
    ensures ss[j].table.held == ss[i].table.held
    decreases j
  {
    hide Next, Inv;
    if i < j {
      HeldUntilSent(ss, steps, i, j - 1);
      RunInvariant(ss, steps, j - 1);
      HeldStep(ss[j - 1], steps[j - 1], ss[j]);
    }
  }

  /**
   In every run a message that answers a registered call, read at `i`, is in that call's channel, alone, after
   the reader's next step, whatever others do in between.
   */
  lemma RepliesReachTheirCall(ss: seq<Session>, steps: seq<Step>, i: nat, j: nat, c: nat, m: Message)
    requires Run(ss, steps) && i < j < |steps| && steps[i] == ReadMessage(m)
    requires c < |ss[i].table.chans| && InMap(ss[i].table, c) && IsReplyTo(m, ss[i].table.chans[c].request)
    requires steps[j].ReaderStep? && forall k :: i < k < j ==> !steps[k].ReaderStep?
    ensures c < |ss[j + 1].table.chans| && ss[j + 1].table.chans[c].buffer == [Content(m)]
  {
    RunInvariant(ss, steps, i);
    assert Next(ss[i], steps[i], ss[i + 1]);
    TakenForItsCall(ss[i], c, m);
    HeldUntilSent(ss, steps, i + 1, j);
    RunInvariant(ss, steps, j);
    HeldStep(ss[j], steps[j], ss[j + 1]);
  }

  lemma TakenForItsCall(s: Session, c: nat, m: Message)
    requires PendingOk(s.table) && c < |s.table.chans| && InMap(s.table, c) && IsReplyTo(m, s.table.chans[c].request)
    ensures Handled(s, m).table.held == Some((c, Content(m)))
  {
    hide Dispatch, RequestKey;
    ReplyIsDispatched(m, s.table.chans[c].request);
  }

  /** In every run nothing is ever sent on a closed output channel. */
  lemma NoSendAfterClose(ss: seq<Session>, steps: seq<Step>, i: nat)
    requires Run(ss, steps) && i < |ss|
    ensures !ss[i].outlet.panicked
  {
    RunInvariant(ss, steps, i);
  }

  /**
   In every run in which the read loop fails first, its error is the last value of the error stream:
   once errs is closed, draining it ends with that error.
   */
  lemma TerminalErrorIsLast(ss: seq<Session>, steps: seq<Step>, i: nat, error: SessionError)
    requires Run(ss, steps) && i < |ss|
    requires ss[i].terminal == Some(error) && ss[i].outlet.errsClosed
    ensures var log := ss[i].outlet.drained + ss[i].outlet.errs;
      log != [] && log[|log| - 1] == error
  {
    RunInvariant(ss, steps, i);
    TerminalMeansReader(ss, steps, i);
  }

  lemma {:induction false} TerminalMeansReader(ss: seq<Session>, steps: seq<Step>, i: nat)
    requires Run(ss, steps) && i < |ss|
    ensures TerminalIsReaders(ss[i])
  {
    if i > 0 {
      TerminalMeansReader(ss, steps, i - 1);
      TerminalStep(ss[i - 1], steps[i - 1], ss[i]);
    }
  }

  /** A recorded terminal error is the one the read loop entered shutdown with. */
  ghost predicate TerminalIsReaders(s: Session) {
    s.terminal.Some? ==> !s.once.Unused? && s.once.byReader
  }

  lemma TerminalStep(s: Session, step: Step, s': Session)
    requires TerminalIsReaders(s) && Next(s, step, s')
    ensures TerminalIsReaders(s')
  {
    hide PendingTable.Step, PendingTable.Take, PendingTable.Drain, PendingTable.Deliver, PendingTable.SwapOut, Dispatch;
  }

  /**
   The map is not always empty after shutdown: shutdown swaps the map before it closes `done`, and a call
   can register in between. Its waiter leaves through `done` (WaitersAreNeverLost).
   */
  lemma LateCallOutlivesShutdown()
    ensures exists ss: seq<Session>, steps: seq<Step> ::
      Run(ss, steps) && ss[|steps|].done && ss[|steps|].table.pending != map[]
  {
    var r := Quote("rfq");
    var t := Table(1, map[], [], None, {});
    var s0 := Session(1, t, Reading, Unused, false, Outlet([], false, [], false, [], [], false), None);
    var s1 := s0.(once := Running(false, Swap));
    var s2 := s1.(table := SwapOut(t), once := Running(false, Draining));
    assert s2.table == t by { assert Registered(map[]) == {}; }
    var s3 := s2.(table := Register(t, r));
    var s4 := s3.(once := Running(false, CloseDone));
    var s5 := s4.(done := true, once := Used(false));
    var ss := [s0, s1, s2, s3, s4, s5];
    var steps := [CloseCalled, ShutdownStep(0), CallStep(OpRegister(r)), ShutdownStep(0), ShutdownStep(0)];
    assert CanRegister(t, r);
    assert Run(ss, steps);
    assert RequestKey(r) in s5.table.pending;
  }
}
