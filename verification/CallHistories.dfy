/** What the outcome of a call and the stream of events tell about the run that produced them. */
module CallHistories {
  import opened RfqMessages
  import opened PendingTable
  import opened RfqSession

  // ----- outcomes -----

  /** The step after which the call of channel `c` is bound to leave with this outcome. */
  predicate Causes(s: Session, step: RfqSession.Step, c: nat, outcome: PendingTable.Outcome) {
    match outcome
    case Got(reply) =>
      && step == CallStep(OpReceive(c)) && c < |s.table.chans|
      && s.table.chans[c].buffer != [] && s.table.chans[c].buffer[0] == reply
    case TimedOut => step == CallStep(OpGiveUp(c, false))
    case Cancelled => step == CallStep(OpGiveUp(c, true))
    case WriteFailed => step == CallStep(OpWritten(c, false))
    case SawDone => step == CallStep(OpSeeDone(c)) && s.done
  }

  /** How one step can leave a call: as it was, or where the step itself puts it. */
  predicate Moved(s: Session, step: RfqSession.Step, pc: CallPc, c: nat) {
    || (c < |s.table.chans| && pc == s.table.chans[c].pc)
    || pc.Writing?
    || (pc.Waiting? && step == CallStep(OpWritten(c, true)))
    || (pc.Leaving? && Causes(s, step, c, pc.why))
    || (pc.Returned? && Causes(s, step, c, pc.outcome) && (pc.outcome.Got? || pc.outcome.SawDone?))
    || (&& pc.Returned? && c < |s.table.chans| && step == CallStep(OpLeave(c))
        && s.table.chans[c].pc == Leaving(pc.outcome))
  }

  lemma CallPcs(s: Session, op: Op, t': Table, c: nat)
    requires PendingTable.Step(s.table, op, s.done, t') && c < |t'.chans|
    ensures Moved(s, CallStep(op), t'.chans[c].pc, c)
  {
    hide RequestKey, Removed, ValidRequest, CanRegister;
  }

  /** Only the calls themselves move: the reader and shutdown touch no call. */
  predicate SamePcs(t: Table, t': Table) {
    |t'.chans| == |t.chans| && forall c :: 0 <= c < |t.chans| ==> t'.chans[c].pc == t.chans[c].pc
  }

  lemma ReaderPcs(s: Session, preferDone: bool, s': Session)
    requires ReaderNext(s, preferDone, s')
    ensures SamePcs(s.table, s'.table)
  {
  }

  lemma ShutdownPcs(s: Session, c: nat, s': Session)
    requires ShutdownNext(s, c, s')
    ensures SamePcs(s.table, s'.table)
  {
  }

  lemma MessagePcs(s: Session, m: Message)
    ensures SamePcs(s.table, Handled(s, m).table)
  {
    hide Dispatch;
  }

  lemma PcStep(s: Session, step: RfqSession.Step, s': Session, c: nat)
    requires RfqSession.Next(s, step, s') && c < |s'.table.chans|
    ensures Moved(s, step, s'.table.chans[c].pc, c)
  {
    hide PendingTable.Step, ReaderNext, ShutdownNext, Handled;
    match step {
      case CallStep(op) => CallPcs(s, op, s'.table, c);
      case ReadMessage(m) => MessagePcs(s, m);
      case ReaderStep(preferDone) => ReaderPcs(s, preferDone, s');
      case ShutdownStep(k) => ShutdownPcs(s, k, s');
      case _ =>
    }
  }

  /** A step before `j` caused this outcome. */
  ghost predicate Caused(ss: seq<Session>, steps: seq<RfqSession.Step>, j: nat, c: nat, outcome: PendingTable.Outcome)
    requires j < |ss| == |steps| + 1
  {
    exists i :: 0 <= i < j && Causes(ss[i], steps[i], c, outcome)
  }

  /** A step before `j` is this one. */
  ghost predicate Took(steps: seq<RfqSession.Step>, j: nat, step: RfqSession.Step)
    requires j <= |steps|
  {
    exists i :: 0 <= i < j && steps[i] == step
  }

  /**
   In every run a call waits only after its frame was written, and returns only what happened to it: the reply
   that was in its channel, its own timeout or cancellation, its failed write, or a closed `done`. After the
   first three kinds of giving up it has removed its own entry.
   */
  lemma {:induction false} OutcomesHaveCauses(ss: seq<Session>, steps: seq<RfqSession.Step>, j: nat, c: nat)
    requires Run(ss, steps) && j < |ss| && c < |ss[j].table.chans|
    ensures var pc := ss[j].table.chans[c].pc;
      && (pc.Waiting? ==> Took(steps, j, CallStep(OpWritten(c, true))))
      && (pc.Leaving? ==> Caused(ss, steps, j, c, pc.why))
      && (pc.Returned? ==> Caused(ss, steps, j, c, pc.outcome))
      && (pc.Returned? && !pc.outcome.Got? && !pc.outcome.SawDone? ==> Took(steps, j, CallStep(OpLeave(c))))
    decreases j
  {
    hide RfqSession.Next, Causes, Init;
    if j == 0 {
      StartsEmpty(ss[0]);
    } else {
      PcStep(ss[j - 1], steps[j - 1], ss[j], c);
      if c < |ss[j - 1].table.chans| {
        OutcomesHaveCauses(ss, steps, j - 1, c);
        CausesCarryOver(ss, steps, j, c);
      }
    }
  }

  lemma StartsEmpty(s: Session)
    requires Init(s)
    ensures s.table.chans == []
  {
  }

  lemma CausesCarryOver(ss: seq<Session>, steps: seq<RfqSession.Step>, j: nat, c: nat)
    requires 0 < j < |ss| == |steps| + 1
    ensures forall outcome :: Caused(ss, steps, j - 1, c, outcome) ==> Caused(ss, steps, j, c, outcome)
    ensures forall step :: Took(steps, j - 1, step) ==> Took(steps, j, step)
  {
    forall outcome | Caused(ss, steps, j - 1, c, outcome) ensures Caused(ss, steps, j, c, outcome) {
      var i :| 0 <= i < j - 1 && Causes(ss[i], steps[i], c, outcome);
    }
  }

  // ----- events -----

  /** The valid event a step reads, if any. */
  function ReadBy(step: RfqSession.Step): seq<string> {
    if step.ReadMessage? && step.message.EventMessage? && step.message.valid then [step.message.event] else []
  }

  /** The valid events among the first `n` steps' messages, in order. */
  function EventsRead(steps: seq<RfqSession.Step>, n: nat): seq<string>
    requires n <= |steps|
  {
    if n == 0 then []
    else EventsRead(steps, n - 1) + ReadBy(steps[n - 1])
  }

  /** The event the reader has read and not yet queued. */
  function InFlight(reader: Reader): seq<string> {
    if reader.PushCheck? || reader.PushSelect? then [reader.event] else []
  }

  function EventLog(s: Session): seq<string> {
    s.outlet.taken + s.outlet.events + InFlight(s.reader)
  }

  /** The reader will not read again. */
  predicate Ending(reader: Reader) {
    reader.Stopping? || reader.Exiting?
  }

  /** The reader queues the event in flight, or drops it because it stops. */
  lemma ReaderLog(s: Session, preferDone: bool, s': Session)
    requires OutletOk(s) && ReaderNext(s, preferDone, s')
    ensures
      || EventLog(s') == EventLog(s)
      || (InFlight(s.reader) != [] && Ending(s'.reader) && EventLog(s') == s.outlet.taken + s.outlet.events)
    ensures Ending(s.reader) ==> Ending(s'.reader)
  {
    hide Deliver;
    var o := s.outlet;
    if s.reader.PushSelect? {
      assert o.taken + (o.events + [s.reader.event]) == o.taken + o.events + [s.reader.event];
    }
  }

  lemma ShutdownLog(s: Session, c: nat, s': Session)
    requires ShutdownNext(s, c, s')
    ensures EventLog(s') == EventLog(s) && s'.reader == s.reader
  {
    hide SwapOut, Drain;
  }

  lemma MessageLog(s: Session, m: Message)
    requires s.reader.Reading?
    ensures EventLog(Handled(s, m)) == EventLog(s) + if m.EventMessage? && m.valid then [m.event] else []
  {
    DispatchOfOthers(m);
    hide Dispatch, Take;
  }

  /** A step adds the event it reads to the log, or drops the one in flight because the reader stops. */
  lemma LogStep(s: Session, step: RfqSession.Step, s': Session)
    requires OutletOk(s) && RfqSession.Next(s, step, s')
    ensures step.ReadMessage? ==> s.reader.Reading?
    ensures step.ReadMessage? ==>
      EventLog(s') == EventLog(s) +
        if step.message.EventMessage? && step.message.valid then [step.message.event] else []
    ensures !step.ReadMessage? ==>
      || EventLog(s') == EventLog(s)
      || (InFlight(s.reader) != [] && Ending(s'.reader) && EventLog(s') == s.outlet.taken + s.outlet.events)
    ensures Ending(s.reader) ==> Ending(s'.reader)
  {
    hide PendingTable.Step, ReaderNext, ShutdownNext, Handled, OutletOk;
    match step {
      case ReadMessage(m) => MessageLog(s, m);
      case ReaderStep(preferDone) => ReaderLog(s, preferDone, s');
      case ShutdownStep(c) => ShutdownLog(s, c, s');
      case ConsumeEvent =>
        var o := s.outlet;
        assert o.taken + [o.events[0]] + o.events[1..] == o.taken + o.events;
      case _ =>
    }
  }

  /** The log is all that was read, except that a reader that has stopped may have dropped the last event. */
  predicate LogOf(s: Session, read: seq<string>) {
    || EventLog(s) == read
    || (Ending(s.reader) && read != [] && EventLog(s) == read[..|read| - 1])
  }

  lemma LogFollows(s: Session, step: RfqSession.Step, s': Session, read: seq<string>)
    requires OutletOk(s) && RfqSession.Next(s, step, s') && LogOf(s, read)
    ensures LogOf(s', read + ReadBy(step))
  {
    LogStep(s, step, s');
    hide RfqSession.Next, OutletOk;
    if !step.ReadMessage? {
      assert read + ReadBy(step) == read;
      if EventLog(s') != EventLog(s) {
        assert EventLog(s)[..|EventLog(s)| - 1] == s.outlet.taken + s.outlet.events;
      }
    }
  }

  lemma StartsSilent(s: Session)
    requires Init(s)
    ensures LogOf(s, [])
  {
  }

  lemma OutletInRun(ss: seq<Session>, steps: seq<RfqSession.Step>, i: nat)
    requires Run(ss, steps) && i < |ss|
    ensures OutletOk(ss[i])
  {
    RunInvariant(ss, steps, i);
  }

  /**
   In every run the consumer gets the valid events in the order they were read, each once: what it has taken,
   what is queued and what is in flight are all that was read, except that a reader that has stopped may have
   dropped the last one.
   */
  lemma {:induction false} EventsComeInOrder(ss: seq<Session>, steps: seq<RfqSession.Step>, j: nat)
    requires Run(ss, steps) && j < |ss|
    ensures LogOf(ss[j], EventsRead(steps, j))
    decreases j
  {
    hide Init, RfqSession.Next, OutletOk, LogOf, ReadBy;
    if j == 0 {
      StartsSilent(ss[0]);
    } else {
      EventsComeInOrder(ss, steps, j - 1);
      OutletInRun(ss, steps, j - 1);
      LogFollows(ss[j - 1], steps[j - 1], ss[j], EventsRead(steps, j - 1));
    }
  }
}
