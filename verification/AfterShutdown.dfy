/**
 What the map of pending calls holds once shutdown has swapped it. Calls can still register until `done` is
 closed, and nobody drains them any more: each stays until it is resolved or its own call gives up.
 */
module AfterShutdown {
  import opened RfqMessages
  import opened PendingTable
  import opened RfqSession

  /** The step in which shutdown takes the map and leaves a fresh one. */
  predicate IsSwap(s: Session, step: RfqSession.Step) {
    step.ShutdownStep? && s.once.Running? && s.once.phase.Swap?
  }

  predicate Registers(step: RfqSession.Step) {
    step.CallStep? && step.op.OpRegister?
  }

  /** The step resolves channel `c`, or the call of `c` gives up and removes its own entry. */
  predicate ResolvesOrLeaves(s: Session, step: RfqSession.Step, c: nat) {
    match step
    case CallStep(op) => op == OpLeave(c)
    case ReadMessage(m) =>
      Dispatch(m).Resolve? &&
      var items := Entries(s.table.pending, Dispatch(m).key);
      items != [] && items[0] == c
    case _ => false
  }

  /** Shutdown is past its swap. */
  predicate Swapped(s: Session) {
    s.once.Used? || (s.once.Running? && (s.once.phase.Draining? || s.once.phase.CloseDone?))
  }

  // ----- one step -----

  lemma SwappedStays(s: Session, step: RfqSession.Step, s': Session)
    requires RfqSession.Inv(s) && RfqSession.Next(s, step, s')
    ensures Swapped(s) || IsSwap(s, step) ==> Swapped(s') && (Swapped(s) ==> !IsSwap(s, step))
    ensures s.done ==> s'.done && Swapped(s) && !Registers(step)
    ensures IsSwap(s, step) ==> s'.table.pending == map[] && s'.table.chans == s.table.chans
  {
    hide PendingTable.Inv, OutletOk, Dispatch, Take, Deliver, Drain, Register, Leave, Receive, Registered;
  }

  /** An operation of a call adds its own channel, and takes away at most its own entry. */
  lemma CallMap(t: Table, op: Op, done: bool, t': Table, c: nat)
    requires PendingTable.Inv(t) && PendingTable.Step(t, op, done, t')
    ensures |t'.chans| == |t.chans| + if op.OpRegister? then 1 else 0
    ensures op.OpRegister? ==> InMap(t', |t.chans|)
    ensures c < |t.chans| ==> (InMap(t', c) <==> InMap(t, c) && op != OpLeave(c))
  {
    hide ChanOk, Removed, RequestKey;
    match op {
      case OpRegister(r) => RegisterMap(t, r, c);
      case OpLeave(x) =>
        if c < |t.chans| { LeaveKeepsOthers(t, x, c); }
      case _ =>
    }
  }

  lemma RegisterMap(t: Table, r: Request, c: nat)
    requires PendingOk(t) && CanRegister(t, r)
    ensures InMap(Register(t, r), |t.chans|)
    ensures c < |t.chans| ==> (InMap(Register(t, r), c) <==> InMap(t, c))
  {
    var t' := Register(t, r);
    assert RequestKey(r) !in t.pending;
    assert t'.pending[RequestKey(r)] == [|t.chans|];
    if c < |t.chans| { assert t'.chans[c] == t.chans[c]; }
  }

  lemma TakeMap(t: Table, key: string, reply: Reply, c: nat)
    requires PendingOk(t) && c < |t.chans|
    ensures Take(t, key, reply).chans == t.chans
    ensures InMap(Take(t, key, reply), c) <==>
      InMap(t, c) && !(Entries(t.pending, key) != [] && Entries(t.pending, key)[0] == c)
  {
    if Entries(t.pending, key) != [] {
      var x := t.pending[key][0];
      assert t.pending[key] == [x];
      assert Take(t, key, reply).pending == t.pending - {key};
    }
  }

  /** The map and the requests are as they were. */
  predicate SameMap(t: Table, t': Table) {
    && t'.pending == t.pending && |t'.chans| == |t.chans|
    && forall c :: 0 <= c < |t.chans| ==> t'.chans[c].request == t.chans[c].request
  }

  lemma ReaderMap(s: Session, preferDone: bool, s': Session)
    requires ReaderNext(s, preferDone, s')
    ensures SameMap(s.table, s'.table)
  {
  }

  lemma ShutdownMap(s: Session, c: nat, s': Session)
    requires ShutdownNext(s, c, s') && !s.once.phase.Swap?
    ensures SameMap(s.table, s'.table)
  {
  }

  lemma SameInMap(t: Table, t': Table, c: nat)
    requires SameMap(t, t') && c < |t.chans|
    ensures InMap(t', c) == InMap(t, c)
  {
  }

  /** A message takes away at most the channel it resolves. */
  lemma MessageMap(s: Session, m: Message, c: nat)
    requires PendingOk(s.table)
    ensures |Handled(s, m).table.chans| == |s.table.chans|
    ensures c < |s.table.chans| ==>
      (InMap(Handled(s, m).table, c) <==> InMap(s.table, c) && !ResolvesOrLeaves(s, ReadMessage(m), c))
  {
    hide Dispatch, RequestKey;
    if Dispatch(m).Resolve? && c < |s.table.chans| { TakeMap(s.table, Dispatch(m).key, Dispatch(m).reply, c); }
  }

  /** Past the swap a channel leaves the map only by being resolved or through its own call. */
  lemma MapStep(s: Session, step: RfqSession.Step, s': Session, c: nat)
    requires RfqSession.Inv(s) && RfqSession.Next(s, step, s') && !IsSwap(s, step)
    ensures |s'.table.chans| == |s.table.chans| + if Registers(step) then 1 else 0
    ensures Registers(step) ==> InMap(s'.table, |s.table.chans|)
    ensures c < |s.table.chans| ==> (InMap(s'.table, c) <==> InMap(s.table, c) && !ResolvesOrLeaves(s, step, c))
  {
    assert PendingTable.Inv(s.table) && PendingOk(s.table);
    hide Dispatch, InMap, PendingTable.Inv, PendingTable.Step, PendingOk, ControlOk, OutletOk, Handled, Entries;
    hide ReaderNext, ShutdownNext;
    match step {
      case CallStep(op) => CallMap(s.table, op, s.done, s'.table, c);
      case ReadMessage(m) => MessageMap(s, m, c);
      case ReaderStep(preferDone) =>
        ReaderMap(s, preferDone, s');
        if c < |s.table.chans| { SameInMap(s.table, s'.table, c); }
      case ShutdownStep(k) =>
        ShutdownRuns(s, k, s');
        ShutdownMap(s, k, s');
        if c < |s.table.chans| { SameInMap(s.table, s'.table, c); }
      case _ =>
    }
  }

  lemma ShutdownRuns(s: Session, c: nat, s': Session)
    requires ShutdownNext(s, c, s')
    ensures s.once.Running?
  {
  }

  // ----- runs -----

  lemma {:induction false} SwappedFrom(ss: seq<Session>, steps: seq<RfqSession.Step>, n: nat, j: nat)
    requires Run(ss, steps) && n < j < |ss| && IsSwap(ss[n], steps[n])
    ensures Swapped(ss[j]) && (j < |steps| ==> !IsSwap(ss[j], steps[j]))
    decreases j
  {
    hide Init, RfqSession.Inv, Swapped, IsSwap, RfqSession.Next;
    RunInvariant(ss, steps, j - 1);
    RunInvariant(ss, steps, j);
    if n < j - 1 { SwappedFrom(ss, steps, n, j - 1); }
    SwappedStays(ss[j - 1], steps[j - 1], ss[j]);
    if j < |steps| { SwappedStays(ss[j], steps[j], ss[j + 1]); }
  }

  lemma {:induction false} DoneFrom(ss: seq<Session>, steps: seq<RfqSession.Step>, m: nat, j: nat)
    requires Run(ss, steps) && m <= j < |ss| && ss[m].done
    ensures ss[j].done && (j < |steps| ==> !Registers(steps[j]))
    decreases j
  {
    hide Init, RfqSession.Inv, Swapped, IsSwap, RfqSession.Next;
    if m < j {
      DoneFrom(ss, steps, m, j - 1);
      RunInvariant(ss, steps, j - 1);
      SwappedStays(ss[j - 1], steps[j - 1], ss[j]);
    }
    if j < |steps| {
      RunInvariant(ss, steps, j);
      SwappedStays(ss[j], steps[j], ss[j + 1]);
    }
  }

  /** What was registered before the swap is in the map no more. */
  lemma {:induction false} OldOnesAreGone(ss: seq<Session>, steps: seq<RfqSession.Step>, n: nat, j: nat, c: nat)
    requires Run(ss, steps) && n < j < |ss| && IsSwap(ss[n], steps[n]) && c < |ss[n].table.chans|
    ensures c < |ss[j].table.chans| && !InMap(ss[j].table, c)
    decreases j
  {
    hide Init, RfqSession.Inv, Swapped, IsSwap, RfqSession.Next, ResolvesOrLeaves;
    RunInvariant(ss, steps, j - 1);
    if n < j - 1 {
      OldOnesAreGone(ss, steps, n, j - 1, c);
      SwappedFrom(ss, steps, n, j - 1);
      MapStep(ss[j - 1], steps[j - 1], ss[j], c);
    } else {
      SwappedStays(ss[n], steps[n], ss[j]);
    }
  }

  /** Every channel created after the swap was created by a registration. */
  lemma {:induction false} Birth(ss: seq<Session>, steps: seq<RfqSession.Step>, n: nat, j: nat, c: nat) returns (r: nat)
    requires Run(ss, steps) && n < j < |ss| && IsSwap(ss[n], steps[n])
    requires |ss[n].table.chans| <= c < |ss[j].table.chans|
    ensures n < r < j && Registers(steps[r]) && |ss[r].table.chans| == c
    decreases j
  {
    hide Init, RfqSession.Inv, Swapped, IsSwap, RfqSession.Next, ResolvesOrLeaves, InMap;
    RunInvariant(ss, steps, j - 1);
    SwappedStays(ss[j - 1], steps[j - 1], ss[j]);
    if n < j - 1 {
      SwappedFrom(ss, steps, n, j - 1);
      MapStep(ss[j - 1], steps[j - 1], ss[j], 0);
      if c < |ss[j - 1].table.chans| { r := Birth(ss, steps, n, j - 1, c); } else { r := j - 1; }
    }
  }

  /** Some step after the registration at `r` and before `j` has resolved the call or was its own giving up. */
  ghost predicate GoneSince(ss: seq<Session>, steps: seq<RfqSession.Step>, r: nat, j: nat)
    requires r < |ss| && j <= |steps| && |ss| == |steps| + 1
  {
    exists i :: r < i < j && ResolvesOrLeaves(ss[i], steps[i], |ss[r].table.chans|)
  }

  /** A call registered after the swap is in the map exactly until then. */
  lemma {:induction false} Lifetime(ss: seq<Session>, steps: seq<RfqSession.Step>, n: nat, r: nat, j: nat)
    requires Run(ss, steps) && n < r < j < |ss| && IsSwap(ss[n], steps[n]) && Registers(steps[r])
    ensures |ss[r].table.chans| < |ss[j].table.chans|
    ensures InMap(ss[j].table, |ss[r].table.chans|) <==> !GoneSince(ss, steps, r, j)
    decreases j
  {
    hide Init, RfqSession.Inv, Swapped, IsSwap, RfqSession.Next, ResolvesOrLeaves, InMap;
    var c := |ss[r].table.chans|;
    RunInvariant(ss, steps, j - 1);
    SwappedFrom(ss, steps, n, j - 1);
    MapStep(ss[j - 1], steps[j - 1], ss[j], c);
    if r < j - 1 {
      Lifetime(ss, steps, n, r, j - 1);
      if GoneSince(ss, steps, r, j - 1) {
        var i :| r < i < j - 1 && ResolvesOrLeaves(ss[i], steps[i], c);
        assert GoneSince(ss, steps, r, j);
      } else if ResolvesOrLeaves(ss[j - 1], steps[j - 1], c) {
        assert GoneSince(ss, steps, r, j);
      }
    }
  }

  /**
   In every run, at every moment after shutdown's swap: the map holds only calls that registered after it,
   none of them once `done` was closed, and it is empty exactly when each of them has since been resolved
   or has given up.
   */
  lemma MapAfterShutdown(ss: seq<Session>, steps: seq<RfqSession.Step>, n: nat, j: nat)
    requires Run(ss, steps) && n < j < |ss| && IsSwap(ss[n], steps[n])
    ensures forall key :: key in ss[j].table.pending ==>
      |ss[j].table.pending[key]| == 1 && ss[j].table.pending[key][0] >= |ss[n].table.chans|
    ensures forall r :: n < r < j && Registers(steps[r]) ==> !ss[r].done
    ensures ss[j].table.pending == map[] <==>
      forall r :: n < r < j && Registers(steps[r]) ==> GoneSince(ss, steps, r, j)
  {
    hide Init, RfqSession.Next, Swapped, IsSwap, ResolvesOrLeaves, ChanOk, ControlOk, OutletOk;
    RunInvariant(ss, steps, j);
    var t := ss[j].table;
    forall key | key in t.pending ensures |t.pending[key]| == 1 && t.pending[key][0] >= |ss[n].table.chans| {
      var c := t.pending[key][0];
      assert t.pending[key] == [c] && InMap(t, c);
      if c < |ss[n].table.chans| { OldOnesAreGone(ss, steps, n, j, c); }
    }
    forall r | n < r < j && Registers(steps[r]) ensures !ss[r].done {
      if ss[r].done { DoneFrom(ss, steps, r, r); }
    }
    EmptyIff(ss, steps, n, j);
  }

  lemma EmptyIff(ss: seq<Session>, steps: seq<RfqSession.Step>, n: nat, j: nat)
    requires Run(ss, steps) && n < j < |ss| && IsSwap(ss[n], steps[n]) && PendingOk(ss[j].table)
    ensures ss[j].table.pending == map[] <==>
      forall r :: n < r < j && Registers(steps[r]) ==> GoneSince(ss, steps, r, j)
  {
    hide Init, RfqSession.Next, Swapped, IsSwap, GoneSince;
    var t := ss[j].table;
    if t.pending == map[] {
      forall r | n < r < j && Registers(steps[r]) ensures GoneSince(ss, steps, r, j) { Lifetime(ss, steps, n, r, j); }
    } else {
      var key :| key in t.pending;
      var c := t.pending[key][0];
      assert t.pending[key] == [c] && InMap(t, c);
      if c < |ss[n].table.chans| { OldOnesAreGone(ss, steps, n, j, c); }
      var r := Birth(ss, steps, n, j, c);
      Lifetime(ss, steps, n, r, j);
    }
  }

  /** In every run: if no call registers between the swap and the closing of `done`, the map is empty from then on. */
  lemma EmptyUnlessCalledInBetween(ss: seq<Session>, steps: seq<RfqSession.Step>, n: nat, m: nat, j: nat)
    requires Run(ss, steps) && n < m <= j < |ss| && IsSwap(ss[n], steps[n]) && ss[m].done
    requires forall r :: n < r < m ==> !Registers(steps[r])
    ensures ss[j].table.pending == map[]
  {
    hide Init, RfqSession.Next, IsSwap, GoneSince;
    MapAfterShutdown(ss, steps, n, j);
    forall r | n < r < j ensures !Registers(steps[r]) {
      if m <= r { DoneFrom(ss, steps, m, r); }
    }
  }
}
