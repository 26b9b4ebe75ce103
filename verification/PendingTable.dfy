/**
 The table of pending calls: one-shot channels of capacity 1 registered under correlation keys.
 Each operation is one critical section of `pendingMu` or one channel operation.
 */
module PendingTable {
  import opened Wrappers
  import opened RfqMessages

  /** How a call left, or where it is. */
  datatype Outcome = Got(reply: Reply) | TimedOut | Cancelled | WriteFailed | SawDone

  datatype CallPc = Writing | Waiting | Leaving(why: Outcome) | Returned(outcome: Outcome)

  /** One registered channel with the call that waits on it; `sends` counts the sends it has received. */
  datatype Chan = Chan(request: Request, buffer: seq<Reply>, sends: nat, pc: CallPc)

  type Pending = map<string, seq<nat>>

  /**
   `held` is the channel the read loop has taken from the map and is about to send on;
   `draining` are those shutdown has taken and not served yet. Channels are numbered by creation.
   */
  datatype Table = Table(maxPending: nat, pending: Pending, chans: seq<Chan>,
                         held: Option<(nat, Reply)>, draining: set<nat>)

  function Entries(p: Pending, key: string): seq<nat> {
    if key in p then p[key] else []
  }

  /** The number of registered channels over all keys. */
  ghost function Total(p: Pending): nat {
    if p == map[] then 0
    else
      var key :| key in p;
      |p[key]| + Total(p - {key})
  }

  function RemoveFirst(items: seq<nat>, c: nat): seq<nat> {
    if items == [] then []
    else if items[0] == c then items[1..]
    else [items[0]] + RemoveFirst(items[1..], c)
  }

  /** The first occurrence is the one removed. */
  lemma {:induction false} RemoveFirstAt(items: seq<nat>, i: nat, c: nat)
    requires i <= |items| && c !in items[..i] && (i < |items| ==> items[i] == c)
    ensures RemoveFirst(items, c) == if i < |items| then items[..i] + items[i + 1..] else items
  {
    if i > 0 {
      assert items[0] == items[..i][0];
      assert items[1..][..i - 1] == items[..i][1..];
      RemoveFirstAt(items[1..], i - 1, c);
    }
  }

  // ----- operations -----

  function Store(p: Pending, key: string, items: seq<nat>): Pending {
    if items == [] then p - {key} else p[key := items]
  }

  ghost predicate CanRegister(t: Table, r: Request) {
    Entries(t.pending, RequestKey(r)) == [] && Total(t.pending) < t.maxPending
  }

  ghost function Register(t: Table, r: Request): Table {
    t.(pending := t.pending[RequestKey(r) := Entries(t.pending, RequestKey(r)) + [|t.chans|]],
       chans := t.chans + [Chan(r, [], 0, Writing)])
  }

  /** removePending: forget one channel, if it is still registered under its key. */
  function Removed(p: Pending, key: string, c: nat): Pending {
    Store(p, key, RemoveFirst(Entries(p, key), c))
  }

  /** The critical section of resolve: take the first channel of the key, if there is one. */
  function Take(t: Table, key: string, reply: Reply): Table {
    var items := Entries(t.pending, key);
    if items == [] then t
    else t.(pending := Store(t.pending, key, items[1..]), held := Some((items[0], reply)))
  }

  function Push(chan: Chan, reply: Reply): Chan {
    chan.(buffer := chan.buffer + [reply], sends := chan.sends + 1)
  }

  /** The send of resolve. */
  function Deliver(t: Table): Table
    requires t.held.Some? && t.held.value.0 < |t.chans|
  {
    var (c, reply) := t.held.value;
    t.(chans := t.chans[c := Push(t.chans[c], reply)], held := None)
  }

  /** resolve as a whole: its critical section and then its send, if it found a channel. */
  function Resolved(t: Table, key: string, reply: Reply): Table {
    var taken := Take(t, key, reply);
    if taken.held.Some? && taken.held.value.0 < |taken.chans| then Deliver(taken) else taken
  }

  function Registered(p: Pending): set<nat> {
    set key, c | key in p && c in p[key] :: c
  }

  /** The critical section of shutdown: take the whole map and leave a fresh one. */
  function SwapOut(t: Table): Table {
    t.(pending := map[], draining := t.draining + Registered(t.pending))
  }

  /** One send of shutdown. */
  function Drain(t: Table, c: nat): Table
    requires c < |t.chans|
  {
    t.(chans := t.chans[c := Push(t.chans[c], SessionClosed)], draining := t.draining - {c})
  }

  function SetPc(t: Table, c: nat, pc: CallPc): Table
    requires c < |t.chans|
  {
    t.(chans := t.chans[c := t.chans[c].(pc := pc)])
  }

  function Receive(t: Table, c: nat): Table
    requires c < |t.chans| && t.chans[c].buffer != []
  {
    var chan := t.chans[c];
    t.(chans := t.chans[c := chan.(buffer := chan.buffer[1..], pc := Returned(Got(chan.buffer[0])))])
  }

  function Leave(t: Table, c: nat): Table
    requires c < |t.chans| && t.chans[c].pc.Leaving?
  {
    var chan := t.chans[c];
    t.(pending := Removed(t.pending, RequestKey(chan.request), c),
       chans := t.chans[c := chan.(pc := Returned(chan.pc.why))])
  }

  datatype Op =
    | OpRegister(request: Request)
    | OpWritten(c: nat, ok: bool)
    | OpReceive(c: nat)
    | OpGiveUp(c: nat, cancelled: bool)
    | OpSeeDone(c: nat)
    | OpLeave(c: nat)

  /** One atomic action of a call; `done` tells whether the session's done channel is closed. */
  ghost predicate Step(t: Table, op: Op, done: bool, t': Table) {
    match op
    case OpRegister(r) => ValidRequest(r) && !done && CanRegister(t, r) && t' == Register(t, r)
    case OpWritten(c, ok) =>
      c < |t.chans| && t.chans[c].pc.Writing? && t' == SetPc(t, c, if ok then Waiting else Leaving(WriteFailed))
    case OpReceive(c) => c < |t.chans| && t.chans[c].pc.Waiting? && t.chans[c].buffer != [] && t' == Receive(t, c)
    case OpGiveUp(c, cancelled) =>
      c < |t.chans| && t.chans[c].pc.Waiting? && t' == SetPc(t, c, Leaving(if cancelled then Cancelled else TimedOut))
    case OpSeeDone(c) => c < |t.chans| && t.chans[c].pc.Waiting? && done && t' == SetPc(t, c, Returned(SawDone))
    case OpLeave(c) => c < |t.chans| && t.chans[c].pc.Leaving? && t' == Leave(t, c)
  }

  // ----- the invariant -----

  function OneIf(b: bool): nat { if b then 1 else 0 }

  predicate InMap(t: Table, c: nat)
    requires c < |t.chans|
  {
    var key := RequestKey(t.chans[c].request);
    key in t.pending && t.pending[key] == [c]
  }

  /** How many of {map, resolver, shutdown} own the channel. */
  function Owners(t: Table, c: nat): nat
    requires c < |t.chans|
  {
    OneIf(InMap(t, c)) + OneIf(t.held.Some? && t.held.value.0 == c) + OneIf(c in t.draining)
  }

  ghost predicate PendingOk(t: Table) {
    forall key :: key in t.pending ==>
      && |t.pending[key]| == 1
      && t.pending[key][0] < |t.chans|
      && RequestKey(t.chans[t.pending[key][0]].request) == key
  }

  ghost predicate ChanOk(t: Table, c: nat)
    requires c < |t.chans|
  {
    var chan := t.chans[c];
    && ValidRequest(chan.request)
    && Owners(t, c) + chan.sends <= 1
    && |chan.buffer| <= chan.sends
    && (forall reply :: reply in chan.buffer ==> Answers(chan.request, reply))
    && (chan.pc.Returned? && chan.pc.outcome.Got? ==> Answers(chan.request, chan.pc.outcome.reply))
    && (chan.pc.Leaving? ==> !chan.pc.why.Got?)
    // a call still waiting has not been forgotten: someone owns its channel or its reply is there
    && (chan.pc.Writing? || chan.pc.Waiting? ==> Owners(t, c) + |chan.buffer| == 1)
  }

  ghost predicate Inv(t: Table) {
    && PendingOk(t)
    && |t.pending| <= t.maxPending
    && (t.held.Some? ==> t.held.value.0 < |t.chans| && Answers(t.chans[t.held.value.0].request, t.held.value.1))
    && (forall c :: c in t.draining ==> c < |t.chans|)
    && (forall c :: 0 <= c < |t.chans| ==> ChanOk(t, c))
  }

  lemma {:induction false} TotalOfSingletons(p: Pending)
    requires forall key :: key in p ==> |p[key]| == 1
    ensures Total(p) == |p|
  {
    if p != map[] {
      var key :| key in p && Total(p) == |p[key]| + Total(p - {key});
      TotalOfSingletons(p - {key});
      assert |p - {key}| == |p| - 1 by {
        assert (p - {key}).Keys == p.Keys - {key};
        assert |p.Keys| == |p| && |(p - {key}).Keys| == |p - {key}|;
      }
    }
  }

  /** A call may register exactly when its key is free and fewer than maxPending keys are taken. */
  lemma CanRegisterIff(t: Table, r: Request)
    requires Inv(t)
    ensures CanRegister(t, r) <==> RequestKey(r) !in t.pending && |t.pending| < t.maxPending
  {
    hide RequestKey;
    TotalOfSingletons(t.pending);
  }

  lemma StepRegister(t: Table, r: Request)
    requires Inv(t) && ValidRequest(r) && CanRegister(t, r)
    ensures Inv(Register(t, r))
  {
    hide ChanOk;
    var t' := Register(t, r);
    TotalOfSingletons(t.pending);
    assert RequestKey(r) !in t.pending;
    assert |t'.pending| == |t.pending| + 1 by {
      assert t'.pending.Keys == t.pending.Keys + {RequestKey(r)};
      assert |t'.pending.Keys| == |t'.pending| && |t.pending.Keys| == |t.pending|;
    }
    forall c | 0 <= c < |t'.chans| ensures ChanOk(t', c) {
      if c < |t.chans| { assert ChanOk(t, c); }
      RegisterChan(t, r, c);
    }
  }

  /** After a registration every older channel is as it was, and the new one is owned by the map. */
  lemma RegisterChan(t: Table, r: Request, c: nat)
    requires PendingOk(t) && ValidRequest(r) && RequestKey(r) !in t.pending && c <= |t.chans|
    requires c < |t.chans| ==> ChanOk(t, c)
    requires t.held.Some? ==> t.held.value.0 < |t.chans|
    requires forall k :: k in t.draining ==> k < |t.chans|
    ensures ChanOk(Register(t, r), c)
  {
    hide RequestKey;
    var t' := Register(t, r);
    assert t'.pending[RequestKey(r)] == [|t.chans|];
    if c < |t.chans| {
      assert t'.chans[c] == t.chans[c];
      assert InMap(t', c) == InMap(t, c);
    }
  }

  /** Any operation that changes only channel `c`, keeps its request and its owners, and leaves it in order. */
  lemma StepOne(t: Table, c: nat, t': Table)
    requires Inv(t) && c < |t.chans| == |t'.chans|
    requires t' == t.(chans := t.chans[c := t'.chans[c]])
    requires t'.chans[c].request == t.chans[c].request
    requires ChanOk(t', c)
    ensures Inv(t')
  {
    forall k | 0 <= k < |t'.chans| ensures ChanOk(t', k) {
      if k != c {
        assert ChanOk(t, k);
        assert InMap(t', k) == InMap(t, k);
      }
    }
  }

  lemma StepCall(t: Table, op: Op, done: bool, t': Table)
    requires Inv(t) && Step(t, op, done, t')
    requires op.OpWritten? || op.OpReceive? || op.OpGiveUp? || op.OpSeeDone?
    ensures Inv(t')
  {
    assert ChanOk(t, op.c);
    assert InMap(t', op.c) == InMap(t, op.c);
    StepOne(t, op.c, t');
  }

  /** Giving up touches no other channel and no other entry. */
  lemma LeaveKeepsOthers(t: Table, c: nat, k: nat)
    requires PendingOk(t) && c < |t.chans| && t.chans[c].pc.Leaving? && k < |t.chans|
    ensures InMap(Leave(t, c), k) == (InMap(t, k) && k != c)
  {
    RemoveSingle(t, RequestKey(t.chans[c].request), c);
  }

  lemma StepLeave(t: Table, c: nat)
    requires Inv(t) && c < |t.chans| && t.chans[c].pc.Leaving?
    ensures Inv(Leave(t, c))
  {
    hide Removed;
    RemoveSingle(t, RequestKey(t.chans[c].request), c);
    if InMap(t, c) {
      LeaveRegistered(t, c);
    } else {
      LeaveKeepsOthers(t, c, c);
      assert ChanOk(t, c);
      StepOne(t, c, Leave(t, c));
    }
  }

  /** Giving up while still registered deletes one entry of the map. */
  lemma LeaveRegistered(t: Table, c: nat)
    requires Inv(t) && c < |t.chans| && t.chans[c].pc.Leaving? && InMap(t, c)
    ensures Inv(Leave(t, c))
  {
    hide ChanOk, Removed;
    var t' := Leave(t, c);
    RemoveSingle(t, RequestKey(t.chans[c].request), c);
    SubmapSize(t.pending, t'.pending);
    forall k | 0 <= k < |t'.chans| ensures ChanOk(t', k) {
      assert ChanOk(t, k);
      LeaveChan(t, c, k);
    }
  }

  lemma LeaveChan(t: Table, c: nat, k: nat)
    requires PendingOk(t) && c < |t.chans| && k < |t.chans| && t.chans[c].pc.Leaving?
    requires ChanOk(t, k) && InMap(t, c)
    ensures ChanOk(Leave(t, c), k)
  {
    LeaveKeepsOthers(t, c, k);
    hide Removed, Answers, ValidRequest;
  }

  /** Removing a channel deletes its own entry, or nothing when a newer call has taken the key. */
  lemma RemoveSingle(t: Table, key: string, c: nat)
    requires PendingOk(t)
    ensures Removed(t.pending, key, c)
         == if key in t.pending && t.pending[key] == [c] then t.pending - {key} else t.pending
  {
    if key in t.pending {
      var items := t.pending[key];
      assert items == [items[0]];
      assert RemoveFirst(items, c) == if items[0] == c then [] else items;
      assert t.pending[key := items] == t.pending;
    } else {
      assert t.pending - {key} == t.pending;
    }
  }

  lemma SubmapSize(p: Pending, q: Pending)
    requires q.Keys <= p.Keys
    ensures |q| <= |p|
  {
    SubsetSize(q.Keys, p.Keys);
    assert |q.Keys| == |q| && |p.Keys| == |p|;
  }

  lemma {:induction false} SubsetSize<T>(a: set<T>, b: set<T>)
    requires a <= b
    ensures |a| <= |b|
  {
    if a != {} {
      var x :| x in a;
      SubsetSize(a - {x}, b - {x});
    }
  }

  lemma StepTake(t: Table, m: Message)
    requires Inv(t) && t.held.None? && Dispatch(m).Resolve?
    ensures Inv(Take(t, Dispatch(m).key, Dispatch(m).reply))
  {
    var key, reply := Dispatch(m).key, Dispatch(m).reply;
    var t' := Take(t, key, reply);
    if Entries(t.pending, key) != [] {
      var c := t.pending[key][0];
      assert t.pending[key] == [c];
      assert t'.pending == t.pending - {key};
      assert Answers(t.chans[c].request, reply);
      SubmapSize(t.pending, t'.pending);
      forall k | 0 <= k < |t'.chans| ensures ChanOk(t', k) {
        assert ChanOk(t, k);
        assert InMap(t', k) == (InMap(t, k) && k != c);
      }
    }
  }

  lemma StepDeliver(t: Table)
    requires Inv(t) && t.held.Some?
    ensures Inv(Deliver(t))
  {
    var (c, reply) := t.held.value;
    var t' := Deliver(t);
    assert ChanOk(t, c);
    forall k | 0 <= k < |t'.chans| ensures ChanOk(t', k) {
      assert ChanOk(t, k);
      assert InMap(t', k) == InMap(t, k);
    }
  }

  lemma StepResolve(t: Table, m: Message)
    requires Inv(t) && t.held.None? && Dispatch(m).Resolve?
    ensures Inv(Resolved(t, Dispatch(m).key, Dispatch(m).reply))
  {
    StepTake(t, m);
    var taken := Take(t, Dispatch(m).key, Dispatch(m).reply);
    if taken.held.Some? { StepDeliver(taken); }
  }

  /**
   Resolving a message that answers a registered call puts exactly its content into that call's channel, takes
   the channel out of the map, and touches no other channel and no other entry.
   */
  lemma ReplyIsDelivered(t: Table, c: nat, m: Message)
    requires Inv(t) && t.held.None? && c < |t.chans| && InMap(t, c) && IsReplyTo(m, t.chans[c].request)
    ensures var t' := Resolved(t, Dispatch(m).key, Dispatch(m).reply);
      && t'.chans == t.chans[c := t.chans[c].(buffer := [Content(m)], sends := 1)]
      && t'.pending == t.pending - {RequestKey(t.chans[c].request)}
  {
    hide RequestKey, Dispatch, Answers;
    assert ChanOk(t, c);
    assert t.chans[c].buffer == [] && t.chans[c].sends == 0;
    assert Push(t.chans[c], Content(m)) == t.chans[c].(buffer := [Content(m)], sends := 1);
    ReplyIsDispatched(m, t.chans[c].request);
    assert Removed(t.pending, RequestKey(t.chans[c].request), c) == t.pending - {RequestKey(t.chans[c].request)} by {
      RemoveSingle(t, RequestKey(t.chans[c].request), c);
    }
  }

  /** A reply to a key that nobody waits under changes nothing. */
  lemma UnexpectedReplyChangesNothing(t: Table, m: Message)
    requires PendingOk(t) && t.held.None? && IsReply(m) && Dispatch(m).Resolve?
    requires forall c :: 0 <= c < |t.chans| && InMap(t, c) ==> RequestKey(t.chans[c].request) != Dispatch(m).key
    ensures Resolved(t, Dispatch(m).key, Dispatch(m).reply) == t
  {
    hide RequestKey, Dispatch;
  }

  lemma StepSwap(t: Table)
    requires Inv(t)
    ensures Inv(SwapOut(t))
  {
    var t' := SwapOut(t);
    forall c | c in Registered(t.pending) ensures c < |t.chans| && InMap(t, c) {
      var key :| key in t.pending && c in t.pending[key];
      assert t.pending[key] == [c];
    }
    forall k | 0 <= k < |t'.chans| ensures ChanOk(t', k) {
      assert ChanOk(t, k);
      assert InMap(t, k) <==> k in Registered(t.pending) by {
        if InMap(t, k) { assert k in t.pending[RequestKey(t.chans[k].request)]; }
      }
    }
  }

  lemma StepDrain(t: Table, c: nat)
    requires Inv(t) && c in t.draining
    ensures Inv(Drain(t, c))
  {
    var t' := Drain(t, c);
    assert ChanOk(t, c);
    forall k | 0 <= k < |t'.chans| ensures ChanOk(t', k) {
      assert ChanOk(t, k);
      assert InMap(t', k) == InMap(t, k);
    }
  }

  /** Every action of a call keeps the invariant. */
  lemma InvStep(t: Table, op: Op, done: bool, t': Table)
    requires Inv(t) && Step(t, op, done, t')
    ensures Inv(t')
  {
    match op {
      case OpRegister(r) => StepRegister(t, r);
      case OpLeave(c) => StepLeave(t, c);
      case _ => StepCall(t, op, done, t');
    }
  }
}
