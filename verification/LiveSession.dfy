/**
 The session object as the source writes it: a map of channel lists, spliced in place, and two
 bounded output buffers. Each method is run without interruption here and tied to the atomic
 actions of PendingTable; RfqSession interleaves those.
 */
module LiveSession {
  import opened Wrappers
  import opened RfqMessages
  import opened PendingTable
  import RfqSession

  type SessionError = RfqSession.SessionError

  class Session {
    const maxPending: nat
    const eventCap: nat
    var pending: Pending
    var chans: seq<Chan>
    var events: seq<string>
    var errs: seq<SessionError>
    var done: bool
    var closeOnce: bool

    ghost function State(): Table
      reads this
    {
      Table(maxPending, pending, chans, None, {})
    }

    ghost predicate Valid()
      reads this
    {
      && Inv(State())
      && |errs| <= RfqSession.ERRS_CAP && |events| <= eventCap
      && (done <==> closeOnce)
    }

    constructor (maxPending: nat, eventCap: nat)
      ensures Valid() && !done && this.maxPending == maxPending && this.eventCap == eventCap
      ensures pending == map[] && chans == [] && events == [] && errs == []
    {
      this.maxPending, this.eventCap := maxPending, eventCap;
      pending, chans, events, errs, done, closeOnce := map[], [], [], [], false, false;
    }

    /** The number of registered channels, counted over the map in whatever order it yields. */
    method CountPending() returns (count: nat)
      requires Valid()
      ensures count == Total(pending)
    {
      count := 0;
      var rest := pending.Keys;
      while rest != {}
        invariant rest <= pending.Keys
        invariant count + |rest| == |pending.Keys|
      {
        var key :| key in rest;
        count := count + |pending[key]|;
        rest := rest - {key};
      }
      TotalOfSingletons(pending);
      assert |pending.Keys| == |pending|;
    }

    method AddPending(r: Request) returns (res: Result<nat, string>)
      requires Valid() && ValidRequest(r)
      modifies this`pending, this`chans
      ensures Valid()
      ensures res.Ok? <==> !done && CanRegister(old(State()), r)
      ensures res.Ok? <==> !done && RequestKey(r) !in old(pending) && |old(pending)| < maxPending
      ensures State() == if res.Ok? then Register(old(State()), r) else old(State())
      ensures res.Ok? ==> res.value == |old(chans)|
    {
      hide PendingTable.Inv, RequestKey, ValidRequest;
      CanRegisterIff(State(), r);
      var key := RequestKey(r);
      if done {
        return Err("session closed");
      }
      if |Entries(pending, key)| > 0 {
        return Err("operation already pending for correlation key");
      }
      var count := CountPending();
      if count >= maxPending {
        return Err("too many pending requests");
      }
      StepRegister(State(), r);
      var ch := |chans|;
      chans := chans + [Chan(r, [], 0, Writing)];
      pending := pending[key := Entries(pending, key) + [ch]];
      return Ok(ch);
    }

    method RemovePending(key: string, target: nat)
      modifies this`pending
      ensures pending == Removed(old(pending), key, target)
    {
      var items := Entries(pending, key);
      var i := 0;
      while i < |items| && items[i] != target
        invariant i <= |items| && target !in items[..i]
      {
        assert items[..i + 1] == items[..i] + [items[i]];
        i := i + 1;
      }
      RemoveFirstAt(items, i, target);
      if i < |items| {
        items := items[..i] + items[i + 1..];
      }
      if |items| == 0 {
        pending := pending - {key};
      } else {
        pending := pending[key := items];
      }
    }

    /** resolve: the first channel of the key, if any, leaves the map and gets the reply; nothing else changes. */
    method Resolve(m: Message)
      requires Valid() && Dispatch(m).Resolve?
      modifies this`pending, this`chans
      ensures Valid()
      ensures State() == Resolved(old(State()), Dispatch(m).key, Dispatch(m).reply)
      ensures forall c :: 0 <= c < |old(chans)| && InMap(old(State()), c) && IsReplyTo(m, old(chans)[c].request) ==>
        && chans == old(chans)[c := old(chans)[c].(buffer := [Content(m)], sends := 1)]
        && pending == old(pending) - {RequestKey(old(chans)[c].request)}
    {
      hide PendingTable.ChanOk, PendingTable.Resolved, Dispatch, IsReplyTo, RequestKey, InMap;
      EveryReplyIsDelivered(State(), m);
      StepResolve(State(), m);
      EntriesInRange(State(), Dispatch(m).key);
      ResolveKey(Dispatch(m).key, Dispatch(m).reply);
    }

    method ResolveKey(key: string, reply: Reply)
      requires forall c :: c in Entries(pending, key) ==> c < |chans|
      modifies this`pending, this`chans
      ensures State() == Resolved(old(State()), key, reply)
    {
      var items := Entries(pending, key);
      if |items| > 0 {
        assert items[0] in items;
        var left := items[1..];
        if |left| == 0 {
          pending := pending - {key};
        } else {
          pending := pending[key := left];
        }
        chans := chans[items[0] := PendingTable.Push(chans[items[0]], reply)];
      }
    }

    /** push: an event is queued, or the session is told to stop because it is closed or its buffer is full. */
    method Push(event: string) returns (res: Result<(), string>)
      requires Valid()
      modifies this`events
      ensures Valid()
      ensures res.Ok? <==> !done && |old(events)| < eventCap
      ensures events == if res.Ok? then old(events) + [event] else old(events)
    {
      if done {
        return Err("session closed");
      }
      if |events| < eventCap {
        events := events + [event];
        return Ok(());
      }
      return Err("event buffer is full");
    }

    /** reportError: kept if the session is open and there is room, dropped otherwise. */
    method ReportError(error: SessionError)
      requires Valid()
      modifies this`errs
      ensures Valid()
      ensures errs == if !done && old(errs) == [] then [error] else old(errs)
    {
      if done {
        return;
      }
      if |errs| < RfqSession.ERRS_CAP {
        errs := errs + [error];
      }
    }

    /** reportTerminalError: before `done` is closed the terminal error ends up as the newest buffered error. */
    method ReportTerminalError(error: SessionError)
      requires Valid()
      modifies this`errs
      ensures errs == if done then old(errs) else [error]
    {
      if done {
        return;
      }
      if |errs| < RfqSession.ERRS_CAP {
        errs := errs + [error];
        return;
      }
      errs := errs[1..];
      errs := errs + [error];
    }

    /** The inner loop of shutdown: one send per listed channel. */
    method SendClosed(items: seq<nat>)
      requires forall c :: c in items ==> c < |chans|
      requires forall i, j :: 0 <= i < j < |items| ==> items[i] != items[j]
      modifies this`chans
      ensures |chans| == |old(chans)|
      ensures forall c :: 0 <= c < |chans| ==>
        chans[c] == if c in items then PendingTable.Push(old(chans)[c], SessionClosed) else old(chans)[c]
    {
      var i := 0;
      while i < |items|
        invariant i <= |items| && |chans| == |old(chans)|
        invariant forall c :: 0 <= c < |chans| ==>
          chans[c] == if c in items[..i] then PendingTable.Push(old(chans)[c], SessionClosed) else old(chans)[c]
      {
        var ch := items[i];
        assert ch in items && items[..i + 1] == items[..i] + [ch];
        chans := chans[ch := PendingTable.Push(chans[ch], SessionClosed)];
        i := i + 1;
      }
      assert items[..i] == items;
    }

    /** The critical section and the sends of shutdown. */
    method ServePending()
      requires Inv(State())
      modifies this`pending, this`chans
      ensures pending == map[] && |chans| == |old(chans)|
      ensures forall c :: 0 <= c < |chans| ==> chans[c] == Served(old(chans)[c], c in Registered(old(pending)))
    {
      ghost var before := State();
      var taken := pending;
      pending := map[];
      var keys := taken.Keys;
      while keys != {}
        invariant pending == map[] && keys <= taken.Keys
        invariant |chans| == |before.chans|
        invariant forall c :: 0 <= c < |chans| ==>
          chans[c] == Served(before.chans[c], InKeys(taken, taken.Keys - keys, c))
      {
        var key :| key in keys;
        NotServedTwice(before, key, taken.Keys - keys);
        SendClosed(taken[key]);
        OneMoreKey(taken, keys, key);
        keys := keys - {key};
      }
      AllKeys(taken);
    }

    /** shutdown: once only; every call still registered is told, and no channel is sent to twice. */
    method Shutdown(error: Option<SessionError>)
      requires Valid()
      modifies this
      ensures Valid() && done
      ensures old(closeOnce) ==> pending == old(pending) && chans == old(chans) && errs == old(errs)
      ensures !old(closeOnce) ==>
        && pending == map[] && |chans| == |old(chans)|
        && (forall c :: 0 <= c < |chans| ==> chans[c] == Served(old(chans)[c], c in Registered(old(pending))))
        && errs == (if error.Some? then [error.value] else old(errs))
      ensures events == old(events)
    {
      if closeOnce {
        return;
      }
      if error.Some? {
        ReportTerminalError(error.value);
      }
      ghost var before := State();
      ServePending();
      ServedKeepsInv(before, State());
      done, closeOnce := true, true;
    }
  }

  lemma EveryReplyIsDelivered(t: Table, m: Message)
    requires Inv(t) && t.held.None? && Dispatch(m).Resolve?
    ensures forall c :: 0 <= c < |t.chans| && InMap(t, c) && IsReplyTo(m, t.chans[c].request) ==>
      var t' := Resolved(t, Dispatch(m).key, Dispatch(m).reply);
      && t'.chans == t.chans[c := t.chans[c].(buffer := [Content(m)], sends := 1)]
      && t'.pending == t.pending - {RequestKey(t.chans[c].request)}
  {
    hide Inv, Resolved, IsReply, SameKind, RequestKey, InMap, Dispatch;
    forall c | 0 <= c < |t.chans| && InMap(t, c) && IsReplyTo(m, t.chans[c].request)
      ensures var t' := Resolved(t, Dispatch(m).key, Dispatch(m).reply);
        && t'.chans == t.chans[c := t.chans[c].(buffer := [Content(m)], sends := 1)]
        && t'.pending == t.pending - {RequestKey(t.chans[c].request)}
    {
      ReplyIsDelivered(t, c, m);
    }
  }

  lemma EntriesInRange(t: Table, key: string)
    requires PendingOk(t)
    ensures forall c :: c in Entries(t.pending, key) ==> c < |t.chans|
  {
  }

  /** The channel is listed under one of these keys. */
  ghost predicate InKeys(p: Pending, keys: set<string>, c: nat) {
    exists key :: key in keys && key in p && c in p[key]
  }

  function Served(chan: Chan, told: bool): Chan {
    if told then PendingTable.Push(chan, SessionClosed) else chan
  }

  /** A channel is listed under one key only, and once. */
  lemma NotServedTwice(t: Table, key: string, keys: set<string>)
    requires PendingOk(t) && key in t.pending && key !in keys
    ensures |t.pending[key]| == 1
    ensures forall c :: c in t.pending[key] ==> c < |t.chans| && !InKeys(t.pending, keys, c)
  {
    assert t.pending[key] == [t.pending[key][0]];
  }

  lemma OneMoreKey(p: Pending, keys: set<string>, key: string)
    requires key in keys && keys <= p.Keys
    ensures forall c :: InKeys(p, p.Keys - (keys - {key}), c) <==> InKeys(p, p.Keys - keys, c) || c in p[key]
  {
    forall c ensures InKeys(p, p.Keys - (keys - {key}), c) <==> InKeys(p, p.Keys - keys, c) || c in p[key] {
      if c in p[key] { assert key in p.Keys - (keys - {key}); }
    }
  }

  lemma AllKeys(p: Pending)
    ensures forall c :: InKeys(p, p.Keys - {}, c) <==> c in Registered(p)
  {
    forall c ensures InKeys(p, p.Keys - {}, c) <==> c in Registered(p) {
      if c in Registered(p) { var key :| key in p && c in p[key]; }
    }
  }

  /** Telling every registered channel once, and forgetting them all, keeps the invariant. */
  lemma ServedKeepsInv(t: Table, t': Table)
    requires Inv(t) && t.held.None? && t.draining == {}
    requires t' == Table(t.maxPending, map[], t'.chans, None, {}) && |t'.chans| == |t.chans|
    requires forall c :: 0 <= c < |t.chans| ==> t'.chans[c] == Served(t.chans[c], c in Registered(t.pending))
    ensures Inv(t')
  {
    StepSwap(t);
    forall c | 0 <= c < |t'.chans| ensures ChanOk(t', c) {
      assert ChanOk(SwapOut(t), c);
    }
  }
}
