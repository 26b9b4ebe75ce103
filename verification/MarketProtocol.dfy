/**
 Every interleaving of subscribe, unsubscribe, replay, connection swaps and connection failures.

 `marketMu` is held from the computation of a frame to the end of its write, but the connection
 pointer is loaded once in between and may be swapped or detached by other goroutines at any time,
 so a frame can be written to a connection that is no longer current.
 */
module MarketProtocol {
  import opened Wrappers
  import opened SortedStrings
  import opened MarketCounts

  /** What the server holds for one connection: assets, those with custom features enabled, those asked for a dump. */
  datatype ServerView = ServerView(assets: set<string>, custom: set<string>, dumped: set<string>)

  const EMPTY_VIEW := ServerView({}, {}, {})

  /** The server's reaction to one frame; an absent flag changes nothing. */
  function Deliver(v: ServerView, frame: Frame): ServerView {
    var ids := Elements(frame.ids);
    if frame.operation.Unsubscribe? then ServerView(v.assets - ids, v.custom - ids, v.dumped - ids)
    else ServerView(v.assets + ids,
                    if frame.custom then v.custom + ids else v.custom,
                    if frame.initialDump.Some? then v.dumped + ids else v.dumped)
  }

  /** `replayed` records that a replay has succeeded on this connection. */
  datatype Conn = Conn(view: ServerView, alive: bool, replayed: bool)

  datatype Call =
    | Subscribe(feature: Feature, ids: set<string>)
    | Unsub(feature: Feature, ids: set<string>)
    | Replay

  ghost function CallFrame(c: Counts, call: Call, dump: bool): Option<Frame> {
    match call
    case Subscribe(f, ids) => SubscribeFrame(c, f, ids, dump)
    case Unsub(f, ids) => UnsubscribeFrame(c, f, ids)
    case Replay => ReplayFrame(c, dump)
  }

  /** The counts after a call that succeeds. */
  ghost function CallEffect(c: Counts, call: Call): Counts {
    match call
    case Subscribe(f, ids) => IncrementAll(c, Ascending(ids), f)
    case Unsub(f, ids) => DecrementAll(c, Ascending(ids), f)
    case Replay => c
  }

  /** Who holds the mutex: nobody, or a call about to write its frame to the connection it loaded. */
  datatype Holder = Free | Sending(call: Call, target: Option<nat>)

  datatype World = World(counts: Counts, conns: seq<Conn>, current: Option<nat>, holder: Holder)

  /** A write either succeeds, fails before anything is sent, or kills its connection, perhaps after delivery. */
  datatype Outcome = Delivered | NotSent | Broken(reached: bool)

  datatype Step =
    | Begin(call: Call)
    | Write(outcome: Outcome)
    | Connect
    | Detach
    | Kill(conn: nat)

  ghost predicate Init(w: World) {
    w == World(map[], [], None, Free)
  }

  /** A connection after a replay that had nothing to send. */
  function MarkReplayed(conn: Conn, call: Call): Conn {
    if call.Replay? then conn.(replayed := true) else conn
  }

  /** A connection after the frame of `call` is written to it with the given outcome. */
  function Sent(conn: Conn, frame: Frame, call: Call, outcome: Outcome): Conn {
    var reached := conn.(view := Deliver(conn.view, frame));
    match outcome
    case NotSent => conn
    case Broken(r) => (if r then reached else conn).(alive := false)
    case Delivered => MarkReplayed(reached, call)
  }

  ghost predicate Next(w: World, step: Step, w': World, dump: bool) {
    match step
    case Begin(call) =>
      && w.holder.Free?
      && (w.current.Some? ==> w.current.value < |w.conns|)
      && (if CallFrame(w.counts, call, dump).Some? then w' == w.(holder := Sending(call, w.current))
          else w' == w.(counts := CallEffect(w.counts, call),
                        conns := if w.current.None? then w.conns
                                 else w.conns[w.current.value := MarkReplayed(w.conns[w.current.value], call)]))
    case Write(outcome) =>
      && w.holder.Sending?
      && var frame := CallFrame(w.counts, w.holder.call, dump);
      && frame.Some?
      && (match w.holder.target
          case None => outcome == NotSent && w' == w.(holder := Free)
          case Some(t) =>
            && t < |w.conns|
            && (outcome.Delivered? ==> w.conns[t].alive)
            && w' == w.(holder := Free,
                        counts := if outcome.Delivered? then CallEffect(w.counts, w.holder.call) else w.counts,
                        conns := w.conns[t := Sent(w.conns[t], frame.value, w.holder.call, outcome)]))
    case Connect =>
      w' == w.(conns := w.conns + [Conn(EMPTY_VIEW, true, false)], current := Some(|w.conns|))
    case Detach => w' == w.(current := None)
    case Kill(c) => c < |w.conns| && w' == w.(conns := w.conns[c := w.conns[c].(alive := false)])
  }

  // ----- the invariant -----

  /** The server knows only listed assets; after a replay it knows all of them, with every flag they need. */
  ghost predicate Agrees(c: Counts, conn: Conn) {
    && conn.view.assets <= c.Keys
    && (conn.replayed ==>
          && conn.view.assets == c.Keys
          && (forall id :: CustomActive(c, id) ==> id in conn.view.custom)
          && (forall id :: Count(c, id, OrderBook) > 0 ==> id in conn.view.dumped))
  }

  ghost predicate Inv(w: World) {
    && WellFormed(w.counts)
    && (w.current.Some? ==> w.current.value < |w.conns|)
    && (w.holder.Sending? && w.holder.target.Some? ==> w.holder.target.value < |w.conns|)
    && (w.current.Some? && w.conns[w.current.value].alive ==> Agrees(w.counts, w.conns[w.current.value]))
    // a connection that became current after the holder loaded the pointer has seen no frame yet
    && (w.current.Some? && w.holder.Sending? && w.holder.target != w.current ==>
          w.conns[w.current.value].view == EMPTY_VIEW && !w.conns[w.current.value].replayed)
  }

  lemma AscendingDistinct(ids: set<string>)
    ensures Distinct(Ascending(ids))
    ensures forall id :: id in Ascending(ids) <==> id in ids
  {
    var q := Ascending(ids);
    forall i, j | 0 <= i < j < |q| ensures q[i] != q[j] { LessTotal(q[i], q[j]); }
    assert forall id :: id in q <==> id in Elements(q);
  }

  lemma EffectWellFormed(c: Counts, call: Call)
    requires WellFormed(c)
    ensures WellFormed(CallEffect(c, call))
  {
    if !call.Replay? {
      AscendingDistinct(call.ids);
      IncrementAllCounts(c, Ascending(call.ids), call.feature);
      DecrementAllCounts(c, Ascending(call.ids), call.feature);
    }
  }

  /** The view after a call: its frame if it has one, nothing otherwise. */
  ghost function CallView(c: Counts, call: Call, v: ServerView, dump: bool): ServerView {
    var frame := CallFrame(c, call, dump);
    if frame.Some? then Deliver(v, frame.value) else v
  }

  lemma CustomIffCounted(c: Counts, id: string)
    requires WellFormed(c)
    ensures CustomActive(c, id) <==> exists f: Feature :: f.RequiresCustom() && Count(c, id, f) > 0
  {
    if CustomActive(c, id) {
      var f :| f in c[id] && c[id][f] > 0 && f.RequiresCustom();
      assert Count(c, id, f) > 0;
    }
  }

  ghost function Needed(c: Counts, f: Feature, ids: set<string>): set<string> {
    if c == map[] then ids else set id | id in ids && Missing(c, f, id)
  }

  lemma SubscribeView(c: Counts, f: Feature, ids: set<string>, v: ServerView, dump: bool)
    ensures CallView(c, Subscribe(f, ids), v, dump) ==
            ServerView(v.assets + Needed(c, f, ids),
                       if f.RequiresCustom() then v.custom + Needed(c, f, ids) else v.custom,
                       if f.SupportsInitialDump() then v.dumped + Needed(c, f, ids) else v.dumped)
  {
    var frame := SubscribeFrame(c, f, ids, dump);
    if frame.Some? { assert Elements(frame.value.ids) == Needed(c, f, ids); }
  }

  /** What a subscribe call does not ask for is already in place. */
  lemma NotNeeded(c: Counts, f: Feature, ids: set<string>, id: string)
    requires id in ids && id !in Needed(c, f, ids)
    ensures id in c && (f.RequiresCustom() ==> CustomActive(c, id)) && (f.OrderBook? ==> Count(c, id, f) > 0)
  {
  }

  lemma SubscribeCustom(c: Counts, f: Feature, ids: set<string>, id: string)
    requires WellFormed(c) && CustomActive(CallEffect(c, Subscribe(f, ids)), id)
    ensures CustomActive(c, id) || (f.RequiresCustom() && id in Needed(c, f, ids))
  {
    var d := CallEffect(c, Subscribe(f, ids));
    AscendingDistinct(ids);
    IncrementAllCounts(c, Ascending(ids), f);
    CustomIffCounted(c, id);
    CustomIffCounted(d, id);
    var g: Feature :| g.RequiresCustom() && Count(d, id, g) > 0;
    if Count(c, id, g) == 0 && id !in Needed(c, f, ids) { NotNeeded(c, f, ids, id); }
  }

  lemma SubscribeAgrees(c: Counts, f: Feature, ids: set<string>, conn: Conn, dump: bool)
    requires WellFormed(c) && Agrees(c, conn)
    ensures Agrees(CallEffect(c, Subscribe(f, ids)), conn.(view := CallView(c, Subscribe(f, ids), conn.view, dump)))
  {
    var d := CallEffect(c, Subscribe(f, ids));
    AscendingDistinct(ids);
    IncrementAllCounts(c, Ascending(ids), f);
    SubscribeView(c, f, ids, conn.view, dump);
    assert d.Keys == c.Keys + ids;
    assert c.Keys + ids == c.Keys + Needed(c, f, ids) by {
      forall id | id in ids && id !in Needed(c, f, ids) ensures id in c { NotNeeded(c, f, ids, id); }
    }
    forall id | CustomActive(d, id) ensures CustomActive(c, id) || (f.RequiresCustom() && id in Needed(c, f, ids)) {
      SubscribeCustom(c, f, ids, id);
    }
    forall id | Count(d, id, OrderBook) > 0
      ensures Count(c, id, OrderBook) > 0 || (f.OrderBook? && id in Needed(c, f, ids))
    {
      if id in ids && id !in Needed(c, f, ids) { NotNeeded(c, f, ids, id); }
    }
  }

  lemma UnsubscribeAgrees(c: Counts, f: Feature, ids: set<string>, conn: Conn, dump: bool)
    requires WellFormed(c) && Agrees(c, conn)
    ensures Agrees(CallEffect(c, Unsub(f, ids)), conn.(view := CallView(c, Unsub(f, ids), conn.view, dump)))
  {
    var call := Unsub(f, ids);
    var d, v := CallEffect(c, call), CallView(c, call, conn.view, dump);
    AscendingDistinct(ids);
    DecrementAllCounts(c, Ascending(ids), f);
    var removed := set id | id in ids && LastReference(c, f, id);
    assert UnsubscribeFrame(c, f, ids).Some? ==> Elements(UnsubscribeFrame(c, f, ids).value.ids) == removed;
    UnsubscribeKeys(c, f, ids);
    if conn.replayed {
      forall id | CustomActive(d, id) ensures id in v.custom {
        CustomIffCounted(c, id);
        CustomIffCounted(d, id);
        assert id in d;
      }
      forall id | Count(d, id, OrderBook) > 0 ensures id in v.dumped {
        assert id in d;
      }
    }
  }

  /** The assets that disappear are exactly those whose last reference is dropped. */
  lemma UnsubscribeKeys(c: Counts, f: Feature, ids: set<string>)
    requires WellFormed(c)
    ensures CallEffect(c, Unsub(f, ids)).Keys == c.Keys - set id | id in ids && LastReference(c, f, id)
  {
    var d := CallEffect(c, Unsub(f, ids));
    AscendingDistinct(ids);
    DecrementAllCounts(c, Ascending(ids), f);
    forall id ensures id in d <==> id in c && !(id in ids && LastReference(c, f, id)) {
      ListedIffCounted(c, id);
      ListedIffCounted(d, id);
      if id in c && id in ids && LastReference(c, f, id) {
        forall g ensures Count(d, id, g) == 0 { assert g != f ==> Count(c, id, g) == 0; }
      } else if id in c {
        if Count(c, id, f) != 1 || id !in ids {
          var g :| Count(c, id, g) > 0;
          assert Count(d, id, if Count(c, id, f) > 1 then f else g) > 0;
        } else {
          var g :| g in c[id] && g != f && c[id][g] > 0;
          assert Count(d, id, g) > 0;
        }
      }
    }
  }

  lemma ReplayAgrees(c: Counts, conn: Conn, dump: bool)
    requires WellFormed(c) && Agrees(c, conn)
    ensures Agrees(c, conn.(view := CallView(c, Replay, conn.view, dump), replayed := true))
  {
    if c == map[] {
      assert conn.view.assets == c.Keys;
    } else {
      assert Elements(ReplayFrame(c, dump).value.ids) == c.Keys;
      forall id | Count(c, id, OrderBook) > 0 ensures id in c.Keys {}
    }
  }

  /** A successful call keeps a connection in agreement, and a successful replay puts it in full agreement. */
  lemma CallAgrees(c: Counts, call: Call, conn: Conn, dump: bool)
    requires WellFormed(c) && Agrees(c, conn)
    ensures Agrees(CallEffect(c, call), conn.(view := CallView(c, call, conn.view, dump),
                                              replayed := conn.replayed || call.Replay?))
  {
    match call {
      case Subscribe(f, ids) => SubscribeAgrees(c, f, ids, conn, dump);
      case Unsub(f, ids) => UnsubscribeAgrees(c, f, ids, conn, dump);
      case Replay => ReplayAgrees(c, conn, dump);
    }
  }

  /** `wire` is the frame that was written, if any. */
  datatype Performed = Performed(ok: bool, wire: Option<WireFrame>, counts: Counts, link: Conn)

  /**
   One call made while the connection pointer does not change: at most one frame, the one the counts
   decide, and no effect on the counts when it cannot be sent.
   */
  ghost function Perform(c: Counts, attached: bool, link: Conn, call: Call, outcome: Outcome, dump: bool): Performed {
    var frame := CallFrame(c, call, dump);
    if frame.None? then Performed(true, None, CallEffect(c, call), MarkReplayed(link, call))
    else if !attached then Performed(false, None, c, link)
    else Performed(outcome.Delivered?, Some(Wire(frame.value)), if outcome.Delivered? then CallEffect(c, call) else c,
                   Sent(link, frame.value, call, outcome))
  }

  /** Such a call keeps the client and its server in agreement. */
  lemma PerformAgrees(c: Counts, attached: bool, link: Conn, call: Call, outcome: Outcome, dump: bool)
    requires WellFormed(c) && (attached && link.alive ==> Agrees(c, link))
    requires attached && outcome.Delivered? ==> link.alive
    ensures var r := Perform(c, attached, link, call, outcome, dump);
      WellFormed(r.counts) && (attached && r.link.alive ==> Agrees(r.counts, r.link))
  {
    EffectWellFormed(c, call);
    if attached && link.alive { CallAgrees(c, call, link, dump); }
  }

  // ----- the frames on the wire -----

  /** The three features that need the custom flag. */
  predicate IsCustom(f: Feature) {
    f.BestBidAsk? || f.NewMarkets? || f.MarketResolutions?
  }

  /** Some custom feature of the asset is counted. */
  ghost predicate CustomCounted(c: Counts, id: string) {
    exists f: Feature :: IsCustom(f) && Count(c, id, f) > 0
  }

  /** What the server lacks of a subscription: the asset, its custom flag, or its first order book dump. */
  ghost predicate Lacks(c: Counts, f: Feature, id: string, v: ServerView) {
    || id !in v.assets
    || (IsCustom(f) && !CustomCounted(c, id))
    || (f.OrderBook? && Count(c, id, OrderBook) == 0)
  }

  /**
   The frame of a subscribe call to a server that agrees with the counts: none if the server lacks nothing;
   otherwise the assets it lacks something of, as the typed first frame exactly when the server has no asset
   at all, with the configured dump for order books and the custom flag for custom features only.
   */
  lemma SubscribeWire(c: Counts, f: Feature, ids: set<string>, conn: Conn, dump: bool)
    requires WellFormed(c) && Agrees(c, conn) && conn.replayed
    ensures var frame, lacking := SubscribeFrame(c, f, ids, dump), (set id | id in ids && Lacks(c, f, id, conn.view));
      && (frame.None? <==> lacking == {})
      && (frame.Some? ==>
            var first := conn.view.assets == {};
            Wire(frame.value)
            == WireFrame(if first then "market" else "", if first then "" else "subscribe", Ascending(lacking),
                         if f.OrderBook? then Some(dump) else None, IsCustom(f)))
  {
    var lacking := set id | id in ids && Lacks(c, f, id, conn.view);
    forall id | id in ids ensures id in Needed(c, f, ids) <==> id in lacking {
      CustomIffCounted(c, id);
    }
    assert Needed(c, f, ids) == lacking;
    assert c == map[] <==> c.Keys == {};
  }

  /**
   The frame of an unsubscribe call: none while nothing loses its last reference, otherwise the assets that
   do, and no flag.
   */
  lemma UnsubscribeWire(c: Counts, f: Feature, ids: set<string>, dump: bool)
    requires WellFormed(c)
    ensures var gone, frame := c.Keys - CallEffect(c, Unsub(f, ids)).Keys, CallFrame(c, Unsub(f, ids), dump);
      && (frame.None? <==> gone == {})
      && (frame.Some? ==> Wire(frame.value) == WireFrame("", "unsubscribe", Ascending(gone), None, false))
  {
    UnsubscribeKeys(c, f, ids);
    var removed := set id | id in ids && LastReference(c, f, id);
    forall id | id in removed ensures id in c {
      ListedIffCounted(c, id);
    }
    assert c.Keys - CallEffect(c, Unsub(f, ids)).Keys == removed;
  }

  /** The replay frame: always the typed first frame, with the flags some counted feature needs. */
  lemma ReplayWire(c: Counts, dump: bool)
    requires WellFormed(c)
    ensures var frame := ReplayFrame(c, dump);
      && (frame.None? <==> forall id, f :: Count(c, id, f) == 0)
      && (frame.Some? ==>
            && Wire(frame.value)
               == WireFrame("market", "", Ascending(c.Keys), frame.value.initialDump, frame.value.custom)
            && (frame.value.initialDump == if exists id :: Count(c, id, OrderBook) > 0 then Some(dump) else None)
            && (frame.value.custom <==> exists id :: CustomCounted(c, id)))
  {
    forall id
      ensures (id in c <==> exists f :: Count(c, id, f) > 0) && (CustomActive(c, id) <==> CustomCounted(c, id))
    {
      ListedIffCounted(c, id);
      CustomIffCounted(c, id);
    }
    if c != map[] { var id :| id in c; }
  }

  lemma InvNext(w: World, step: Step, w': World, dump: bool)
    requires Inv(w) && Next(w, step, w', dump)
    ensures Inv(w')
  {
    match step {
      case Begin(call) =>
        EffectWellFormed(w.counts, call);
        if w.current.Some? && w.conns[w.current.value].alive {
          CallAgrees(w.counts, call, w.conns[w.current.value], dump);
        }
      case Write(outcome) =>
        EffectWellFormed(w.counts, w.holder.call);
        if w.current.Some? && w.conns[w.current.value].alive {
          CallAgrees(w.counts, w.holder.call, w.conns[w.current.value], dump);
        }
      case _ =>
    }
  }

  // ----- runs -----

  ghost predicate Run(ws: seq<World>, steps: seq<Step>, dump: bool) {
    && |ws| == |steps| + 1
    && Init(ws[0])
    && forall i :: 0 <= i < |steps| ==> Next(ws[i], steps[i], ws[i + 1], dump)
  }

  lemma {:induction false} RunInvariant(ws: seq<World>, steps: seq<Step>, dump: bool, i: nat)
    requires Run(ws, steps, dump) && i < |ws|
    ensures Inv(ws[i])
  {
    if i > 0 {
      RunInvariant(ws, steps, dump, i - 1);
      InvNext(ws[i - 1], steps[i - 1], ws[i], dump);
    }
  }

  /**
   Over every run: on the live current connection, once a replay has succeeded and after any later
   calls, the server's assets are exactly the locally active ones, and every asset with a live custom
   feature or order book is among those the server was told about.
   */
  lemma ServerAgreesOnEveryRun(ws: seq<World>, steps: seq<Step>, dump: bool, i: nat, c: nat)
    requires Run(ws, steps, dump) && i < |ws|
    requires ws[i].current == Some(c)
    ensures c < |ws[i].conns|
    ensures var conn := ws[i].conns[c];
      conn.alive && conn.replayed ==>
        && conn.view.assets == ws[i].counts.Keys
        && (forall id :: (exists f: Feature :: f.RequiresCustom() && Count(ws[i].counts, id, f) > 0) ==>
              id in conn.view.custom)
        && (forall id :: Count(ws[i].counts, id, OrderBook) > 0 ==> id in conn.view.dumped)
  {
    RunInvariant(ws, steps, dump, i);
    forall id
      ensures CustomActive(ws[i].counts, id) <==>
        exists f: Feature :: f.RequiresCustom() && Count(ws[i].counts, id, f) > 0
    {
      CustomIffCounted(ws[i].counts, id);
    }
  }

  /** Over every run: one delivered replay frame on the current connection establishes exact agreement. */
  lemma ReplayEstablishesAgreement(ws: seq<World>, steps: seq<Step>, dump: bool, i: nat)
    requires Run(ws, steps, dump) && i < |steps|
    requires steps[i] == Write(Delivered) && ws[i].holder == Sending(Replay, ws[i].current)
    ensures ws[i + 1].current.Some? && ws[i + 1].current.value < |ws[i + 1].conns|
    ensures ws[i + 1].conns[ws[i + 1].current.value].view.assets == ws[i].counts.Keys == ws[i + 1].counts.Keys
    ensures ws[i + 1].conns[ws[i + 1].current.value].replayed
  {
    RunInvariant(ws, steps, dump, i);
    RunInvariant(ws, steps, dump, i + 1);
  }

  lemma ReplayedPersists(w: World, step: Step, w': World, dump: bool, c: nat)
    requires Next(w, step, w', dump) && c < |w.conns| && w.conns[c].replayed
    ensures c < |w'.conns| && w'.conns[c].replayed
  {
  }

  /** Over every run: agreement on a live connection is lost only by losing the connection, never by a call. */
  lemma AgreementPersists(ws: seq<World>, steps: seq<Step>, dump: bool, i: nat, j: nat, c: nat)
    requires Run(ws, steps, dump) && i <= j < |ws|
    requires c < |ws[i].conns| && ws[i].conns[c].replayed
    ensures c < |ws[j].conns| && ws[j].conns[c].replayed
    ensures ws[j].current == Some(c) && ws[j].conns[c].alive ==> ws[j].conns[c].view.assets == ws[j].counts.Keys
    decreases j
  {
    if i < j {
      AgreementPersists(ws, steps, dump, i, j - 1, c);
      ReplayedPersists(ws[j - 1], steps[j - 1], ws[j], dump, c);
    }
    RunInvariant(ws, steps, dump, j);
  }

  /** Nothing but the write of the holder's own frame changes the counts or frees the mutex. */
  lemma HeldStep(w: World, step: Step, w': World, dump: bool)
    requires Next(w, step, w', dump) && w.holder.Sending? && !step.Write?
    ensures w'.counts == w.counts && w'.holder == w.holder
  {
  }

  lemma {:induction false} HeldUntilWrite(ws: seq<World>, steps: seq<Step>, dump: bool, i: nat, j: nat)
    requires Run(ws, steps, dump) && i <= j < |ws| && ws[i].holder.Sending?
    requires forall k :: i <= k < j ==> !steps[k].Write?
    ensures ws[j].counts == ws[i].counts && ws[j].holder == ws[i].holder
    decreases j
  {
    if i < j {
      HeldUntilWrite(ws, steps, dump, i, j - 1);
      HeldStep(ws[j - 1], steps[j - 1], ws[j], dump);
    }
  }

  /**
   Over every run: a call that begins at `i` and whose frame is written at `j`, whatever connects, detaches
   and dies in between, applies its whole effect to the counts it began with if the write succeeds, and
   leaves every count as it was if it fails.
   */
  lemma FailedSendKeepsCounts(ws: seq<World>, steps: seq<Step>, dump: bool, i: nat, j: nat)
    requires Run(ws, steps, dump) && i < j < |steps|
    requires steps[i].Begin? && ws[i + 1].holder.Sending?
    requires steps[j].Write? && forall k :: i < k < j ==> !steps[k].Write?
    ensures steps[j].outcome != Delivered ==> ws[j + 1].counts == ws[i].counts
    ensures steps[j].outcome == Delivered ==> ws[j + 1].counts == CallEffect(ws[i].counts, steps[i].call)
    ensures ws[j].holder == Sending(steps[i].call, ws[i].current) && ws[j + 1].holder == Free
  {
    hide CallFrame, CallEffect;
    assert Next(ws[i], steps[i], ws[i + 1], dump);
    HeldUntilWrite(ws, steps, dump, i + 1, j);
    assert Next(ws[j], steps[j], ws[j + 1], dump);
  }
}
