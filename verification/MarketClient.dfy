/**
 The market-channel client and its subscription state as the source writes them: nested maps counted
 up and down in place, id lists built in loops. Each method is tied to the values of MarketCounts.
 */
module MarketClient {
  import opened Wrappers
  import opened Text
  import opened SortedStrings
  import opened MarketCounts
  import opened MarketProtocol

  class SubscriptionState {
    var assets: Counts

    constructor ()
      ensures assets == map[]
    {
      assets := map[];
    }

    method Increment(id: string, f: Feature)
      modifies this
      ensures assets == MarketCounts.Increment(old(assets), id, f)
    {
      var refs: Refs := map[];
      if id in assets {
        refs := assets[id];
      }
      var n: nat := if f in refs then refs[f] else 0;
      refs := refs[f := n + 1];
      assets := assets[id := refs];
    }

    method Decrement(id: string, f: Feature)
      modifies this
      ensures assets == MarketCounts.Decrement(old(assets), id, f)
    {
      if id !in assets || f !in assets[id] || assets[id][f] == 0 {
        return;
      }
      var refs := assets[id];
      if refs[f] == 1 {
        refs := refs - {f};
      } else {
        refs := refs[f := refs[f] - 1];
      }
      assert refs == Lowered(assets[id], f);
      if refs == map[] {
        assets := assets - {id};
      } else {
        assets := assets[id := refs];
      }
    }

    method IncrementEach(ids: seq<string>, f: Feature)
      modifies this
      ensures assets == IncrementAll(old(assets), ids, f)
    {
      var n := 0;
      while n < |ids|
        invariant n <= |ids|
        invariant assets == IncrementAll(old(assets), ids[..n], f)
      {
        assert ids[..n + 1][..n] == ids[..n];
        Increment(ids[n], f);
        n := n + 1;
      }
      assert ids[..n] == ids;
    }

    method DecrementEach(ids: seq<string>, f: Feature)
      modifies this
      ensures assets == DecrementAll(old(assets), ids, f)
    {
      var n := 0;
      while n < |ids|
        invariant n <= |ids|
        invariant assets == DecrementAll(old(assets), ids[..n], f)
      {
        assert ids[..n + 1][..n] == ids[..n];
        Decrement(ids[n], f);
        n := n + 1;
      }
      assert ids[..n] == ids;
    }

    /** The three lists a subscribe call builds, merged: every listed asset that is missing something. */
    method MissingIDs(f: Feature, ids: seq<string>) returns (frameIDs: seq<string>, needsDump: bool)
      requires forall id :: id in ids ==> id != "" && TrimSpace(id) == id
      requires WellFormed(assets)
      ensures frameIDs == Ascending(set id | id in ids && Missing(assets, f, id))
      ensures needsDump <==> exists id :: id in ids && f.SupportsInitialDump() && Count(assets, id, f) == 0
    {
      var newIDs: seq<string>, initialDumpIDs: seq<string>, customEnableIDs: seq<string> := [], [], [];
      var n := 0;
      while n < |ids|
        invariant n <= |ids|
        invariant forall x :: x in newIDs <==> x in ids[..n] && x !in assets
        invariant forall x :: x in initialDumpIDs <==>
          x in ids[..n] && f.SupportsInitialDump() && Count(assets, x, f) == 0
        invariant forall x :: x in customEnableIDs <==> x in ids[..n] && f.RequiresCustom() && !CustomActive(assets, x)
      {
        var id := ids[n];
        assert ids[..n + 1] == ids[..n] + [id];
        if id !in assets || assets[id] == map[] {
          newIDs := newIDs + [id];
        }
        if f.SupportsInitialDump() && Count(assets, id, f) == 0 {
          initialDumpIDs := initialDumpIDs + [id];
        }
        if f.RequiresCustom() && !CustomActive(assets, id) {
          customEnableIDs := customEnableIDs + [id];
        }
        n := n + 1;
      }
      assert ids[..n] == ids;
      frameIDs := Union3(newIDs, customEnableIDs, initialDumpIDs);
      assert Elements(newIDs) + Elements(customEnableIDs) + Elements(initialDumpIDs)
          == set id | id in ids && Missing(assets, f, id);
      needsDump := |initialDumpIDs| > 0;
      assert needsDump ==> initialDumpIDs[0] in initialDumpIDs;
    }

    /** The first half of subscribeMarketAssets: the frame to send, if any, decided from the counts. */
    method SubscribePlan(f: Feature, ids: seq<string>, dump: bool) returns (frame: Option<Frame>)
      requires forall id :: id in ids ==> id != "" && TrimSpace(id) == id
      requires WellFormed(assets) && ids != [] && ids == Ascending(Elements(ids))
      ensures frame == SubscribeFrame(assets, f, Elements(ids), dump)
    {
      var firstSubscribe := assets == map[];
      var frameIDs, needsDump := MissingIDs(f, ids);
      assert (set id | id in Elements(ids) && Missing(assets, f, id)) == set id | id in ids && Missing(assets, f, id);
      var operation := SubscribeMore;
      var initialDump := if needsDump && f.SupportsInitialDump() then Some(dump) else None;
      var custom := f.RequiresCustom() && |frameIDs| > 0;
      if firstSubscribe {
        operation, frameIDs := Initial, ids;
        initialDump := if f.SupportsInitialDump() then Some(dump) else None;
        custom := f.RequiresCustom();
      }
      if |frameIDs| == 0 {
        return None;
      }
      FirstIsMissing(assets, f, Elements(ids), frameIDs);
      return Some(Frame(operation, frameIDs, initialDump, custom));
    }
  }

  lemma TrimmedIsCanonical(q: seq<string>)
    requires forall v :: v in q ==> v != "" && TrimSpace(v) == v
    ensures Canonical(q) == Elements(q)
  {
  }

  /** unionSortedStrings of three lists of trimmed identifiers. */
  method Union3(a: seq<string>, b: seq<string>, c: seq<string>) returns (out: seq<string>)
    requires forall v :: v in a || v in b || v in c ==> v != "" && TrimSpace(v) == v
    ensures out == Ascending(Elements(a) + Elements(b) + Elements(c))
  {
    TrimmedIsCanonical(a);
    TrimmedIsCanonical(b);
    TrimmedIsCanonical(c);
    out := UnionSortedStrings(a, b);
    AscendingDistinct(Elements(a) + Elements(b));
    TrimmedIsCanonical(out);
    out := UnionSortedStrings(out, c);
  }

  lemma FirstIsMissing(c: Counts, f: Feature, wanted: set<string>, frameIDs: seq<string>)
    requires frameIDs != [] && frameIDs == Ascending(Needed(c, f, wanted))
    ensures c != map[] && f.SupportsInitialDump() ==> exists id :: id in wanted && Count(c, id, f) == 0
  {
    AscendingDistinct(Needed(c, f, wanted));
    assert frameIDs[0] in Needed(c, f, wanted);
  }

  lemma {:induction false} DoneKeepsCount(c: Counts, done: seq<string>, id: string, f: Feature)
    requires id !in done
    ensures Count(DecrementAll(c, done, f), id, f) == Count(c, id, f)
  {
    if done != [] {
      DoneKeepsCount(c, done[..|done| - 1], id, f);
    }
  }

  lemma SortedDistinct(q: seq<string>)
    requires StrictlySorted(q)
    ensures Distinct(q)
  {
    forall i, j | 0 <= i < j < |q| ensures q[i] != q[j] { LessTotal(q[i], q[j]); }
  }

  /** One more asset to release: listed if it has a count, and skipping it otherwise makes no difference. */
  lemma DecrementNext(c: Counts, decremented: seq<string>, done: seq<string>, id: string, f: Feature)
    requires DecrementAll(c, decremented, f) == DecrementAll(c, done, f)
    requires Count(DecrementAll(c, done, f), id, f) == Count(c, id, f)
    ensures DecrementAll(c, if Count(c, id, f) != 0 then decremented + [id] else decremented, f)
         == DecrementAll(c, done + [id], f)
  {
    assert (done + [id])[..|done|] == done;
    assert (decremented + [id])[..|decremented|] == decremented;
  }

  /** The assets an unsubscribe call releases, and those whose count it lowers. */
  method ReleasedIDs(c: Counts, f: Feature, ids: seq<string>)
    returns (removedIDs: seq<string>, decrementIDs: seq<string>)
    requires StrictlySorted(ids)
    ensures removedIDs == Ascending(set id | id in ids && LastReference(c, f, id))
    ensures DecrementAll(c, decrementIDs, f) == DecrementAll(c, ids, f)
    ensures decrementIDs == [] ==> removedIDs == []
  {
    hide Less, ActiveExcluding, DecrementAll;
    removedIDs, decrementIDs := [], [];
    var n := 0;
    while n < |ids|
      invariant n <= |ids|
      invariant StrictlySorted(removedIDs)
      invariant forall x :: x in removedIDs <==> x in ids[..n] && LastReference(c, f, x)
      invariant DecrementAll(c, decrementIDs, f) == DecrementAll(c, ids[..n], f)
      invariant decrementIDs == [] ==> removedIDs == []
    {
      var id := ids[n];
      assert ids[..n + 1] == ids[..n] + [id];
      SortedDistinct(ids);
      DoneKeepsCount(c, ids[..n], id, f);
      DecrementNext(c, decrementIDs, ids[..n], id, f);
      var count := Count(c, id, f);
      if count != 0 {
        decrementIDs := decrementIDs + [id];
        if count == 1 && !ActiveExcluding(c, id, f) {
          forall i | 0 <= i < |removedIDs| ensures Less(removedIDs[i], id) {
            assert removedIDs[i] in ids[..n];
          }
          removedIDs := removedIDs + [id];
        }
      }
      n := n + 1;
    }
    assert ids[..n] == ids;
    SortedIsAscending(removedIDs);
    assert Elements(removedIDs) == set id | id in ids && LastReference(c, f, id);
  }

  /** The first half of unsubscribeMarketAssets: the frame to send, if any, and the references to drop. */
  method UnsubscribePlan(c: Counts, f: Feature, ids: seq<string>)
    returns (frame: Option<Frame>, decrementIDs: seq<string>)
    requires StrictlySorted(ids)
    ensures frame == UnsubscribeFrame(c, f, Elements(ids))
    ensures DecrementAll(c, decrementIDs, f) == DecrementAll(c, ids, f)
    ensures decrementIDs == [] ==> frame.None?
  {
    var removedIDs;
    removedIDs, decrementIDs := ReleasedIDs(c, f, ids);
    assert (set id | id in Elements(ids) && LastReference(c, f, id)) == set id | id in ids && LastReference(c, f, id);
    frame := if |removedIDs| > 0 then Some(Frame(Unsubscribe, removedIDs, None, false)) else None;
  }

  /** activeAssetIDs: the listed assets in order, whatever order the map yields them in. */
  method ActiveAssetIDs(c: Counts) returns (ids: seq<string>)
    requires forall id :: id in c ==> c[id] != map[]
    ensures ids == Ascending(c.Keys)
  {
    var list: seq<string> := [];
    var rest := c.Keys;
    while rest != {}
      invariant rest <= c.Keys && Elements(list) == c.Keys - rest
      invariant Distinct(list)
    {
      var id :| id in rest;
      assert Elements(list + [id]) == Elements(list) + {id};
      if c[id] != map[] {
        list := list + [id];
      }
      rest := rest - {id};
    }
    assert Elements(list) == c.Keys;
    ids := SortStrings(list);
  }

  lemma NothingToSubscribe(c: Counts, f: Feature, dump: bool)
    ensures SubscribeFrame(c, f, {}, dump) == None && CallEffect(c, Subscribe(f, {})) == c
  {
    ElementsEmpty(Ascending({}));
  }

  lemma SubscribeCounts(c: Counts, f: Feature, ids: set<string>)
    requires WellFormed(c)
    ensures forall id, g ::
      Count(CallEffect(c, Subscribe(f, ids)), id, g) == Count(c, id, g) + if g == f && id in ids then 1 else 0
  {
    AscendingDistinct(ids);
    IncrementAllCounts(c, Ascending(ids), f);
  }

  lemma UnsubscribeCounts(c: Counts, f: Feature, ids: set<string>)
    requires WellFormed(c)
    ensures forall id, g ::
      Count(CallEffect(c, Unsub(f, ids)), id, g) ==
      if g == f && id in ids && Count(c, id, g) > 0 then Count(c, id, g) - 1 else Count(c, id, g)
  {
    AscendingDistinct(ids);
    DecrementAllCounts(c, Ascending(ids), f);
  }

  class Client {
    const marketSubs: SubscriptionState
    const orderBookInitialDump: bool
    /** The attached connection, numbered in the order they were opened. */
    var conn: Option<nat>
    var closed: bool
    /** What the attached connection's server has been told. */
    ghost var link: Conn

    ghost predicate Valid()
      reads this, marketSubs
    {
      && WellFormed(marketSubs.assets)
      && (conn.Some? && link.alive ==> Agrees(marketSubs.assets, link))
    }

    constructor (orderBookInitialDump: bool)
      ensures Valid() && marketSubs.assets == map[] && conn == None && !closed && fresh(marketSubs)
      ensures this.orderBookInitialDump == orderBookInitialDump
    {
      marketSubs := new SubscriptionState();
      this.orderBookInitialDump := orderBookInitialDump;
      conn, closed := None, false;
      link := Conn(EMPTY_VIEW, false, false);
    }

    /** A connection that is gone accepts nothing. */
    ghost predicate Possible(outcome: Outcome)
      reads this
    {
      conn.Some? && outcome.Delivered? ==> link.alive
    }

    /** sendMarketSubscription; `wire` is what is written, `outcome` what becomes of the write. */
    method SendMarketSubscription(ghost call: Call, frame: Frame, outcome: Outcome)
      returns (ok: bool, wire: Option<WireFrame>)
      modifies this`link
      ensures ok <==> conn.Some? && outcome.Delivered?
      ensures wire == if conn.Some? then Some(Wire(frame)) else None
      ensures link == if conn.Some? then Sent(old(link), frame, call, outcome) else old(link)
    {
      if conn.None? {
        return false, None;
      }
      var written := WireFrame("", OperationText(frame.operation), frame.ids, frame.initialDump, frame.custom);
      if written.operation == "" {
        written := written.(kind := "market");
      }
      link := Sent(link, frame, call, outcome);
      return outcome.Delivered?, Some(written);
    }

    /** A subscribe that succeeds adds one reference per distinct trimmed id; one that fails adds none. */
    method SubscribeMarketAssets(f: Feature, assetIDs: seq<string>, outcome: Outcome)
      returns (ok: bool, wire: Option<WireFrame>)
      requires Valid() && Possible(outcome)
      modifies this`link, marketSubs
      ensures Valid()
      ensures Performed(ok, wire, marketSubs.assets, link)
           == Perform(old(marketSubs.assets), conn.Some?, old(link), Subscribe(f, Canonical(assetIDs)), outcome,
                      orderBookInitialDump)
      ensures forall id, g ::
        var added := if ok && g == f && id in Canonical(assetIDs) then 1 else 0;
        Count(marketSubs.assets, id, g) == Count(old(marketSubs.assets), id, g) + added
    {
      PerformAgrees(marketSubs.assets, conn.Some?, link, Subscribe(f, Canonical(assetIDs)), outcome,
                    orderBookInitialDump);
      SubscribeCounts(marketSubs.assets, f, Canonical(assetIDs));
      ok, wire := SubscribeLocked(f, assetIDs, outcome);
    }

    method SubscribeLocked(f: Feature, assetIDs: seq<string>, outcome: Outcome)
      returns (ok: bool, wire: Option<WireFrame>)
      requires WellFormed(marketSubs.assets)
      modifies this`link, marketSubs
      ensures Performed(ok, wire, marketSubs.assets, link)
           == Perform(old(marketSubs.assets), conn.Some?, old(link), Subscribe(f, Canonical(assetIDs)), outcome,
                      orderBookInitialDump)
    {
      hide Wire, SubscribeFrame, Sent, IncrementAll;
      CanonicalIdempotent(assetIDs);
      AscendingDistinct(Canonical(assetIDs));
      wire := None;
      var ids := CanonicalStrings(assetIDs);
      NothingToSubscribe(marketSubs.assets, f, orderBookInitialDump);
      if |ids| == 0 {
        return true, None;
      }
      var frame := marketSubs.SubscribePlan(f, ids, orderBookInitialDump);
      if frame.Some? {
        ok, wire := SendMarketSubscription(Subscribe(f, Canonical(assetIDs)), frame.value, outcome);
        if !ok {
          return;
        }
      }
      marketSubs.IncrementEach(ids, f);
      ok := true;
    }

    /** An unsubscribe that succeeds drops one reference of each listed id that has one; one that fails drops none. */
    method UnsubscribeMarketAssets(f: Feature, assetIDs: seq<string>, outcome: Outcome)
      returns (ok: bool, wire: Option<WireFrame>)
      requires Valid() && Possible(outcome)
      modifies this`link, marketSubs
      ensures Valid()
      ensures Performed(ok, wire, marketSubs.assets, link)
           == Perform(old(marketSubs.assets), conn.Some?, old(link), Unsub(f, Canonical(assetIDs)), outcome,
                      orderBookInitialDump)
      ensures forall id, g :: var n := Count(old(marketSubs.assets), id, g);
        Count(marketSubs.assets, id, g) == if ok && g == f && id in Canonical(assetIDs) && n > 0 then n - 1 else n
    {
      PerformAgrees(marketSubs.assets, conn.Some?, link, Unsub(f, Canonical(assetIDs)), outcome, orderBookInitialDump);
      UnsubscribeCounts(marketSubs.assets, f, Canonical(assetIDs));
      ok, wire := UnsubscribeLocked(f, assetIDs, outcome);
    }

    method UnsubscribeLocked(f: Feature, assetIDs: seq<string>, outcome: Outcome)
      returns (ok: bool, wire: Option<WireFrame>)
      modifies this`link, marketSubs
      ensures Performed(ok, wire, marketSubs.assets, link)
           == Perform(old(marketSubs.assets), conn.Some?, old(link), Unsub(f, Canonical(assetIDs)), outcome,
                      orderBookInitialDump)
    {
      AscendingDistinct(Canonical(assetIDs));
      wire := None;
      var ids := CanonicalStrings(assetIDs);
      if |ids| == 0 {
        return true, None;
      }
      var frame, decrementIDs := UnsubscribePlan(marketSubs.assets, f, ids);
      if |decrementIDs| == 0 {
        return true, None;
      }
      if frame.Some? {
        ok, wire := SendMarketSubscription(Unsub(f, Canonical(assetIDs)), frame.value, outcome);
        if !ok {
          return;
        }
      }
      marketSubs.DecrementEach(decrementIDs, f);
      ok := true;
    }

    /** replayMarketSubscription: one frame for everything that is live. */
    method ReplayMarketSubscription(outcome: Outcome) returns (ok: bool, wire: Option<WireFrame>)
      requires Valid() && Possible(outcome)
      modifies this`link
      ensures Valid()
      ensures Performed(ok, wire, marketSubs.assets, link)
           == Perform(old(marketSubs.assets), conn.Some?, old(link), Replay, outcome, orderBookInitialDump)
    {
      var c := marketSubs.assets;
      PerformAgrees(c, conn.Some?, link, Replay, outcome, orderBookInitialDump);
      var ids := ActiveAssetIDs(c);
      if |ids| == 0 {
        link := MarkReplayed(link, Replay);
        ok, wire := true, None;
      } else {
        var initialDump := if InitialDumpActive(c) then Some(orderBookInitialDump) else None;
        ok, wire := SendMarketSubscription(Replay, Frame(Initial, ids, initialDump, AnyCustomActive(c)), outcome);
      }
    }

    /**
     connect, to connection `number` if it can be dialled: the new pointer, the old connection closed, then one
     replay; whatever was live before is live on the new server after it.
     */
    method Connect(number: nat, dialled: bool, outcome: Outcome)
      returns (connected: bool, dropped: Option<nat>, replayed: bool)
      requires Valid()
      modifies this`conn, this`link
      ensures Valid() && marketSubs.assets == old(marketSubs.assets)
      ensures connected <==> !closed && dialled
      ensures !connected ==> conn == old(conn) && link == old(link) && dropped == None && !replayed
      ensures connected ==> conn == Some(number) && dropped == old(conn)
      ensures replayed && link.alive ==> link.replayed && link.view.assets == marketSubs.assets.Keys
      ensures connected && outcome.Delivered? ==> replayed && link.alive
    {
      if closed || !dialled {
        return false, None, false;
      }
      dropped := conn;
      conn := Some(number);
      link := Conn(EMPTY_VIEW, true, false);
      var wire;
      replayed, wire := ReplayMarketSubscription(outcome);
      connected := true;
    }
  }
}
