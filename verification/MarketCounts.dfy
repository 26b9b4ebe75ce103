/**
 The reference counts of the market channel: asset -> feature -> number of live subscriptions.
 These are the values the client's state object goes through, and the frames decided from them.
 */
module MarketCounts {
  import opened Wrappers
  import opened SortedStrings

  datatype Feature =
    | OrderBook | Prices | LastTradePrice | TickSizeChange | Midpoints
    | BestBidAsk | NewMarkets | MarketResolutions
  {
    predicate SupportsInitialDump() { OrderBook? }
    predicate RequiresCustom() { BestBidAsk? || NewMarkets? || MarketResolutions? }
  }

  type Refs = map<Feature, nat>
  type Counts = map<string, Refs>

  /** No zero count and no asset without a feature is ever stored. */
  ghost predicate WellFormed(c: Counts) {
    forall id :: id in c ==> c[id] != map[] && forall f :: f in c[id] ==> c[id][f] > 0
  }

  function Count(c: Counts, id: string, f: Feature): nat {
    if id in c && f in c[id] then c[id][f] else 0
  }

  predicate CustomActive(c: Counts, id: string) {
    id in c && exists f :: f in c[id] && c[id][f] > 0 && f.RequiresCustom()
  }

  predicate ActiveExcluding(c: Counts, id: string, f: Feature) {
    id in c && exists g :: g in c[id] && g != f && c[id][g] > 0
  }

  function Increment(c: Counts, id: string, f: Feature): Counts {
    c[id := (if id in c then c[id] else map[])[f := Count(c, id, f) + 1]]
  }

  /** The references of one asset after one of them is dropped. */
  function Lowered(refs: Refs, f: Feature): Refs
    requires f in refs && refs[f] > 0
  {
    if refs[f] == 1 then refs - {f} else refs[f := refs[f] - 1]
  }

  function Decrement(c: Counts, id: string, f: Feature): Counts {
    if Count(c, id, f) == 0 then c
    else
      var refs := Lowered(c[id], f);
      if refs == map[] then c - {id} else c[id := refs]
  }

  function IncrementAll(c: Counts, ids: seq<string>, f: Feature): Counts {
    if ids == [] then c else Increment(IncrementAll(c, ids[..|ids| - 1], f), ids[|ids| - 1], f)
  }

  function DecrementAll(c: Counts, ids: seq<string>, f: Feature): Counts {
    if ids == [] then c else Decrement(DecrementAll(c, ids[..|ids| - 1], f), ids[|ids| - 1], f)
  }

  lemma IncrementCounts(c: Counts, id: string, f: Feature)
    requires WellFormed(c)
    ensures var d := Increment(c, id, f);
      && WellFormed(d) && d.Keys == c.Keys + {id}
      && forall x, g :: Count(d, x, g) == Count(c, x, g) + if g == f && x == id then 1 else 0
  {
    assert f in Increment(c, id, f)[id];
  }

  /** One subscribe call adds exactly one reference per listed asset and touches no other count. */
  lemma {:induction false} IncrementAllCounts(c: Counts, ids: seq<string>, f: Feature)
    requires WellFormed(c) && Distinct(ids)
    ensures var d := IncrementAll(c, ids, f);
      && WellFormed(d) && d.Keys == c.Keys + Elements(ids)
      && forall id, g :: Count(d, id, g) == Count(c, id, g) + if g == f && id in ids then 1 else 0
  {
    hide Increment, WellFormed, Count;
    if ids != [] {
      var init := ids[..|ids| - 1];
      IncrementAllCounts(c, init, f);
      IncrementCounts(IncrementAll(c, init, f), ids[|ids| - 1], f);
      assert ids == init + [ids[|ids| - 1]];
      assert Elements(ids) == Elements(init) + {ids[|ids| - 1]};
      assert ids[|ids| - 1] !in init;
    }
  }

  /** One unsubscribe call drops exactly one reference per listed asset that has one. */
  lemma {:induction false} DecrementAllCounts(c: Counts, ids: seq<string>, f: Feature)
    requires WellFormed(c) && Distinct(ids)
    ensures var d := DecrementAll(c, ids, f);
      && WellFormed(d)
      && forall id, g :: Count(d, id, g) ==
           if g == f && id in ids && Count(c, id, g) > 0 then Count(c, id, g) - 1 else Count(c, id, g)
  {
    if ids != [] {
      var init, last := ids[..|ids| - 1], ids[|ids| - 1];
      DecrementAllCounts(c, init, f);
      DecrementCounts(DecrementAll(c, init, f), last, f);
      assert ids == init + [last];
      assert last !in init;
    }
  }

  lemma DecrementCounts(c: Counts, id: string, f: Feature)
    requires WellFormed(c)
    ensures var d := Decrement(c, id, f);
      && WellFormed(d)
      && forall x, g :: Count(d, x, g) ==
           if g == f && x == id && Count(c, x, g) > 0 then Count(c, x, g) - 1 else Count(c, x, g)
  {
    var d := Decrement(c, id, f);
    if Count(c, id, f) > 0 {
      var refs := Lowered(c[id], f);
      forall g ensures Count(d, id, g) == if g in refs then refs[g] else 0 {
        if refs == map[] { assert id !in d; }
      }
    }
  }

  /** An asset is listed exactly when some feature of it has a positive count. */
  lemma ListedIffCounted(c: Counts, id: string)
    requires WellFormed(c)
    ensures id in c <==> exists f :: Count(c, id, f) > 0
  {
    if id in c {
      var f :| f in c[id];
      assert Count(c, id, f) > 0;
    }
  }

  /** Well-formed states with the same counts are equal: nothing else is stored. */
  lemma CountsDetermine(c: Counts, d: Counts)
    requires WellFormed(c) && WellFormed(d)
    requires forall id, f :: Count(c, id, f) == Count(d, id, f)
    ensures c == d
  {
    forall id ensures id in c <==> id in d {
      ListedIffCounted(c, id);
      ListedIffCounted(d, id);
    }
    forall id | id in c ensures c[id] == d[id] {
      forall f ensures f in c[id] <==> f in d[id] {
        assert Count(c, id, f) == Count(d, id, f);
      }
      forall f | f in c[id] ensures c[id][f] == d[id][f] {
        assert Count(c, id, f) == Count(d, id, f);
      }
    }
  }

  /** Unsubscribing undoes subscribing, whatever else is held on those assets. */
  lemma UnsubscribeUndoesSubscribe(c: Counts, ids: seq<string>, f: Feature)
    requires WellFormed(c) && Distinct(ids)
    ensures DecrementAll(IncrementAll(c, ids, f), ids, f) == c
  {
    var d := IncrementAll(c, ids, f);
    IncrementAllCounts(c, ids, f);
    DecrementAllCounts(d, ids, f);
    CountsDetermine(DecrementAll(d, ids, f), c);
  }

  // ----- frames -----

  datatype Operation = Initial | SubscribeMore | Unsubscribe

  datatype Frame = Frame(operation: Operation, ids: seq<string>, initialDump: Option<bool>, custom: bool)

  /** The frame as it is written: the channel type goes with the empty operation only. */
  datatype WireFrame =
    WireFrame(kind: string, operation: string, ids: seq<string>, initialDump: Option<bool>, custom: bool)

  function OperationText(op: Operation): string {
    match op
    case Initial => ""
    case SubscribeMore => "subscribe"
    case Unsubscribe => "unsubscribe"
  }

  function Wire(f: Frame): WireFrame {
    var operation := OperationText(f.operation);
    WireFrame(if operation == "" then "market" else "", operation, f.ids, f.initialDump, f.custom)
  }

  /** What a subscribe call must still ask the server for. */
  predicate Missing(c: Counts, f: Feature, id: string) {
    || id !in c
    || (f.RequiresCustom() && !CustomActive(c, id))
    || (f.SupportsInitialDump() && Count(c, id, f) == 0)
  }

  /** What an unsubscribe call releases for good: assets whose only reference is this one. */
  predicate LastReference(c: Counts, f: Feature, id: string) {
    Count(c, id, f) == 1 && !ActiveExcluding(c, id, f)
  }

  ghost function SubscribeFrame(c: Counts, f: Feature, ids: set<string>, dump: bool): Option<Frame> {
    var needed := if c == map[] then ids else set id | id in ids && Missing(c, f, id);
    if needed == {} then None
    else Some(Frame(if c == map[] then Initial else SubscribeMore, Ascending(needed),
                    if f.SupportsInitialDump() then Some(dump) else None, f.RequiresCustom()))
  }

  ghost function UnsubscribeFrame(c: Counts, f: Feature, ids: set<string>): Option<Frame> {
    var removed := set id | id in ids && LastReference(c, f, id);
    if removed == {} then None else Some(Frame(Unsubscribe, Ascending(removed), None, false))
  }

  predicate InitialDumpActive(c: Counts) {
    exists id :: id in c && Count(c, id, OrderBook) > 0
  }

  predicate AnyCustomActive(c: Counts) {
    exists id :: id in c && CustomActive(c, id)
  }

  ghost function ReplayFrame(c: Counts, dump: bool): Option<Frame> {
    if c == map[] then None
    else Some(Frame(Initial, Ascending(c.Keys),
                    if InitialDumpActive(c) then Some(dump) else None, AnyCustomActive(c)))
  }
}
