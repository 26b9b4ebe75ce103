/**
 The reconnect protocol shared by the CLOB and RTDS clients: failures reported by the read loop, the
 heartbeat and the watchdog race for one flag, and the winner detaches its connection and redials.
 */
module Reconnect {
  import opened Wrappers
  import opened Bytes

  datatype Pc = Start | TryFlag | TryDetach | LoopTop | Sleeping | Dialing | Releasing | Finished

  /** One run of scheduleReconnect for the failure of connection `source`; `waits` are its timer periods in seconds. */
  datatype Task = Task(source: nat, pc: Pc, backoff: nat, waits: seq<nat>)

  /** Connections are numbered in the order they are dialled. */
  datatype World = World(conn: Option<nat>, nextConn: nat, reconnecting: bool, closed: bool, tasks: seq<Task>)

  const MINUTE: nat := 60

  function NextBackoff(backoff: nat): nat {
    if backoff < MINUTE then backoff * 2 else backoff
  }

  datatype Step =
    | Report(source: nat)
    | TaskStep(i: nat, luck: bool)
    | UserConnect
    | Close

  /** One atomic action of a task: the shared state and the task after it. `luck` resolves races and dials. */
  function Act(w: World, t: Task, autoReconnect: bool, luck: bool): (World, Task) {
    match t.pc
    case Start => (w, t.(pc := if w.closed || !autoReconnect then Finished else TryFlag))
    case TryFlag => if w.reconnecting then (w, t.(pc := Finished)) else (w.(reconnecting := true), t.(pc := TryDetach))
    case TryDetach =>
      if w.conn == Some(t.source) then (w.(conn := None), t.(pc := LoopTop, backoff := 1)) else (w, t.(pc := Releasing))
    case LoopTop => (w, t.(pc := if w.closed then Releasing else Sleeping))
    case Sleeping =>
      if w.closed && luck then (w, t.(pc := Releasing)) else (w, t.(pc := Dialing, waits := t.waits + [t.backoff]))
    case Dialing =>
      if luck then (w.(conn := Some(w.nextConn), nextConn := w.nextConn + 1), t.(pc := Releasing))
      else (w, t.(pc := LoopTop, backoff := NextBackoff(t.backoff)))
    case Releasing => (w.(reconnecting := false), t.(pc := Finished))
    case Finished => (w, t)
  }

  ghost predicate Next(w: World, step: Step, w': World, autoReconnect: bool) {
    match step
    case Report(c) => c < w.nextConn && w' == w.(tasks := w.tasks + [Task(c, Start, 0, [])])
    case TaskStep(i, luck) =>
      && i < |w.tasks|
      && var (v, t) := Act(w, w.tasks[i], autoReconnect, luck);
      w' == v.(tasks := w.tasks[i := t])
    case UserConnect => !w.closed && w' == w.(conn := Some(w.nextConn), nextConn := w.nextConn + 1)
    case Close => w' == w.(closed := true)
  }

  ghost predicate Init(w: World) {
    w == World(None, 0, false, false, [])
  }

  // ----- the invariant -----

  /** The task has set the flag and not cleared it yet. */
  predicate Holds(t: Task) {
    !(t.pc.Start? || t.pc.TryFlag? || t.pc.Finished?)
  }

  /** The k-th wait in seconds. */
  function Wait(k: nat): nat {
    if Pow(2, k) <= 64 then Pow(2, k) else 64
  }

  lemma {:induction false} PowBounds(k: nat)
    ensures k <= 5 ==> Pow(2, k) <= 32
    ensures k >= 6 ==> Pow(2, k) >= 64
  {
    if k > 6 {
      PowBounds(k - 1);
    } else if k == 6 {
      assert Pow(2, 6) == 64;
    } else if k > 0 {
      PowBounds(k - 1);
      assert k == 5 ==> Pow(2, k) == 32;
      assert k == 4 ==> Pow(2, k) == 16;
      assert k == 3 ==> Pow(2, k) == 8;
      assert k == 2 ==> Pow(2, k) == 4;
    }
  }

  /** Doubling below a minute is exactly the capped power of two. */
  lemma WaitDoubles(k: nat)
    ensures Wait(k + 1) == NextBackoff(Wait(k))
  {
    PowBounds(k);
    PowBounds(k + 1);
  }

  ghost predicate TaskOk(t: Task) {
    && (forall k :: 0 <= k < |t.waits| ==> t.waits[k] == Wait(k))
    && (t.pc.Start? || t.pc.TryFlag? || t.pc.TryDetach? ==> t.waits == [])
    && (t.pc.LoopTop? || t.pc.Sleeping? ==> t.backoff == Wait(|t.waits|))
    && (t.pc.Dialing? ==> t.waits != [] && t.backoff == Wait(|t.waits| - 1))
  }

  ghost predicate Inv(w: World) {
    && (forall i :: 0 <= i < |w.tasks| ==> TaskOk(w.tasks[i]))
    && (forall i, j :: 0 <= i < |w.tasks| && 0 <= j < |w.tasks| && Holds(w.tasks[i]) && Holds(w.tasks[j]) ==> i == j)
    && (w.reconnecting <==> exists i :: 0 <= i < |w.tasks| && Holds(w.tasks[i]))
    && (w.conn.Some? ==> w.conn.value < w.nextConn)
  }

  lemma ActKeepsTask(w: World, t: Task, autoReconnect: bool, luck: bool)
    requires TaskOk(t)
    ensures TaskOk(Act(w, t, autoReconnect, luck).1)
    ensures Act(w, t, autoReconnect, luck).0.tasks == w.tasks
  {
    if t.pc.Dialing? { WaitDoubles(|t.waits| - 1); }
    if t.pc.TryDetach? { assert Wait(0) == 1; }
  }

  lemma InvTask(w: World, i: nat, luck: bool, w': World, autoReconnect: bool)
    requires Inv(w) && Next(w, TaskStep(i, luck), w', autoReconnect)
    ensures Inv(w')
  {
    hide TaskOk;
    var t, t' := w.tasks[i], w'.tasks[i];
    ActKeepsTask(w, t, autoReconnect, luck);
    assert t' == Act(w, t, autoReconnect, luck).1;
    forall j | 0 <= j < |w.tasks| && j != i ensures w'.tasks[j] == w.tasks[j] {}
    if Holds(t') {
      assert w'.reconnecting;
    } else if w'.reconnecting {
      var j :| 0 <= j < |w.tasks| && Holds(w.tasks[j]);
      assert j != i;
      assert Holds(w'.tasks[j]);
    }
  }

  lemma InvNext(w: World, step: Step, w': World, autoReconnect: bool)
    requires Inv(w) && Next(w, step, w', autoReconnect)
    ensures Inv(w')
  {
    match step {
      case TaskStep(i, luck) => InvTask(w, i, luck, w', autoReconnect);
      case Report(c) =>
        if w.reconnecting {
          var j :| 0 <= j < |w.tasks| && Holds(w.tasks[j]);
          assert Holds(w'.tasks[j]);
        }
      case _ =>
    }
  }

  // ----- runs -----

  ghost predicate Run(ws: seq<World>, steps: seq<Step>, autoReconnect: bool) {
    && |ws| == |steps| + 1
    && Init(ws[0])
    && forall i :: 0 <= i < |steps| ==> Next(ws[i], steps[i], ws[i + 1], autoReconnect)
  }

  lemma {:induction false} RunInvariant(ws: seq<World>, steps: seq<Step>, autoReconnect: bool, i: nat)
    requires Run(ws, steps, autoReconnect) && i < |ws|
    ensures Inv(ws[i])
  {
    if i > 0 {
      RunInvariant(ws, steps, autoReconnect, i - 1);
      InvNext(ws[i - 1], steps[i - 1], ws[i], autoReconnect);
    }
  }

  /** In every run at most one task holds the flag, and the flag is set exactly while one does. */
  lemma OneReconnectLoop(ws: seq<World>, steps: seq<Step>, autoReconnect: bool, n: nat)
    requires Run(ws, steps, autoReconnect) && n < |ws|
    ensures forall i, j | 0 <= i < |ws[n].tasks| && 0 <= j < |ws[n].tasks| ::
              Holds(ws[n].tasks[i]) && Holds(ws[n].tasks[j]) ==> i == j
    ensures ws[n].reconnecting <==> exists i :: 0 <= i < |ws[n].tasks| && Holds(ws[n].tasks[i])
  {
    RunInvariant(ws, steps, autoReconnect, n);
  }

  /**
   In every run the current connection goes away only for a newer one or through the reported failure of
   that same connection: the failure of a stale connection never detaches the current one.
   */
  lemma StaleFailureDetachesNothing(ws: seq<World>, steps: seq<Step>, autoReconnect: bool, n: nat, c: nat)
    requires Run(ws, steps, autoReconnect) && n < |steps|
    requires ws[n].conn == Some(c) && ws[n + 1].conn != Some(c)
    ensures
      || (ws[n + 1].conn == Some(ws[n].nextConn) && ws[n].nextConn > c)
      || (&& ws[n + 1].conn == None && steps[n].TaskStep?
          && steps[n].i < |ws[n].tasks| && ws[n].tasks[steps[n].i].source == c)
  {
    RunInvariant(ws, steps, autoReconnect, n);
    assert Next(ws[n], steps[n], ws[n + 1], autoReconnect);
  }

  /** Without automatic reconnects no run ever sets the flag, detaches a connection or redials by itself. */
  lemma {:induction false} NoReconnectUnlessEnabled(ws: seq<World>, steps: seq<Step>, n: nat)
    requires Run(ws, steps, false) && n < |ws|
    ensures !ws[n].reconnecting
    ensures n < |steps| && !steps[n].UserConnect? ==> ws[n + 1].conn == ws[n].conn
  {
    RunInvariant(ws, steps, false, n);
    Unstarted(ws, steps, n);
    hide Inv;
    if n < |steps| { assert Next(ws[n], steps[n], ws[n + 1], false); }
  }

  lemma {:induction false} Unstarted(ws: seq<World>, steps: seq<Step>, n: nat)
    requires Run(ws, steps, false) && n < |ws|
    ensures !ws[n].reconnecting
    ensures forall i :: 0 <= i < |ws[n].tasks| ==> ws[n].tasks[i].pc.Start? || ws[n].tasks[i].pc.Finished?
  {
    if n > 0 {
      Unstarted(ws, steps, n - 1);
      assert Next(ws[n - 1], steps[n - 1], ws[n], false);
    }
  }

  /** The waits a task may still make once the client is closed: the one it is in. */
  function Left(t: Task): nat {
    if t.pc.Sleeping? then 1 else 0
  }

  /** In every run a loop stops after Close: it waits at most once more, and only if it was already waiting. */
  lemma {:induction false} CloseStopsLoops(ws: seq<World>, steps: seq<Step>, autoReconnect: bool, m: nat, n: nat,
                                           i: nat)
    requires Run(ws, steps, autoReconnect) && m <= n < |ws| && ws[m].closed && i < |ws[m].tasks|
    ensures ws[n].closed && i < |ws[n].tasks|
    ensures |ws[n].tasks[i].waits| + Left(ws[n].tasks[i]) <= |ws[m].tasks[i].waits| + Left(ws[m].tasks[i])
    decreases n
  {
    hide Init, Next, Left;
    if m < n {
      CloseStopsLoops(ws, steps, autoReconnect, m, n - 1, i);
      ClosedStep(ws[n - 1], steps[n - 1], ws[n], autoReconnect, i);
    }
  }

  lemma ClosedStep(w: World, step: Step, w': World, autoReconnect: bool, i: nat)
    requires Next(w, step, w', autoReconnect) && w.closed && i < |w.tasks|
    ensures w'.closed && i < |w'.tasks|
    ensures |w'.tasks[i].waits| + Left(w'.tasks[i]) <= |w.tasks[i].waits| + Left(w.tasks[i])
  {
  }

  /** In every run the k-th wait of a reconnect loop is min(2^k, 64) seconds. */
  lemma BackoffSchedule(ws: seq<World>, steps: seq<Step>, autoReconnect: bool, n: nat, i: nat, k: nat)
    requires Run(ws, steps, autoReconnect) && n < |ws| && i < |ws[n].tasks| && k < |ws[n].tasks[i].waits|
    ensures ws[n].tasks[i].waits[k] == if k <= 6 then Pow(2, k) else 64
  {
    RunInvariant(ws, steps, autoReconnect, n);
    assert TaskOk(ws[n].tasks[i]);
    PowBounds(k);
    assert k == 6 ==> Pow(2, k) == 64;
  }

  /** The client fields the protocol works on, and one uninterrupted run of scheduleReconnect. */
  class Connector {
    var conn: Option<nat>
    var nextConn: nat
    var reconnecting: bool
    var closed: bool
    const autoReconnect: bool

    constructor (autoReconnect: bool)
      ensures conn == None && nextConn == 0 && !reconnecting && !closed && this.autoReconnect == autoReconnect
    {
      conn, nextConn, reconnecting, closed := None, 0, false, false;
      this.autoReconnect := autoReconnect;
    }

    /** `dials` are the results of successive dials; running out of them stands for Close being called. */
    method ScheduleReconnect(failed: nat, dials: seq<bool>) returns (waits: seq<nat>)
      modifies this`conn, this`nextConn, this`reconnecting
      ensures reconnecting == old(reconnecting)
      ensures forall k :: 0 <= k < |waits| ==> waits[k] == Wait(k)
      ensures old(closed || !autoReconnect || reconnecting || conn != Some(failed)) ==>
        waits == [] && conn == old(conn) && nextConn == old(nextConn)
      ensures !old(closed || !autoReconnect || reconnecting || conn != Some(failed)) ==>
        && |waits| <= |dials|
        && (forall k :: 0 <= k < |waits| - 1 ==> !dials[k])
        && (if waits != [] && dials[|waits| - 1] then conn == Some(old(nextConn)) && nextConn == old(nextConn) + 1
            else |waits| == |dials| && conn == None && nextConn == old(nextConn))
    {
      waits := [];
      if closed || !autoReconnect {
        return;
      }
      if reconnecting {
        return;
      }
      reconnecting := true;
      if conn != Some(failed) {
        reconnecting := false;
        return;
      }
      conn := None;
      var backoff := 1;
      assert Wait(0) == 1;
      while |waits| < |dials|
        invariant |waits| <= |dials|
        invariant backoff == Wait(|waits|)
        invariant forall k :: 0 <= k < |waits| ==> waits[k] == Wait(k) && !dials[k]
        invariant conn == None && nextConn == old(nextConn)
      {
        var ok := dials[|waits|];
        WaitDoubles(|waits|);
        waits := waits + [backoff];
        if ok {
          conn, nextConn := Some(nextConn), nextConn + 1;
          break;
        }
        if backoff < MINUTE {
          backoff := backoff * 2;
        }
      }
      reconnecting := false;
    }
  }
}
