// BroadcastRoute, BroadcastEvent, AddRoute and RemoveRoute of
// utils/console_requests.go and utils/console.go as steps of threads: the route
// tokens and the history are two stores, and only the history has a lock.

module HistoryRace {
  import opened Options
  import H = HistoryModel

  type Tid = nat

  datatype Task =
    | Broadcast(route: string, id: nat, message: string)
    | Relay(route: string, id: nat, message: string)
    | Remove(route: string)

  /** Checked: the route was there when looked up under the lock. */
  datatype Pc = DeleteToken | WantLock | Locked | Checked | Unlock

  datatype Thread = Thread(task: Task, pc: Pc)

  datatype Sys = Sys(tokens: set<string>, history: map<string, seq<H.Record>>, lock: Option<Tid>, threads: map<Tid, Thread>)

  datatype Action = AddRoute(route: string) | Begin(t: Tid, task: Task) | Go(t: Tid)

  const INIT := Sys({}, map[], None, map[])

  function Kept(s: Sys, route: string): seq<H.Record> {
    if route in s.history then s.history[route] else []
  }

  /** recheck is the second look at the token; without it every stored request counts as checked. */
  function Move(s: Sys, l: H.Limits, recheck: bool, t: Tid, th: Thread): Option<Sys> {
    var route := th.task.route;
    match th.pc
    case DeleteToken => Some(s.(tokens := s.tokens - {route}, threads := s.threads[t := th.(pc := WantLock)]))
    case WantLock =>
      if s.lock.Some? then None else Some(s.(lock := Some(t), threads := s.threads[t := th.(pc := Locked)]))
    case Locked =>
      (match th.task
       case Broadcast(_, _, _) =>
         var next := if route in s.tokens || !recheck then Checked else Unlock;
         Some(s.(threads := s.threads[t := th.(pc := next)]))
       case Relay(_, id, message) =>
         Some(s.(history := if route in s.history then s.history[route := H.AddEvent(s.history[route], l, id, message)] else s.history,
                 threads := s.threads[t := th.(pc := Unlock)]))
       case Remove(_) => Some(s.(history := s.history - {route}, threads := s.threads[t := th.(pc := Unlock)])))
    case Checked =>
      if !th.task.Broadcast? then None
      else Some(s.(history := s.history[route := H.Add(Kept(s, route), l, th.task.id, th.task.message)],
                   threads := s.threads[t := th.(pc := Unlock)]))
    case Unlock => Some(s.(lock := None, threads := s.threads - {t}))
  }

  /** What each function looks at before it goes for the lock. */
  predicate MayBegin(s: Sys, l: H.Limits, task: Task) {
    match task
    case Broadcast(route, _, message) => route in s.tokens && l.requests > 0 && |message| <= H.MAX
    case Relay(route, _, _) => route in s.tokens && l.requests > 0 && l.events > 0
    case Remove(_) => true
  }

  function Step(s: Sys, l: H.Limits, recheck: bool, a: Action): Option<Sys> {
    match a
    case AddRoute(route) => Some(s.(tokens := s.tokens + {route}))
    case Begin(t, task) =>
      if t in s.threads || !MayBegin(s, l, task) then None
      else Some(s.(threads := s.threads[t := Thread(task, if task.Remove? then DeleteToken else WantLock)]))
    case Go(t) => if t in s.threads then Move(s, l, recheck, t, s.threads[t]) else None
  }

  function Exec(l: H.Limits, recheck: bool, run: seq<Action>): Option<Sys> {
    if run == [] then Some(INIT)
    else
      match Exec(l, recheck, run[..|run| - 1])
      case None => None
      case Some(s) => Step(s, l, recheck, run[|run| - 1])
  }

  // ----- the invariant -----

  predicate HoldsLock(th: Thread) {
    th.pc.Locked? || th.pc.Checked? || th.pc.Unlock?
  }

  /** t is removing the route, between deleting its token and deleting its history. */
  predicate Removing(s: Sys, t: Tid, route: string) {
    t in s.threads && s.threads[t].task == Remove(route) && (s.threads[t].pc.WantLock? || s.threads[t].pc.Locked?)
  }

  ghost predicate Covered(s: Sys, route: string) {
    route in s.tokens || exists t :: Removing(s, t, route)
  }

  predicate Locking(s: Sys) {
    && (s.lock.Some? ==> s.lock.value in s.threads)
    && forall t <- s.threads :: HoldsLock(s.threads[t]) <==> s.lock == Some(t)
  }

  /** No history without a token, but for routes on their way out. */
  ghost predicate HistoryCovered(s: Sys) {
    forall route <- s.history :: Covered(s, route)
  }

  ghost predicate CheckedCovered(s: Sys) {
    forall t <- s.threads :: s.threads[t].pc.Checked? ==> s.threads[t].task.Broadcast? && Covered(s, s.threads[t].task.route)
  }

  predicate Typed(s: Sys, l: H.Limits) {
    forall t <- s.threads :: !s.threads[t].task.Remove? ==> l.requests > 0 && !s.threads[t].pc.DeleteToken?
  }

  ghost predicate Inv(s: Sys, l: H.Limits) {
    Locking(s) && HistoryCovered(s) && CheckedCovered(s) && Typed(s, l)
  }

  lemma StepLocking(s: Sys, l: H.Limits, a: Action)
    requires Inv(s, l) && Step(s, l, true, a).Some?
    ensures Locking(Step(s, l, true, a).value) && Typed(Step(s, l, true, a).value, l)
  {}

  /** Only the removal that deletes the history ends the cover, and it holds the lock. */
  lemma StepCovered(s: Sys, l: H.Limits, a: Action, route: string)
    requires Typed(s, l) && Step(s, l, true, a).Some? && Covered(s, route)
    ensures Covered(Step(s, l, true, a).value, route)
      || (a.Go? && s.threads[a.t] == Thread(Remove(route), Locked))
  {
    var s1 := Step(s, l, true, a).value;
    if route !in s.tokens {
      var t :| Removing(s, t, route);
      assert Removing(s1, t, route) || (a == Go(t) && s.threads[t].pc.Locked?);
    } else if route !in s1.tokens {
      assert Removing(s1, a.t, route);
    }
  }

  lemma StepHistory(s: Sys, l: H.Limits, a: Action)
    requires Inv(s, l) && Step(s, l, true, a).Some?
    ensures HistoryCovered(Step(s, l, true, a).value)
  {
    var s1 := Step(s, l, true, a).value;
    forall route <- s1.history
      ensures Covered(s1, route)
    {
      assert Covered(s, route);
      StepCovered(s, l, a, route);
    }
  }

  lemma StepChecked(s: Sys, l: H.Limits, a: Action)
    requires Inv(s, l) && Step(s, l, true, a).Some?
    ensures CheckedCovered(Step(s, l, true, a).value)
  {
    var s1 := Step(s, l, true, a).value;
    forall t <- s1.threads | s1.threads[t].pc.Checked?
      ensures s1.threads[t].task.Broadcast? && Covered(s1, s1.threads[t].task.route)
    {
      if t in s.threads && s.threads[t].pc.Checked? {
        StepCovered(s, l, a, s.threads[t].task.route);
      }
    }
  }

  lemma {:induction false} RunInv(l: H.Limits, run: seq<Action>)
    requires Exec(l, true, run).Some?
    ensures Inv(Exec(l, true, run).value, l)
  {
    if run != [] {
      var front, a := run[..|run| - 1], run[|run| - 1];
      RunInv(l, front);
      var s := Exec(l, true, front).value;
      StepLocking(s, l, a);
      StepHistory(s, l, a);
      StepChecked(s, l, a);
    }
  }

  /**
   * In every interleaving a route has history only if it has a token, or a removal is
   * still between deleting the one and deleting the other.
   */
  lemma HistoryNeedsToken(l: H.Limits, run: seq<Action>, route: string)
    requires Exec(l, true, run).Some?
    ensures var s := Exec(l, true, run).value;
      route in s.history ==> route in s.tokens || exists t :: Removing(s, t, route)
  {
    RunInv(l, run);
  }

  /** So nothing outlives a removed route. */
  lemma NothingOutlivesRoute(l: H.Limits, run: seq<Action>)
    requires Exec(l, true, run).Some?
    requires forall t <- Exec(l, true, run).value.threads :: !Exec(l, true, run).value.threads[t].task.Remove?
    ensures Exec(l, true, run).value.history.Keys <= Exec(l, true, run).value.tokens
  {
    RunInv(l, run);
    var s := Exec(l, true, run).value;
    forall route <- s.history
      ensures route in s.tokens
    {
      assert Covered(s, route);
    }
  }

  // ----- what is kept -----

  /** What an action adds to the route's history, or that it starts it afresh. */
  datatype Effect = Nothing | Adds(op: H.Op) | Forgets

  function EffectOn(s: Sys, a: Action, route: string): Effect {
    if !a.Go? || a.t !in s.threads || s.threads[a.t].task.route != route then Nothing
    else
      match s.threads[a.t]
      case Thread(Broadcast(_, id, message), Checked) => Adds(H.Request(id, message))
      case Thread(Relay(_, id, message), Locked) => Adds(H.Event(id, message))
      case Thread(Remove(_), Locked) => Forgets
      case _ => Nothing
  }

  /** The requests and events recorded for the route since its history was last removed, in order. */
  function Since(l: H.Limits, run: seq<Action>, route: string): seq<H.Op> {
    if run == [] then []
    else
      var front := run[..|run| - 1];
      var before := Since(l, front, route);
      match Exec(l, true, front)
      case None => before
      case Some(s) =>
        match EffectOn(s, run[|run| - 1], route)
        case Nothing => before
        case Adds(op) => before + [op]
        case Forgets => []
  }

  lemma StepKept(s: Sys, l: H.Limits, a: Action, route: string)
    requires Step(s, l, true, a).Some?
    ensures Kept(Step(s, l, true, a).value, route)
            == match EffectOn(s, a, route)
               case Nothing => Kept(s, route)
               case Adds(op) => H.Do(Kept(s, route), l, op)
               case Forgets => []
  {
    hide H.Add, H.Trim, H.Tail;
    NothingToEvent(l);
  }

  lemma NothingToEvent(l: H.Limits)
    ensures forall id, message :: H.AddEvent([], l, id, message) == []
  {}

  /**
   * However the threads interleave, what a route keeps is what recording the same
   * requests and events one after another would keep.
   */
  lemma {:induction false} RunIsSequential(l: H.Limits, run: seq<Action>, route: string)
    requires Exec(l, true, run).Some?
    ensures Kept(Exec(l, true, run).value, route) == H.Kept(l, Since(l, run, route))
  {
    if run != [] {
      hide H.Do, EffectOn, Step;
      var front, a := run[..|run| - 1], run[|run| - 1];
      RunIsSequential(l, front, route);
      var s := Exec(l, true, front).value;
      StepKept(s, l, a, route);
      if EffectOn(s, a, route).Adds? {
        KeptSnoc(l, Since(l, front, route), EffectOn(s, a, route).op);
      }
    }
  }

  lemma KeptSnoc(l: H.Limits, ops: seq<H.Op>, op: H.Op)
    ensures H.Kept(l, ops + [op]) == H.Do(H.Kept(l, ops), l, op)
  {
    hide H.Do;
    assert (ops + [op])[..|ops|] == ops;
  }

  /**
   * So in every interleaving each route keeps within its bounds, and keeps the newest
   * of the requests made since it was last removed, each with the newest of its events.
   */
  lemma RunKeepsNewest(l: H.Limits, run: seq<Action>, route: string)
    requires Exec(l, true, run).Some?
    ensures var kept, ops := Kept(Exec(l, true, run).value, route), Since(l, run, route);
      && H.Bounded(kept, l)
      && H.Newest(kept, H.Log(ops))
      && (l.requests > 0 && H.Log(ops) != [] ==> kept != [])
  {
    hide H.Bounded, H.Newest, H.Kept, H.Log, Since, Exec;
    RunIsSequential(l, run, route);
    H.RunKeepsNewest(l, Since(l, run, route));
  }

  /** And while all of it fits nothing is lost, however the threads interleave. */
  lemma RunLosesNothing(l: H.Limits, run: seq<Action>, route: string)
    requires Exec(l, true, run).Some? && H.Roomy(H.Log(Since(l, run, route)), l)
    ensures Kept(Exec(l, true, run).value, route) == H.Log(Since(l, run, route))
  {
    hide H.Roomy, H.Kept, H.Log, Since, Exec;
    RunIsSequential(l, run, route);
    H.NothingIsLost(l, Since(l, run, route));
  }

  // ----- that it is recorded at all -----

  /**
   * What each step does to the history of each route: a request checked under the lock
   * is added, an event under the lock is added, a removal under the lock empties it, and
   * nothing else changes anything.
   */
  lemma StepRecords(s: Sys, l: H.Limits, a: Action, route: string)
    requires Step(s, l, true, a).Some?
    ensures var now := Kept(Step(s, l, true, a).value, route);
      if a.Go? && s.threads[a.t].task.route == route then
        match s.threads[a.t]
        case Thread(Broadcast(_, id, message), Checked) => now == H.Add(Kept(s, route), l, id, message)
        case Thread(Relay(_, id, message), Locked) => now == H.AddEvent(Kept(s, route), l, id, message)
        case Thread(Remove(_), Locked) => now == []
        case _ => now == Kept(s, route)
      else now == Kept(s, route)
  {
    hide H.Add, H.Trim, H.Tail;
    NothingToEvent(l);
  }

  /** The state after these steps from s, if each is enabled. */
  function From(s: Sys, l: H.Limits, run: seq<Action>): Option<Sys>
    decreases |run|
  {
    if run == [] then Some(s)
    else
      match Step(s, l, true, run[0])
      case None => None
      case Some(s1) => From(s1, l, run[1..])
  }

  lemma FromStep(s: Sys, l: H.Limits, a: Action, run: seq<Action>)
    requires Step(s, l, true, a).Some?
    ensures From(s, l, [a] + run) == From(Step(s, l, true, a).value, l, run)
  {
    hide Step;
    assert ([a] + run)[1..] == run;
  }

  /** With nobody in the way a request goes through in five steps if it finds its route, and is added. */
  lemma RequestGoesThrough(s: Sys, l: H.Limits, t: Tid, route: string, id: nat, message: string)
    requires s.lock.None? && t !in s.threads && route in s.tokens && l.requests > 0 && |message| <= 0x80_0000
    ensures From(s, l, [Begin(t, Broadcast(route, id, message)), Go(t), Go(t), Go(t), Go(t)])
      == Some(s.(history := s.history[route := H.Add(Kept(s, route), l, id, message)]))
  {
    hide H.Add, From;
    var th := Thread(Broadcast(route, id, message), WantLock);
    var s1 := s.(threads := s.threads[t := th]);
    var s2 := s1.(lock := Some(t), threads := s.threads[t := th.(pc := Locked)]);
    var s3 := s2.(threads := s.threads[t := th.(pc := Checked)]);
    var s4 := s3.(history := s.history[route := H.Add(Kept(s, route), l, id, message)], threads := s.threads[t := th.(pc := Unlock)]);
    var s5 := s4.(lock := None, threads := s.threads);
    assert s.threads[t := th.(pc := Unlock)] - {t} == s.threads;
    var g := Go(t);
    assert s.threads[t := th][t := th.(pc := Locked)] == s.threads[t := th.(pc := Locked)];
    assert s.threads[t := th.(pc := Locked)][t := th.(pc := Checked)] == s.threads[t := th.(pc := Checked)];
    assert s.threads[t := th.(pc := Checked)][t := th.(pc := Unlock)] == s.threads[t := th.(pc := Unlock)];
    FromStep(s, l, Begin(t, th.task), [g, g, g, g]);
    FromStep(s1, l, g, [g, g, g]);
    FromStep(s2, l, g, [g, g]);
    FromStep(s3, l, g, [g]);
    FromStep(s4, l, g, []);
    FromNothing(s5, l);
    assert [Begin(t, th.task)] + [g, g, g, g] == [Begin(t, th.task), g, g, g, g];
    assert [g] + [g, g, g] == [g, g, g, g] && [g] + [g, g] == [g, g, g] && [g] + [g] == [g, g] && [g] + [] == [g];
  }

  lemma FromNothing(s: Sys, l: H.Limits)
    ensures From(s, l, []) == Some(s)
  {}

  /** And so does an event, in four. */
  lemma EventGoesThrough(s: Sys, l: H.Limits, t: Tid, route: string, id: nat, message: string)
    requires s.lock.None? && t !in s.threads && route in s.tokens && l.requests > 0 && l.events > 0
    ensures var after := From(s, l, [Begin(t, Relay(route, id, message)), Go(t), Go(t), Go(t)]);
      && after.Some? && after.value == s.(history := after.value.history)
      && Kept(after.value, route) == H.AddEvent(Kept(s, route), l, id, message)
  {
    hide H.AddEvent, From;
    NothingAdded(l, id, message);
    var th := Thread(Relay(route, id, message), WantLock);
    var history := if route in s.history then s.history[route := H.AddEvent(s.history[route], l, id, message)] else s.history;
    var s1 := s.(threads := s.threads[t := th]);
    var s2 := s1.(lock := Some(t), threads := s.threads[t := th.(pc := Locked)]);
    var s3 := s2.(history := history, threads := s.threads[t := th.(pc := Unlock)]);
    var s4 := s3.(lock := None, threads := s.threads);
    assert s.threads[t := th.(pc := Unlock)] - {t} == s.threads;
    var g := Go(t);
    assert s.threads[t := th][t := th.(pc := Locked)] == s.threads[t := th.(pc := Locked)];
    assert s.threads[t := th.(pc := Locked)][t := th.(pc := Unlock)] == s.threads[t := th.(pc := Unlock)];
    FromStep(s, l, Begin(t, th.task), [g, g, g]);
    FromStep(s1, l, g, [g, g]);
    FromStep(s2, l, g, [g]);
    FromStep(s3, l, g, []);
    FromNothing(s4, l);
    assert [Begin(t, th.task)] + [g, g, g] == [Begin(t, th.task), g, g, g];
    assert [g] + [g, g] == [g, g, g] && [g] + [g] == [g, g] && [g] + [] == [g];
  }

  lemma NothingAdded(l: H.Limits, id: nat, message: string)
    ensures H.AddEvent([], l, id, message) == []
  {}

  /** The request of t has been checked under the lock, and the history is what it was when that happened. */
  predicate Awaited(s: Sys, t: Tid, route: string, id: nat, message: string, before: seq<H.Record>) {
    t in s.threads && s.threads[t] == Thread(Broadcast(route, id, message), Checked) && Kept(s, route) == before
  }

  lemma StepAwaited(s: Sys, l: H.Limits, a: Action, t: Tid, route: string, id: nat, message: string, before: seq<H.Record>)
    requires Inv(s, l) && Step(s, l, true, a).Some? && Awaited(s, t, route, id, message, before)
    ensures var s1 := Step(s, l, true, a).value;
      if a == Go(t) then Kept(s1, route) == H.Add(before, l, id, message) else Awaited(s1, t, route, id, message, before)
  {
    hide H.Add, H.Trim, H.Tail;
    StepRecords(s, l, a, route);
  }

  /** Step n of the run adds the request to what was kept before step k. */
  ghost predicate RecordedAt(l: H.Limits, run: seq<Action>, k: nat, n: nat, t: Tid, route: string, id: nat, message: string)
    requires k <= n < |run| && Exec(l, true, run[..k]).Some? && Exec(l, true, run[..n + 1]).Some?
  {
    && run[n] == Go(t)
    && Kept(Exec(l, true, run[..n + 1]).value, route) == H.Add(Kept(Exec(l, true, run[..k]).value, route), l, id, message)
  }

  lemma {:induction false} ExecFront(l: H.Limits, run: seq<Action>, n: nat)
    requires Exec(l, true, run).Some? && n <= |run|
    ensures Exec(l, true, run[..n]).Some?
    decreases |run|
  {
    hide Step;
    if n < |run| {
      ExecFront(l, run[..|run| - 1], n);
      assert run[..|run| - 1][..n] == run[..n];
    } else {
      assert run[..n] == run;
    }
  }

  /**
   * A request whose route is there when its thread looks under the lock is recorded by
   * that thread before it is through, on top of what was kept when it looked, whatever
   * the other threads do meanwhile.
   */
  lemma {:induction false} PresentIsRecorded(l: H.Limits, run: seq<Action>, k: nat, t: Tid, route: string, id: nat, message: string)
    returns (n: nat)
    requires Exec(l, true, run).Some? && k < |run| && Exec(l, true, run[..k]).Some?
    requires var s := Exec(l, true, run[..k]).value;
      t in s.threads && s.threads[t] == Thread(Broadcast(route, id, message), Locked) && route in s.tokens && run[k] == Go(t)
    requires t !in Exec(l, true, run).value.threads
    ensures k <= n < |run| && Exec(l, true, run[..n + 1]).Some? && RecordedAt(l, run, k, n, t, route, id, message)
  {
    hide Step, Exec, Inv;
    var before := Kept(Exec(l, true, run[..k]).value, route);
    n := k + 1;
    ExecFront(l, run, n);
    LookedUp(l, run, k, t, route, id, message);
    assert run[..|run|] == run;
    while true
      invariant k < n <= |run| && Exec(l, true, run[..n]).Some?
      invariant Awaited(Exec(l, true, run[..n]).value, t, route, id, message, before)
      decreases |run| - n
    {
      RunInv(l, run[..n]);
      ExecFront(l, run, n + 1);
      ExecNext(l, run, n);
      StepAwaited(Exec(l, true, run[..n]).value, l, run[n], t, route, id, message, before);
      if run[n] == Go(t) {
        return;
      }
      n := n + 1;
    }
  }

  lemma ExecNext(l: H.Limits, run: seq<Action>, n: nat)
    requires n < |run| && Exec(l, true, run[..n + 1]).Some?
    ensures Exec(l, true, run[..n]).Some? && Exec(l, true, run[..n + 1]) == Step(Exec(l, true, run[..n]).value, l, true, run[n])
  {
    hide Step;
    assert run[..n + 1][..n] == run[..n];
  }

  lemma LookedUp(l: H.Limits, run: seq<Action>, k: nat, t: Tid, route: string, id: nat, message: string)
    requires k < |run| && Exec(l, true, run[..k + 1]).Some? && Exec(l, true, run[..k]).Some?
    requires var s := Exec(l, true, run[..k]).value;
      t in s.threads && s.threads[t] == Thread(Broadcast(route, id, message), Locked) && route in s.tokens && run[k] == Go(t)
    ensures Awaited(Exec(l, true, run[..k + 1]).value, t, route, id, message, Kept(Exec(l, true, run[..k]).value, route))
  {
    hide Exec;
    ExecNext(l, run, k);
  }

  // ----- why the token is looked up again -----

  const LATE := [AddRoute("r"), Begin(0, Broadcast("r", 1, "")), Begin(1, Remove("r")),
                 Go(1), Go(1), Go(1), Go(1), Go(0), Go(0), Go(0), Go(0)]

  function After(n: nat): Sys
    requires n <= 11
  {
    var kept := map["r" := [H.Record(1, "", [])]];
    var early := Thread(Broadcast("r", 1, ""), WantLock);
    var gone := Remove("r");
    match n
    case 0 => INIT
    case 1 => Sys({"r"}, map[], None, map[])
    case 2 => Sys({"r"}, map[], None, map[0 := early])
    case 3 => Sys({"r"}, map[], None, map[0 := early, 1 := Thread(gone, DeleteToken)])
    case 4 => Sys({}, map[], None, map[0 := early, 1 := Thread(gone, WantLock)])
    case 5 => Sys({}, map[], Some(1), map[0 := early, 1 := Thread(gone, Locked)])
    case 6 => Sys({}, map[], Some(1), map[0 := early, 1 := Thread(gone, Unlock)])
    case 7 => Sys({}, map[], None, map[0 := early])
    case 8 => Sys({}, map[], Some(0), map[0 := early.(pc := Locked)])
    case 9 => Sys({}, map[], Some(0), map[0 := early.(pc := Checked)])
    case 10 => Sys({}, kept, Some(0), map[0 := early.(pc := Unlock)])
    case 11 => Sys({}, kept, None, map[])
  }

  /** Without the second look, a request that was already past the first one leaves history behind. */
  lemma {:induction false} SecondLookNeeded(l: H.Limits, n: nat)
    requires l.requests > 0 && n <= 11
    ensures Exec(l, false, LATE[..n]) == Some(After(n))
    ensures After(11).history.Keys == {"r"} && After(11).tokens == {} && After(11).threads == map[]
  {
    if n > 0 {
      SecondLookNeeded(l, n - 1);
      assert LATE[..n][..n - 1] == LATE[..n - 1] && LATE[..n][n - 1] == LATE[n - 1];
      LateStep(l, n - 1);
    }
  }

  lemma LateStep(l: H.Limits, n: nat)
    requires l.requests > 0 && n < 11
    ensures Step(After(n), l, false, LATE[n]) == Some(After(n + 1))
  {
    if n == 9 {
      var r := H.Record(1, "", []);
      assert H.Tail([], l.requests - 1) + [r] == [r] && H.Total([r]) == H.Size(r) + H.Total([]);
    }
    var s1, s2 := Step(After(n), l, false, LATE[n]).value, After(n + 1);
    assert s1.tokens == s2.tokens;
    assert s1.history == s2.history;
    assert s1.threads == s2.threads;
  }
}
