// A run in which a live forward loses its route: its address was purged as
// stale between the two cleanup steps of an older forward, whose teardown then
// deletes the address by key.

module ForwardOverlap {
  import opened Options
  import opened Slots
  import opened ForwardModel
  import opened ForwardRouting

  const ADDRESS := Key("http", HttpSlot("app.example.com", "", "", ""))
  const TARGET := Target(Http, "app", 80)
  const OLD: Fwd := 10
  const YOUNG: Fwd := 11
  const A := Req(0, TARGET, false)
  const B := Req(1, TARGET, false)

  function Main0(main: Main): Thread { Thread(main, None, None) }

  /** Two connections; cs is what the first one has registered. */
  function Conns(cs: set<Fwd>): map<Conn, ConnState> {
    map[0 := ConnState(Fresh, false, cs), 1 := ConnState(Fresh, false, {})]
  }

  function OldForward(once: Once, starts: nat, done: bool, binding: Binding, setup: bool, keeper: Tid): Forward {
    Forward(0, TARGET, once, starts, done, done, binding, setup, keeper, true, false)
  }

  predicate Same(a: Sys, b: Sys) {
    && a.threads == b.threads && a.fwds == b.fwds && a.conns == b.conns && a.targets == b.targets && a.bind == b.bind
    && a.listeners == b.listeners && a.routes == b.routes && a.holders == b.holders
    && a.created == b.created && a.cleaned == b.cleaned
  }

  lemma Take(s: Sys, a: Action, s1: Sys)
    requires Reachable(s) && Step(s, a).Some? && Same(Step(s, a).value, s1)
    ensures Reachable(s1)
  {
    hide Step;
    var run :| Exec(INIT, run) == Some(s);
    assert (run + [a])[..|run|] == run;
    assert Exec(INIT, run + [a]) == Some(s1);
  }

  lemma TakeGo(s: Sys, t: Tid, x: Choice, m: Move, s1: Sys)
    requires Reachable(s) && t in s.threads && Plan(s, s.threads[t], x) == Some(m) && Applicable(s, m.ch)
    requires var s0 := Apply(s, t, m.ch); Same(s0.(threads := s0.threads[t := m.th]), s1)
    ensures Reachable(s1)
  {
    hide Plan, Apply, Applicable;
    Take(s, Go(t, x), s1);
  }

  lemma SetFacts(f: Fwd)
    ensures var none: set<Fwd> := {}; none + {f} == {f} && {f} - {f} == none
  {}

  // ----- the states on the way -----

  /** registered is what the first connection would clean up. */
  function At(
    threads: map<Tid, Thread>, fwds: map<Fwd, Forward>, registered: set<Fwd>, bind: Option<Tid>, listeners: set<Fwd>,
    routes: map<Key, HolderId>, holders: map<HolderId, Holder>, created: nat): Sys
  {
    Sys(threads, fwds, Conns(registered), map[], bind, listeners, routes, holders, created, 0)
  }

  /** One handler thread, at main. */
  function Solo(main: Main): map<Tid, Thread> {
    map[0 := Main0(main)]
  }

  /** The old forward's handler, and its watcher. */
  function Pair(th: Thread): map<Tid, Thread> {
    map[0 := th, 1 := Main0(Watcher(OLD))]
  }

  /** The old handler waiting to tear down, and the young one at pc. */
  function Trio(pc: HandlerPc): map<Tid, Thread> {
    map[0 := Failing(KWantBind), 1 := Main0(Watcher(OLD)), 2 := Main0(Handler(B, pc))]
  }

  function After(pc: CleanPc): map<Tid, Thread> {
    map[0 := Failing(pc), 1 := Main0(Watcher(OLD)), 2 := Main0(Handler(B, Register(YOUNG)))]
  }

  function Failing(pc: CleanPc): Thread {
    Thread(Handler(A, Exit), None, Some(CleanCall(OLD, pc)))
  }

  function Forwards(binding: Binding): map<Fwd, Forward> {
    map[OLD := OldForward(Running(0), 1, true, Routed(100), false, 1),
        YOUNG := Forward(1, TARGET, Fresh, 0, false, false, binding, true, 2, true, false)]
  }

  function OneHolder(conns: set<Fwd>, servers: set<Fwd>): map<HolderId, Holder> {
    map[100 := Holder(ADDRESS, conns, servers)]
  }

  function TwoHolders(c0: set<Fwd>, s0: set<Fwd>, c1: set<Fwd>, s1: set<Fwd>): map<HolderId, Holder> {
    map[100 := Holder(ADDRESS, c0, s0), 101 := Holder(ADDRESS, c1, s1)]
  }

  // ----- the old forward comes up -----

  lemma Connected()
    ensures Reachable(INIT.(conns := Conns({})))
  {
    assert Exec(INIT, []) == Some(INIT);
    var s1 := INIT.(conns := map[0 := ConnState(Fresh, false, {})]);
    Take(INIT, Connect(0), s1);
    Take(s1, Connect(1), INIT.(conns := Conns({})));
  }

  lemma Begun()
    ensures Reachable(INIT.(conns := Conns({}), threads := Solo(Handler(A, Begin))))
  {
    Connected();
    Take(INIT.(conns := Conns({})), Arrive(0, Handler(A, Begin)), INIT.(conns := Conns({}), threads := Solo(Handler(A, Begin))));
  }

  function Listening(): Sys {
    At(Solo(Handler(A, Listen)), map[], {},
       None, {}, map[], map[], 0)
  }

  lemma ReachListening()
    ensures Reachable(Listening())
  {
    hide CleanMove, CloseMove, OpenMove;
    Begun();
    TakeGo(INIT.(conns := Conns({}), threads := Solo(Handler(A, Begin))), 0, Usual, Move(Main0(Handler(A, Listen)), Nothing), Listening());
  }

  function Making(): Sys {
    At(Solo(Handler(A, Count(OLD))), map[OLD := OldForward(Fresh, 0, false, Unset, true, 0).(counted := false)], {},
       None, {OLD}, map[], map[], 0)
  }

  lemma ReachMaking()
    ensures Reachable(Making())
  {
    hide CleanMove, CloseMove, OpenMove;
    ReachListening();
    SetFacts(OLD);
    TakeGo(Listening(), 0, New(OLD), Move(Main0(Handler(A, Count(OLD))), NewForward(OLD, 0, TARGET)), Making());
  }

  function Asking(): Sys {
    At(Solo(Handler(A, WantBind(OLD))), map[OLD := OldForward(Fresh, 0, false, Unset, true, 0)], {},
       None, {OLD}, map[], map[], 1)
  }

  lemma ReachAsking()
    ensures Reachable(Asking())
  {
    hide CleanMove, CloseMove, OpenMove;
    ReachMaking();
    TakeGo(Making(), 0, Usual, Move(Main0(Handler(A, WantBind(OLD))), CountCreated(OLD)), Asking());
  }

  function Opening(): Sys {
    At(Solo(Handler(A, Open(OLD))), map[OLD := OldForward(Fresh, 0, false, Unset, true, 0)], {},
       Some(0), {OLD}, map[], map[], 1)
  }

  lemma ReachOpening()
    ensures Reachable(Opening())
  {
    hide CleanMove, CloseMove, OpenMove;
    ReachAsking();
    TakeGo(Asking(), 0, Usual, Move(Main0(Handler(A, Open(OLD))), LockBind), Opening());
  }

  function Stored(): Sys {
    At(Solo(Handler(A, AddConn(OLD, 100))), map[OLD := OldForward(Fresh, 0, false, Unset, true, 0)], {},
       Some(0), {OLD}, map[ADDRESS := 100], OneHolder({}, {}), 1)
  }

  lemma ReachStored()
    ensures Reachable(Stored())
  {
    hide CleanMove, CloseMove;
    ReachOpening();
    SetFacts(OLD);
    TakeGo(Opening(), 0, Opens(Created({}, ADDRESS, 100)), Move(Main0(Handler(A, AddConn(OLD, 100))), Store({}, ADDRESS, 100)), Stored());
  }

  function Joined(): Sys {
    At(Solo(Handler(A, AddServer(OLD, 100))), map[OLD := OldForward(Fresh, 0, false, Unset, true, 0)], {},
       Some(0), {OLD}, map[ADDRESS := 100], OneHolder({OLD}, {}), 1)
  }

  lemma ReachJoined()
    ensures Reachable(Joined())
  {
    hide CleanMove, CloseMove, OpenMove;
    ReachStored();
    SetFacts(OLD);
    TakeGo(Stored(), 0, Usual, Move(Main0(Handler(A, AddServer(OLD, 100))), StoreConn(OLD, 100)), Joined());
  }

  function Bound(): Sys {
    At(Solo(Handler(A, ReleaseBind(OLD, true))), map[OLD := OldForward(Fresh, 0, false, Routed(100), true, 0)], {},
       Some(0), {OLD}, map[ADDRESS := 100], OneHolder({OLD}, {OLD}), 1)
  }

  lemma ReachBound()
    ensures Reachable(Bound())
  {
    hide CleanMove, CloseMove, OpenMove;
    ReachJoined();
    SetFacts(OLD);
    TakeGo(Joined(), 0, Usual, Move(Main0(Handler(A, ReleaseBind(OLD, true))), StoreServer(OLD, 100)), Bound());
  }

  function Released(): Sys {
    At(Solo(Handler(A, Register(OLD))), map[OLD := OldForward(Fresh, 0, false, Routed(100), true, 0)], {},
       None, {OLD}, map[ADDRESS := 100], OneHolder({OLD}, {OLD}), 1)
  }

  lemma ReachReleased()
    ensures Reachable(Released())
  {
    hide CleanMove, CloseMove, OpenMove;
    ReachBound();
    TakeGo(Bound(), 0, Usual, Move(Main0(Handler(A, Register(OLD))), UnlockBind), Released());
  }

  function Registered(): Sys {
    At(Solo(Handler(A, Watch(OLD))), map[OLD := OldForward(Fresh, 0, false, Routed(100), false, 0)], {OLD},
       None, {OLD}, map[ADDRESS := 100], OneHolder({OLD}, {OLD}), 1)
  }

  lemma ReachRegistered()
    ensures Reachable(Registered())
  {
    hide CleanMove, CloseMove, OpenMove;
    ReachReleased();
    SetFacts(OLD);
    TakeGo(Released(), 0, Usual, Move(Main0(Handler(A, Watch(OLD))), AddCleanup(OLD)), Registered());
  }

  function Watched(): Sys {
    At(Pair(Main0(Handler(A, Reply(OLD)))), map[OLD := OldForward(Fresh, 0, false, Routed(100), false, 1)], {OLD},
       None, {OLD}, map[ADDRESS := 100], OneHolder({OLD}, {OLD}), 1)
  }

  lemma ReachWatched()
    ensures Reachable(Watched())
  {
    hide CleanMove, CloseMove, OpenMove;
    ReachRegistered();
    TakeGo(Registered(), 0, New(1), Move(Main0(Handler(A, Reply(OLD))), Start(1, Watcher(OLD))), Watched());
  }

  // ----- the reply fails, and the cleanup gets as far as wanting the bind lock -----

  function Calling(): Sys {
    At(Pair(Failing(KWant)), map[OLD := OldForward(Fresh, 0, false, Routed(100), false, 1)], {OLD},
       None, {OLD}, map[ADDRESS := 100], OneHolder({OLD}, {OLD}), 1)
  }

  lemma ReachCalling()
    ensures Reachable(Calling())
  {
    hide CleanMove, CloseMove, OpenMove;
    ReachWatched();
    TakeGo(Watched(), 0, Other, Move(Failing(KWant), Nothing), Calling());
  }

  function Started(): Sys {
    At(Pair(Failing(KStart)), map[OLD := OldForward(Running(0), 1, false, Routed(100), false, 1)], {OLD},
       None, {OLD}, map[ADDRESS := 100], OneHolder({OLD}, {OLD}), 1)
  }

  lemma ReachStarted()
    ensures Reachable(Started())
  {
    hide MainMove, CloseMove, OpenMove;
    ReachCalling();
    TakeGo(Calling(), 0, Usual, Move(Failing(KStart), BeginClean(OLD)), Started());
  }

  function Announced(): Sys {
    At(Pair(Failing(KClose)), map[OLD := OldForward(Running(0), 1, true, Routed(100), false, 1).(closed := false)], {OLD},
       None, {OLD}, map[ADDRESS := 100], OneHolder({OLD}, {OLD}), 1)
  }

  lemma ReachAnnounced()
    ensures Reachable(Announced())
  {
    hide MainMove, CloseMove, OpenMove;
    ReachStarted();
    TakeGo(Started(), 0, Usual, Move(Failing(KClose), SignalDone(OLD)), Announced());
  }

  function Signalled(): Sys {
    At(Pair(Failing(KListener)), map[OLD := OldForward(Running(0), 1, true, Routed(100), false, 1)], {OLD},
       None, {OLD}, map[ADDRESS := 100], OneHolder({OLD}, {OLD}), 1)
  }

  lemma ReachSignalled()
    ensures Reachable(Signalled())
  {
    hide MainMove, CloseMove, OpenMove;
    ReachAnnounced();
    TakeGo(Announced(), 0, Usual, Move(Failing(KListener), CloseListener(OLD)), Signalled());
  }

  function Unlisted(): Sys {
    At(Pair(Failing(KUnlink)), map[OLD := OldForward(Running(0), 1, true, Routed(100), false, 1)], {OLD},
       None, {}, map[ADDRESS := 100], OneHolder({OLD}, {OLD}), 1)
  }

  lemma ReachUnlisted()
    ensures Reachable(Unlisted())
  {
    hide MainMove, CloseMove, OpenMove;
    ReachSignalled();
    SetFacts(OLD);
    TakeGo(Signalled(), 0, Usual, Move(Failing(KUnlink), DropListener(OLD)), Unlisted());
  }

  function Unlinked(): Sys {
    At(Pair(Failing(KHook)), map[OLD := OldForward(Running(0), 1, true, Routed(100), false, 1)], {},
       None, {}, map[ADDRESS := 100], OneHolder({OLD}, {OLD}), 1)
  }

  lemma ReachUnlinked()
    ensures Reachable(Unlinked())
  {
    hide MainMove, CloseMove, OpenMove;
    ReachUnlisted();
    SetFacts(OLD);
    TakeGo(Unlisted(), 0, Usual, Move(Failing(KHook), DropCleanup(OLD)), Unlinked());
  }

  function Waiting(): Sys {
    At(Pair(Failing(KWantBind)), map[OLD := OldForward(Running(0), 1, true, Routed(100), false, 1)], {},
       None, {}, map[ADDRESS := 100], OneHolder({OLD}, {OLD}), 1)
  }

  lemma ReachWaiting()
    ensures Reachable(Waiting())
  {
    hide MainMove, CloseMove, OpenMove;
    ReachUnlinked();
    TakeGo(Unlinked(), 0, Usual, Move(Failing(KWantBind), Nothing), Waiting());
  }

  // ----- another connection takes the same address, purging the stale entry -----

  function Arrived(): Sys {
    At(Trio(Begin), map[OLD := OldForward(Running(0), 1, true, Routed(100), false, 1)], {},
       None, {}, map[ADDRESS := 100], OneHolder({OLD}, {OLD}), 1)
  }

  lemma ReachArrived()
    ensures Reachable(Arrived())
  {
    ReachWaiting();
    Take(Waiting(), Arrive(2, Handler(B, Begin)), Arrived());
  }

  function RivalListens(): Sys {
    At(Trio(Listen), map[OLD := OldForward(Running(0), 1, true, Routed(100), false, 1)], {},
       None, {}, map[ADDRESS := 100], OneHolder({OLD}, {OLD}), 1)
  }

  lemma ReachRivalListens()
    ensures Reachable(RivalListens())
  {
    hide CleanMove, CloseMove, OpenMove;
    ReachArrived();
    TakeGo(Arrived(), 2, Usual, Move(Main0(Handler(B, Listen)), Nothing), RivalListens());
  }

  function RivalMakes(): Sys {
    At(Trio(Count(YOUNG)), Forwards(Unset)[YOUNG := Forwards(Unset)[YOUNG].(counted := false)], {},
       None, {YOUNG}, map[ADDRESS := 100], OneHolder({OLD}, {OLD}), 1)
  }

  lemma ReachRivalMakes()
    ensures Reachable(RivalMakes())
  {
    hide CleanMove, CloseMove, OpenMove;
    ReachRivalListens();
    SetFacts(YOUNG);
    TakeGo(RivalListens(), 2, New(YOUNG), Move(Main0(Handler(B, Count(YOUNG))), NewForward(YOUNG, 1, TARGET)), RivalMakes());
  }

  function RivalAsks(): Sys {
    At(Trio(WantBind(YOUNG)), Forwards(Unset), {},
       None, {YOUNG}, map[ADDRESS := 100], OneHolder({OLD}, {OLD}), 2)
  }

  lemma ReachRivalAsks()
    ensures Reachable(RivalAsks())
  {
    hide CleanMove, CloseMove, OpenMove;
    ReachRivalMakes();
    TakeGo(RivalMakes(), 2, Usual, Move(Main0(Handler(B, WantBind(YOUNG))), CountCreated(YOUNG)), RivalAsks());
  }

  function RivalOpens(): Sys {
    At(Trio(Open(YOUNG)), Forwards(Unset), {},
       Some(2), {YOUNG}, map[ADDRESS := 100], OneHolder({OLD}, {OLD}), 2)
  }

  lemma ReachRivalOpens()
    ensures Reachable(RivalOpens())
  {
    hide CleanMove, CloseMove, OpenMove;
    ReachRivalAsks();
    TakeGo(RivalAsks(), 2, Usual, Move(Main0(Handler(B, Open(YOUNG))), LockBind), RivalOpens());
  }

  function Replaced(): Sys {
    At(Trio(AddConn(YOUNG, 101)), Forwards(Unset), {},
       Some(2), {YOUNG}, map[ADDRESS := 101], TwoHolders({OLD}, {OLD}, {}, {}), 2)
  }

  lemma ReachReplaced()
    ensures Reachable(Replaced())
  {
    hide CleanMove, CloseMove;
    ReachRivalOpens();
    SetFacts(OLD);
    assert Stale(RivalOpens(), 100);
    TakeGo(RivalOpens(), 2, Opens(Created({ADDRESS}, ADDRESS, 101)), Move(Main0(Handler(B, AddConn(YOUNG, 101))), Store({ADDRESS}, ADDRESS, 101)), Replaced());
  }

  function RivalJoined(): Sys {
    At(Trio(AddServer(YOUNG, 101)), Forwards(Unset), {},
       Some(2), {YOUNG}, map[ADDRESS := 101], TwoHolders({OLD}, {OLD}, {YOUNG}, {}), 2)
  }

  lemma ReachRivalJoined()
    ensures Reachable(RivalJoined())
  {
    hide CleanMove, CloseMove, OpenMove;
    ReachReplaced();
    SetFacts(YOUNG);
    TakeGo(Replaced(), 2, Usual, Move(Main0(Handler(B, AddServer(YOUNG, 101))), StoreConn(YOUNG, 101)), RivalJoined());
  }

  function RivalBound(): Sys {
    At(Trio(ReleaseBind(YOUNG, true)), Forwards(Routed(101)), {},
       Some(2), {YOUNG}, map[ADDRESS := 101], TwoHolders({OLD}, {OLD}, {YOUNG}, {YOUNG}), 2)
  }

  lemma ReachRivalBound()
    ensures Reachable(RivalBound())
  {
    hide CleanMove, CloseMove, OpenMove;
    ReachRivalJoined();
    SetFacts(YOUNG);
    TakeGo(RivalJoined(), 2, Usual, Move(Main0(Handler(B, ReleaseBind(YOUNG, true))), StoreServer(YOUNG, 101)), RivalBound());
  }

  function Settled(): Sys {
    At(Trio(Register(YOUNG)), Forwards(Routed(101)), {},
       None, {YOUNG}, map[ADDRESS := 101], TwoHolders({OLD}, {OLD}, {YOUNG}, {YOUNG}), 2)
  }

  lemma ReachSettled()
    ensures Reachable(Settled())
  {
    hide CleanMove, CloseMove, OpenMove;
    ReachRivalBound();
    TakeGo(RivalBound(), 2, Usual, Move(Main0(Handler(B, Register(YOUNG))), UnlockBind), Settled());
  }

  // ----- the old cleanup goes on and deletes the young forward's route -----

  function Resumed(): Sys {
    At(After(KServer), Forwards(Routed(101)), {},
       Some(0), {YOUNG}, map[ADDRESS := 101], TwoHolders({OLD}, {OLD}, {YOUNG}, {YOUNG}), 2)
  }

  lemma ReachResumed()
    ensures Reachable(Resumed())
  {
    hide MainMove, CloseMove, OpenMove;
    ReachSettled();
    TakeGo(Settled(), 0, Usual, Move(Failing(KServer), LockBind), Resumed());
  }

  function Unserved(): Sys {
    At(After(KConn), Forwards(Routed(101)), {},
       Some(0), {YOUNG}, map[ADDRESS := 101], TwoHolders({OLD}, {}, {YOUNG}, {YOUNG}), 2)
  }

  lemma ReachUnserved()
    ensures Reachable(Unserved())
  {
    hide MainMove, CloseMove, OpenMove;
    ReachResumed();
    SetFacts(OLD);
    TakeGo(Resumed(), 0, Usual, Move(Failing(KConn), DropServer(OLD, 100)), Unserved());
  }

  function Emptied(): Sys {
    At(After(KRoute), Forwards(Routed(101)), {},
       Some(0), {YOUNG}, map[ADDRESS := 101], TwoHolders({}, {}, {YOUNG}, {YOUNG}), 2)
  }

  lemma ReachEmptied()
    ensures Reachable(Emptied())
  {
    hide MainMove, CloseMove, OpenMove;
    ReachUnserved();
    SetFacts(OLD);
    TakeGo(Unserved(), 0, Usual, Move(Failing(KRoute), DropConn(OLD, 100)), Emptied());
  }

  /** The entry goes by its key, which by now leads to the young forward's holder. */
  lemma EntryGoes()
    ensures Step(Emptied(), Go(0, Usual)).Some?
    ensures var s, s1 := Emptied(), Step(Emptied(), Go(0, Usual)).value;
      s1.routes == map[] && s1.fwds == s.fwds && s1.holders == s.holders
  {
    hide MainMove, CloseMove;
    var s := Emptied();
    assert Plan(s, s.threads[0], Usual) == Some(Move(Failing(KRelease), DropRoute(100)));
  }

  /**
   * The premise about purges is needed: a reachable state in which every live
   * forward is routed, and a step after which one is not.
   */
  lemma OverlapLosesRoute() returns (s: Sys, a: Action)
    ensures Reachable(s) && Step(s, a).Some?
    ensures AllLiveRouted(s) && !AllLiveRouted(Step(s, a).value)
  {
    hide Step;
    ReachEmptied();
    EntryGoes();
    s, a := Emptied(), Go(0, Usual);
    assert !Live(s, OLD) && Live(s, YOUNG);
    var s1 := Step(s, a).value;
    assert Live(s1, YOUNG) && !Leads(s1, 101);
  }
}
