// Whether a live forward stays routed. Teardown deletes the route by key, so a
// holder that replaced a purged one under the same key can lose its route; this
// is exactly when a live forward is left without one.

module ForwardRouting {
  import opened Options
  import opened Slots
  import opened ForwardModel
  import opened ForwardOwners
  import opened ForwardSetup
  import opened ForwardRoutes
  import opened ForwardTheorems

  /** Established, and its cleanup has not begun. */
  predicate Live(s: Sys, f: Fwd) {
    f in s.fwds && s.fwds[f].binding.Routed? && s.fwds[f].once.Fresh?
  }

  /** The holder is what its own key leads to. */
  predicate Leads(s: Sys, h: HolderId) {
    h in s.holders && s.holders[h].key in s.routes && s.routes[s.holders[h].key] == h
  }

  ghost predicate AllLiveRouted(s: Sys) {
    forall f <- s.fwds :: Live(s, f) ==> Leads(s, s.fwds[f].binding.holder)
  }

  // ----- more invariants -----

  predicate PastHolder(pc: CleanPc) {
    pc.KRoute? || pc.KRelease? || pc.KCount? || pc.KEnd?
  }

  /** The cleanup of f has not come to take it out of its holder's connections. */
  predicate StillIn(s: Sys, f: Fwd) {
    f in s.fwds &&
    match s.fwds[f].once
    case Fresh => true
    case Done => false
    case Running(t) =>
      t in s.threads && s.threads[t].clean.Some? && s.threads[t].clean.value.f == f
      && !PastHolder(s.threads[t].clean.value.pc)
  }

  /** Holders list only forwards bound to them, or about to be, whose teardown has not reached the holder. */
  ghost predicate MembersBound(s: Sys) {
    forall h <- s.holders, f <- s.holders[h].conns ::
      StillIn(s, f) && (s.fwds[f].binding == Routed(h) || SpotNow(s) == Adding(f, h))
  }

  /** A live forward is listed by its holder and its socket is still listed too. */
  ghost predicate LiveListed(s: Sys) {
    forall f <- s.fwds :: s.fwds[f].once.Fresh? ==>
      && f in s.listeners
      && (s.fwds[f].binding.Routed? ==>
            s.fwds[f].binding.holder in s.holders && f in s.holders[s.fwds[f].binding.holder].conns)
  }

  /** The holder being added to is in the map. */
  ghost predicate AdderLeads(s: Sys) {
    match SpotNow(s)
    case Storing(h) => Leads(s, h)
    case Adding(_, h) => Leads(s, h)
    case _ => true
  }

  /** Until its holder's balancer has it, a forward being set up has no binding. */
  predicate Unbinding(th: Thread) {
    th.main.Handler? && (th.main.pc.Count? || th.main.pc.WantBind? || th.main.pc.Open? || th.main.pc.AddConn? || th.main.pc.AddServer?)
  }

  ghost predicate Unbound(s: Sys) {
    forall t <- s.threads :: Unbinding(s.threads[t]) && s.threads[t].main.pc.f in s.fwds ==>
      s.fwds[s.threads[t].main.pc.f].binding.Unset?
  }

  lemma ApplyListeners(s: Sys, t: Tid, ch: Change)
    requires Applicable(s, ch)
    ensures Apply(s, t, ch).listeners
            == if ch.NewForward? then s.listeners + {ch.f} else if ch.DropListener? then s.listeners - {ch.f} else s.listeners
  {
    hide FwdsAfter, ConnsAfter, TargetsAfter, BindAfter, RoutesAfter, HoldersAfter;
  }

  lemma StepListeners(s: Sys, a: Action)
    requires Step(s, a).Some?
    ensures var s1, ch := Step(s, a).value, ChangeOf(s, a);
            s1.listeners == if ch.NewForward? then s.listeners + {ch.f}
                            else if ch.DropListener? then s.listeners - {ch.f} else s.listeners
  {
    hide Plan, Step, Apply, ChangeOf, Applicable;
    if a.Go? {
      var m, _ := GoStep(s, a);
      ApplyListeners(s, a.t, m.ch);
    } else {
      OtherStep(s, a);
    }
  }

  lemma CleanDrops(s: Sys, th: Thread)
    requires th.clean.Some? && CleanMove(s, th).Some?
    ensures var m := CleanMove(s, th).value;
            && (m.ch.DropListener? || m.ch.DropServer? || m.ch.DropConn? || m.ch.DropRoute? ==> Cleaning(th).Some?)
            && (m.ch.DropListener? || m.ch.DropServer? || m.ch.DropConn? ==>
                  Cleaning(th) == Some(m.ch.f) && Cleaning(m.th) == Some(m.ch.f))
            && (m.ch.DropServer? || m.ch.DropConn? ==> m.ch.f in s.fwds && s.fwds[m.ch.f].binding == Routed(m.ch.h))
            && (m.ch.DropConn? ==> m.th.clean == Some(CleanCall(m.ch.f, KRoute)) && th.clean == Some(CleanCall(m.ch.f, KConn)))
  {}

  /** What a thread takes out concerns the forward whose cleanup it is inside. */
  lemma MoveDrops(s: Sys, th: Thread, x: Choice)
    requires Parked(th) && Plan(s, th, x).Some?
    ensures var m := Plan(s, th, x).value;
            && (m.ch.DropListener? || m.ch.DropServer? || m.ch.DropConn? || m.ch.DropRoute? ==> Cleaning(th).Some?)
            && (m.ch.DropListener? || m.ch.DropServer? || m.ch.DropConn? ==>
                  Cleaning(th) == Some(m.ch.f) && Cleaning(m.th) == Some(m.ch.f))
            && (m.ch.DropServer? || m.ch.DropConn? ==> m.ch.f in s.fwds && s.fwds[m.ch.f].binding == Routed(m.ch.h))
            && (m.ch.StoreConn? ==> Early(th) == Some(m.ch.f))
  {
    hide CleanMove, CloseMove, OpenMove;
    if th.clean.Some? {
      CleanChanges(s, th);
      CleanDrops(s, th);
    } else if th.close.Some? {
      CloseChanges(s, th, x);
    } else if th.main.Handler? && th.main.pc.Open? && x.Opens? {
      MoveOpen(s, th, x.o);
    }
  }

  lemma StepHolder(s: Sys, a: Action, h: HolderId)
    requires Step(s, a).Some?
    ensures var s1, ch := Step(s, a).value, ChangeOf(s, a);
            if h in s.holders then
              && h in s1.holders && s1.holders[h].key == s.holders[h].key
              && s1.holders[h].conns == (if ch.StoreConn? && ch.h == h then s.holders[h].conns + {ch.f}
                                         else if ch.DropConn? && ch.h == h then s.holders[h].conns - {ch.f}
                                         else s.holders[h].conns)
            else
              h in s1.holders ==> ch.Store? && ch.h == h && s1.holders[h] == Holder(ch.key, {}, {})
  {
    hide Plan, Step, Apply, ChangeOf, Applicable;
    if a.Go? {
      var m := GoRoutes(s, a);
      if h in s.holders {
        ApplyHolder(s, a.t, m.ch, h);
      } else {
        ApplyNewHolder(s, a.t, m.ch, h);
      }
    } else {
      OtherStep(s, a);
    }
  }

  lemma StepRoutes(s: Sys, a: Action)
    requires Step(s, a).Some?
    ensures var ch := ChangeOf(s, a);
            && (ch.DropRoute? ==> ch.h in s.holders)
            && (ch.Store? ==> ch.h !in s.holders)
            && Step(s, a).value.routes
               == match ch
                  case Purge(purged) => s.routes - purged
                  case Store(purged, key, h) => (s.routes - purged)[key := h]
                  case DropRoute(h) => if s.holders[h].servers == {} then s.routes - {s.holders[h].key} else s.routes
                  case _ => s.routes
  {
    hide Plan, Step, Apply, ChangeOf, Applicable;
    if a.Go? {
      var m := GoRoutes(s, a);
      ApplyRoutes(s, a.t, m.ch);
      RouteChange(s, m.ch);
    } else {
      OtherStep(s, a);
    }
  }

  lemma RouteChange(s: Sys, ch: Change)
    requires Applicable(s, ch)
    ensures (ch.DropRoute? ==> ch.h in s.holders) && (ch.Store? ==> ch.h !in s.holders)
  {}

  lemma StepLiveListed(s: Sys, a: Action)
    requires Inv(s) && LiveListed(s) && Step(s, a).Some?
    ensures LiveListed(Step(s, a).value)
  {
    hide Plan, Step, Apply, ChangeOf, Applicable, SpotOf, Early, Late, ThreadHolders, RoutesLead, OnePerSlot, Counted, Refs,
         SetupOver, Kept, CloseOwned, TargetOwned;
    var s1, ch := Step(s, a).value, ChangeOf(s, a);
    StepListeners(s, a);
    StepSpot(s, a);
    if a.Go? {
      StepThreads(s, a);
      MoveDrops(s, s.threads[a.t], a.x);
      MoveSpot(s, s.threads[a.t], a.x);
      SpotHeld(s, a.t);
    } else {
      OtherStep(s, a);
    }
    forall f <- s1.fwds | s1.fwds[f].once.Fresh?
      ensures f in s1.listeners
      ensures s1.fwds[f].binding.Routed? ==>
                s1.fwds[f].binding.holder in s1.holders && f in s1.holders[s1.fwds[f].binding.holder].conns
    {
      StepFwdOnce(s, a, f);
      if f in s.fwds {
        StepBinding(s, a, f);
        if s1.fwds[f].binding.Routed? {
          StepHolder(s, a, s1.fwds[f].binding.holder);
        }
        if ch.StoreServer? && ch.f == f {
          assert InStep(s.holders[ch.h], ch.h, SpotNow(s));
        }
      } else {
        StepNew(s, a, f);
      }
    }
  }

  lemma StepAdderLeads(s: Sys, a: Action)
    requires Inv(s) && AdderLeads(s) && Step(s, a).Some?
    ensures AdderLeads(Step(s, a).value)
  {
    hide Plan, Step, Apply, ChangeOf, Applicable, SpotOf, SpotNow, Early, Late, ThreadHolders, OnePerSlot, Counted, Refs,
         Kept, CloseOwned, TargetOwned, CleanOwned, HolderRefs, HoldersInStep;
    var s1, ch := Step(s, a).value, ChangeOf(s, a);
    StepSpot(s, a);
    StepRoutes(s, a);
    if a.Go? {
      StepThreads(s, a);
      MoveSpot(s, s.threads[a.t], a.x);
      MoveOpenSpots(s, s.threads[a.t], a.x);
      MoveBind(s, s.threads[a.t], a.x);
      SpotHeld(s, a.t);
    } else {
      OtherStep(s, a);
    }
    match SpotNow(s1) {
      case Storing(h) =>
        StepHolder(s, a, h);
        if ch.Store? {
          StoredHolder(s, a);
        }
      case Adding(_, h) => StepHolder(s, a, h);
      case _ =>
    }
  }

  lemma StoredHolder(s: Sys, a: Action)
    requires Step(s, a).Some? && ChangeOf(s, a).Store?
    ensures var s1, ch := Step(s, a).value, ChangeOf(s, a);
            ch.h in s1.holders && s1.holders[ch.h] == Holder(ch.key, {}, {})
  {
    hide Plan, Step, Apply, ChangeOf, Applicable;
    if !a.Go? {
      OtherStep(s, a);
    } else {
      var m := GoRoutes(s, a);
      StoreIsNew(s, m.ch);
      ApplyNewHolder(s, a.t, m.ch, m.ch.h);
    }
  }

  lemma MoveUnbound(s: Sys, th: Thread, x: Choice)
    requires Parked(th) && Plan(s, th, x).Some? && Unbinding(Plan(s, th, x).value.th)
    ensures var m := Plan(s, th, x).value;
            && !m.ch.StoreServer? && !m.ch.BindTcp?
            && (Unbinding(th) || m.ch.NewForward?)
            && Early(m.th) == Some(m.th.main.pc.f)
            && (Unbinding(th) ==> m.th.main.pc.f == th.main.pc.f && Early(th) == Early(m.th))
            && (m.ch.NewForward? ==> m.ch.f == m.th.main.pc.f)
  {
    hide CleanMove, CloseMove, OpenMove;
    if th.clean.Some? {
      CleanChanges(s, th);
      CleanKeepsMain(s, th);
    } else if th.close.Some? {
      CloseChanges(s, th, x);
      CloseKeepsMain(s, th, x);
    } else if th.main.Handler? && th.main.pc.Open? && x.Opens? {
      MoveOpen(s, th, x.o);
      OpenKeepsReq(s, th, x.o);
      OpenUnbinding(s, th, x.o);
    }
  }

  lemma OpenUnbinding(s: Sys, th: Thread, o: Opening)
    requires th.main.Handler? && th.main.pc.Open? && OpenMove(s, th, o).Some?
    ensures var m := OpenMove(s, th, o).value;
            Unbinding(m.th) ==> m.th.main.pc.f == th.main.pc.f && !m.ch.BindTcp? && !m.ch.StoreServer?
  {}

  lemma UnbindingIsEarly(th: Thread)
    ensures Unbinding(th) ==> Early(th) == Some(th.main.pc.f)
  {}

  lemma StartedUnbinding(main: Main)
    ensures main.Watcher? || main.Acceptor? || main.Canceller? || main.Closer? ==> !Unbinding(Thread(main, None, None))
  {}

  lemma StepUnbound(s: Sys, a: Action)
    requires Inv(s) && Unbound(s) && Step(s, a).Some?
    ensures Unbound(Step(s, a).value)
  {
    hide Plan, Step, Apply, ChangeOf, Applicable, SpotOf, SpotNow, Early, Late, ThreadHolders, OnePerSlot, Counted, Refs,
         Kept, CloseOwned, TargetOwned, CleanOwned, HolderRefs, HoldersInStep, RoutesLead;
    var s1, ch := Step(s, a).value, ChangeOf(s, a);
    StepThreads(s, a);
    StepCounters(s, a, 0);
    if !a.Go? {
      OtherStep(s, a);
    }
    if a.Arrive? {
      ArrivedUnbinding(s, a.main);
    }
    if ch.Start? {
      StartedUnbinding(ch.main);
    }
    forall t <- s1.threads | Unbinding(s1.threads[t]) && s1.threads[t].main.pc.f in s1.fwds
      ensures s1.fwds[s1.threads[t].main.pc.f].binding.Unset?
    {
      var f := s1.threads[t].main.pc.f;
      UnbindingIsEarly(s1.threads[t]);
      if a.Go? && t == a.t {
        MoveUnbound(s, s.threads[a.t], a.x);
      }
      if f in s.fwds {
        StepBinding(s, a, f);
        if a.Go? && t != a.t {
          assert Early(s.threads[t]) == Some(f);
          assert s.fwds[f].keeper == t;
        }
        OpenUnset(s, a);
      } else {
        StepNew(s, a, f);
      }
    }
  }

  lemma ArrivedUnbinding(s: Sys, main: Main)
    requires MayArrive(s, main)
    ensures !Unbinding(Thread(main, None, None))
  {}

  /** A cleanup passes its holder only by taking the forward out of it, or finding it never was in one. */
  lemma MoveStill(s: Sys, th: Thread, x: Choice)
    requires Parked(th) && Plan(s, th, x).Some? && th.clean.Some? && !th.clean.value.pc.KWant?
    ensures var m, f := Plan(s, th, x).value, th.clean.value.f;
            && f in s.fwds
            && (m.th.clean.Some? ==> m.th.clean.value.f == f)
            && (m.ch == EndClean(f) ==> th.clean.value.pc.KEnd?)
            && (m.th.clean.None? ==> th.clean.value.pc.KEnd?)
            && (m.th.clean.Some? && PastHolder(m.th.clean.value.pc) ==>
                  || PastHolder(th.clean.value.pc)
                  || (s.fwds[f].binding.Routed? && m.ch == DropConn(f, s.fwds[f].binding.holder))
                  || !s.fwds[f].binding.Routed?)
  {}

  lemma StepStillIn(s: Sys, a: Action, f: Fwd)
    requires Inv(s) && Step(s, a).Some? && StillIn(s, f)
    ensures var s1, ch := Step(s, a).value, ChangeOf(s, a);
            || StillIn(s1, f)
            || !s.fwds[f].binding.Routed?
            || ch == DropConn(f, s.fwds[f].binding.holder)
    ensures !s.fwds[f].once.Running? ==> StillIn(Step(s, a).value, f)
  {
    hide Plan, Step, Apply, ChangeOf, Applicable, SpotOf, SpotNow, Early, Late, ThreadHolders, OnePerSlot, Counted, Refs,
         Kept, CloseOwned, TargetOwned, HolderRefs, HoldersInStep, RoutesLead, SetupOver, SetupOwned, BindOwned;
    StepThreads(s, a);
    StepFwdOnce(s, a, f);
    if a.Go? {
      MoveTouches(s, s.threads[a.t], a.x);
      MoveClean(s, s.threads[a.t], a.x);
      if s.fwds[f].once == Running(a.t) {
        MoveStill(s, s.threads[a.t], a.x);
      }
      if ChangeOf(s, a) == BeginClean(f) {
        BeginsAtStart(s, s.threads[a.t], a.x);
      }
    } else {
      OtherStep(s, a);
    }
  }

  lemma BeginsAtStart(s: Sys, th: Thread, x: Choice)
    requires Parked(th) && Plan(s, th, x).Some? && Plan(s, th, x).value.ch.BeginClean?
    ensures var m := Plan(s, th, x).value; m.th.clean == Some(CleanCall(m.ch.f, KStart))
  {}

  lemma StepMember(s: Sys, a: Action, h: HolderId, f: Fwd)
    requires Inv(s) && MembersBound(s) && Unbound(s) && Step(s, a).Some?
    requires h in Step(s, a).value.holders && f in Step(s, a).value.holders[h].conns
    ensures var s1 := Step(s, a).value;
            f in s1.fwds && StillIn(s1, f) && (s1.fwds[f].binding == Routed(h) || SpotNow(s1) == Adding(f, h))
  {
    hide Plan, Step, Apply, ChangeOf, Applicable, SpotOf, SpotNow, Early, Late, ThreadHolders, OnePerSlot, Counted, Refs,
         Kept, CloseOwned, TargetOwned, HolderRefs, HoldersInStep, RoutesLead, CleanOwned, Unbinding, StillIn;
    var s1, ch := Step(s, a).value, ChangeOf(s, a);
    StepThreads(s, a);
    StepLocks(s, a);
    StepSpot(s, a);
    StepHolder(s, a, h);
    if a.Go? {
      MoveSpot(s, s.threads[a.t], a.x);
      MoveOpenSpots(s, s.threads[a.t], a.x);
      MoveDrops(s, s.threads[a.t], a.x);
      MoveBind(s, s.threads[a.t], a.x);
      SpotHeld(s, a.t);
    } else {
      OtherStep(s, a);
    }
    if ch.StoreConn? && ch.h == h && ch.f == f {
      FreshStill(s, f);
      StepStillIn(s, a, f);
      InFwds(Step(s, a).value, f);
    } else {
      InFwds(s, f);
      StepStillIn(s, a, f);
      StepBinding(s, a, f);
      OpenUnset(s, a);
      if SpotNow(s) == Adding(f, h) {
        AddingIsSetup(s, f, h);
      }
    }
  }

  lemma AddingIsSetup(s: Sys, f: Fwd, h: HolderId)
    requires SetupOwned(s) && SpotNow(s) == Adding(f, h)
    ensures f in s.fwds && s.fwds[f].setup && s.fwds[f].once.Fresh?
  {
    assert Early(s.threads[s.bind.value]) == Some(f);
  }

  lemma StepMembersBound(s: Sys, a: Action)
    requires Inv(s) && MembersBound(s) && Unbound(s) && Step(s, a).Some?
    ensures MembersBound(Step(s, a).value)
  {
    hide Inv, Step, SpotNow, MembersBound;
    var s1 := Step(s, a).value;
    forall h <- s1.holders, f <- s1.holders[h].conns
      ensures StillIn(s1, f) && (s1.fwds[f].binding == Routed(h) || SpotNow(s1) == Adding(f, h))
    {
      StepMember(s, a, h, f);
    }
    MembersBoundFrom(s1);
  }

  lemma MembersBoundFrom(s: Sys)
    requires forall h <- s.holders, f <- s.holders[h].conns ::
               StillIn(s, f) && (s.fwds[f].binding == Routed(h) || SpotNow(s) == Adding(f, h))
    ensures MembersBound(s)
  {}

  lemma FreshStill(s: Sys, f: Fwd)
    requires f in s.fwds && s.fwds[f].once.Fresh?
    ensures StillIn(s, f)
  {}

  lemma InFwds(s: Sys, f: Fwd)
    requires StillIn(s, f)
    ensures f in s.fwds && !s.fwds[f].once.Done?
  {}

  lemma OpenUnset(s: Sys, a: Action)
    requires AllParked(s) && Unbound(s) && SetupOwned(s) && Step(s, a).Some?
    ensures var ch := ChangeOf(s, a);
            ch.BindTcp? || ch.StoreServer? ==> ch.f in s.fwds && s.fwds[ch.f].binding.Unset? && s.fwds[ch.f].setup
  {
    hide Plan, Step, Apply, ChangeOf, Applicable, SpotOf, SpotNow, Early, Late;
    if a.Go? {
      StepThreads(s, a);
      MoveBindUnbinding(s, s.threads[a.t], a.x);
    } else {
      OtherStep(s, a);
    }
  }

  lemma MoveBindUnbinding(s: Sys, th: Thread, x: Choice)
    requires Parked(th) && Plan(s, th, x).Some?
    ensures var m := Plan(s, th, x).value;
            m.ch.BindTcp? || m.ch.StoreServer? ==> Unbinding(th) && th.main.pc.f == m.ch.f && Early(th) == Some(m.ch.f)
  {
    hide CleanMove, CloseMove, OpenMove;
    if th.clean.Some? {
      CleanChanges(s, th);
      CleanKeepsMain(s, th);
    } else if th.close.Some? {
      CloseChanges(s, th, x);
      CloseKeepsMain(s, th, x);
    } else if th.main.Handler? && th.main.pc.Open? && x.Opens? {
      MoveOpen(s, th, x.o);
      OpenKeepsReq(s, th, x.o);
      OpenUnbinding(s, th, x.o);
    }
  }

  // ----- the theorem -----

  ghost predicate RoutingInv(s: Sys) {
    Inv(s) && LiveListed(s) && AdderLeads(s) && Unbound(s) && MembersBound(s)
  }

  lemma StepRoutingInv(s: Sys, a: Action)
    requires RoutingInv(s) && Step(s, a).Some?
    ensures RoutingInv(Step(s, a).value)
  {
    hide Inv, LiveListed, AdderLeads, Unbound, MembersBound, Step, Plan;
    StepInv(s, a);
    StepLiveListed(s, a);
    StepAdderLeads(s, a);
    StepUnbound(s, a);
    StepMembersBound(s, a);
  }

  lemma {:induction false} RunRoutingInv(run: seq<Action>)
    requires Exec(INIT, run).Some?
    ensures RoutingInv(Exec(INIT, run).value)
    decreases |run|
  {
    hide Inv, Step, Plan;
    if run == [] {
      InitInv();
    } else {
      RunRoutingInv(run[..|run| - 1]);
      StepRoutingInv(Exec(INIT, run[..|run| - 1]).value, run[|run| - 1]);
    }
  }

  /** The keys a step purges as stale. */
  function Purged(s: Sys, a: Action): set<Key>
    requires Step(s, a).Some?
  {
    match ChangeOf(s, a)
    case Purge(purged) => purged
    case Store(purged, _, _) => purged
    case _ => {}
  }

  lemma PurgedInWindow(s: Sys, a: Action, k: Key)
    requires RoutingInv(s) && Step(s, a).Some? && k in Purged(s, a)
    ensures k in s.routes && s.routes[k] in s.holders && s.holders[s.routes[k]].conns != {}
    ensures forall f <- s.holders[s.routes[k]].conns ::
              f in s.fwds && s.fwds[f].once.Running? && f !in s.listeners && StillIn(s, f)
  {
    hide Plan, Step, Apply, ChangeOf, Applicable, SpotOf, SpotNow, Early, Late, OnePerSlot, Counted, Refs, Kept,
         CloseOwned, TargetOwned, CleanOwned, HolderRefs, HoldersInStep, Unbound, AdderLeads, BindOwned;
    if a.Go? {
      StepThreads(s, a);
      MoveOpenSpots(s, s.threads[a.t], a.x);
      PurgeQuiet(s, a);
    } else {
      OtherStep(s, a);
    }
    var h := s.routes[k];
    forall f <- s.holders[h].conns
      ensures f in s.fwds && s.fwds[f].once.Running? && f !in s.listeners && StillIn(s, f)
    {
      InFwds(s, f);
    }
  }

  lemma PurgeQuiet(s: Sys, a: Action)
    requires AllParked(s) && BindOwned(s) && a.Go? && Step(s, a).Some?
    ensures ChangeOf(s, a).Purge? || ChangeOf(s, a).Store? ==> SpotNow(s).Quiet?
  {
    hide Plan, Step, Apply, ChangeOf, Applicable, SpotOf;
    StepThreads(s, a);
    MoveSpot(s, s.threads[a.t], a.x);
    MoveOpenSpots(s, s.threads[a.t], a.x);
  }

  /** The failing branch: the last server of h is gone, and h's key by now leads to another holder with a live forward. */
  ghost predicate ForeignDelete(s: Sys, a: Action)
    requires Step(s, a).Some?
  {
    var ch := ChangeOf(s, a);
    && ch.DropRoute? && ch.h in s.holders && s.holders[ch.h].servers == {}
    && s.holders[ch.h].key in s.routes
    && var other := s.routes[s.holders[ch.h].key];
       other != ch.h && exists f <- s.fwds :: Live(s, f) && s.fwds[f].binding.holder == other
  }

  lemma LiveAfter(s: Sys, a: Action, f: Fwd)
    requires RoutingInv(s) && Step(s, a).Some? && Live(Step(s, a).value, f)
    ensures f in s.fwds
    ensures (Live(s, f) && Step(s, a).value.fwds[f].binding == s.fwds[f].binding)
            || ChangeOf(s, a) == StoreServer(f, Step(s, a).value.fwds[f].binding.holder)
  {
    hide Inv, LiveListed, AdderLeads, MembersBound, Plan, Step, ChangeOf;
    InvParts(s);
    StepFwdOnce(s, a, f);
    if f in s.fwds {
      StepBinding(s, a, f);
      OpenUnset(s, a);
    } else {
      StepNew(s, a, f);
    }
  }

  lemma InvParts(s: Sys)
    requires Inv(s)
    ensures AllParked(s) && BindOwned(s) && CleanOwned(s) && SetupOwned(s) && SetupOver(s) && HoldersInStep(s) && RoutesLead(s)
  {}

  /** A route that led to its holder still does, unless purged or deleted by key. */
  lemma LeadsAfter(s: Sys, a: Action, f: Fwd, h: HolderId)
    requires RoutingInv(s) && Step(s, a).Some? && Leads(s, h)
    requires f in s.holders[h].conns && f in s.fwds && s.fwds[f].once.Fresh?
    ensures Leads(Step(s, a).value, h)
            || (ChangeOf(s, a).DropRoute? && ChangeOf(s, a).h in s.holders && s.holders[ChangeOf(s, a).h].servers == {}
                && s.holders[ChangeOf(s, a).h].key == s.holders[h].key && ChangeOf(s, a).h != h)
  {
    hide Inv, LiveListed, AdderLeads, MembersBound, Unbound, Plan, Step, ChangeOf, SpotOf, SpotNow, HoldersInStep;
    InvParts(s);
    var ch := ChangeOf(s, a);
    StepRoutes(s, a);
    StepHolder(s, a, h);
    if s.holders[h].key in Purged(s, a) {
      PurgedInWindow(s, a, s.holders[h].key);
    }
    if ch.Store? {
      StoredIsFree(s, a);
    }
    if ch.DropRoute? && ch.h == h {
      EmptiedHolder(s, a);
    }
  }

  lemma StoredIsFree(s: Sys, a: Action)
    requires AllParked(s) && Step(s, a).Some? && ChangeOf(s, a).Store?
    ensures var ch := ChangeOf(s, a); ch.key !in s.routes || ch.key in ch.purged
  {
    hide Plan, Step, Apply, ChangeOf, Applicable, SpotOf;
    if a.Go? {
      StepThreads(s, a);
      MoveOpenSpots(s, s.threads[a.t], a.x);
      var ch := ChangeOf(s, a);
      assert Conflicts(ch.key.slot, ch.key.slot);
    } else {
      OtherStep(s, a);
    }
  }

  lemma EmptiedHolder(s: Sys, a: Action)
    requires AllParked(s) && BindOwned(s) && HoldersInStep(s) && Step(s, a).Some? && ChangeOf(s, a).DropRoute?
    ensures var h := ChangeOf(s, a).h; h in s.holders && s.holders[h].servers == s.holders[h].conns && SpotNow(s) == Emptied(h)
  {
    hide Plan, Step, Apply, ChangeOf, Applicable, SpotOf;
    if a.Go? {
      StepThreads(s, a);
      StepRoutes(s, a);
      MoveSpot(s, s.threads[a.t], a.x);
      var h := ChangeOf(s, a).h;
      assert InStep(s.holders[h], h, SpotNow(s));
    } else {
      OtherStep(s, a);
    }
  }

  lemma StepLiveRouted(s: Sys, a: Action)
    requires RoutingInv(s) && AllLiveRouted(s) && Step(s, a).Some?
    ensures AllLiveRouted(Step(s, a).value) <==> !ForeignDelete(s, a)
  {
    hide Inv, LiveListed, AdderLeads, MembersBound, Unbound, Plan, Step, ChangeOf, SpotNow, Purged;
    var s1, ch := Step(s, a).value, ChangeOf(s, a);
    if ForeignDelete(s, a) {
      ForeignBreaks(s, a);
    } else {
      forall f <- s1.fwds | Live(s1, f)
        ensures Leads(s1, s1.fwds[f].binding.holder)
      {
        StillRouted(s, a, f);
      }
    }
  }

  lemma StillRouted(s: Sys, a: Action, f: Fwd)
    requires RoutingInv(s) && AllLiveRouted(s) && Step(s, a).Some? && !ForeignDelete(s, a)
    requires Live(Step(s, a).value, f)
    ensures Leads(Step(s, a).value, Step(s, a).value.fwds[f].binding.holder)
  {
    hide Inv, MembersBound, Unbound, Plan, Step, ChangeOf, SpotNow, SpotOf, Purged;
    var s1, ch := Step(s, a).value, ChangeOf(s, a);
    var h := s1.fwds[f].binding.holder;
    InvParts(s);
    LiveAfter(s, a, f);
    if ch == StoreServer(f, h) {
      AddingLeads(s, a);
    } else {
      assert f in s.holders[h].conns;
    }
    LeadsAfter(s, a, f, h);
  }

  lemma AddingLeads(s: Sys, a: Action)
    requires AllParked(s) && BindOwned(s) && HoldersInStep(s) && SetupOwned(s) && AdderLeads(s)
    requires Step(s, a).Some? && ChangeOf(s, a).StoreServer?
    ensures var ch := ChangeOf(s, a); Leads(s, ch.h) && ch.f in s.holders[ch.h].conns && ch.f in s.fwds && s.fwds[ch.f].once.Fresh?
  {
    hide Plan, Step, Apply, ChangeOf, Applicable, SpotOf;
    if a.Go? {
      StepThreads(s, a);
      MoveSpot(s, s.threads[a.t], a.x);
      var ch := ChangeOf(s, a);
      assert InStep(s.holders[ch.h], ch.h, SpotNow(s));
    } else {
      OtherStep(s, a);
    }
  }

  lemma ForeignBreaks(s: Sys, a: Action)
    requires RoutingInv(s) && AllLiveRouted(s) && Step(s, a).Some? && ForeignDelete(s, a)
    ensures !AllLiveRouted(Step(s, a).value)
  {
    hide Inv, LiveListed, AdderLeads, MembersBound, Unbound, Plan, Step, ChangeOf, SpotNow, Purged;
    InvParts(s);
    var s1, ch := Step(s, a).value, ChangeOf(s, a);
    var other := s.routes[s.holders[ch.h].key];
    var f :| f in s.fwds && Live(s, f) && s.fwds[f].binding.holder == other;
    StepFwdOnce(s, a, f);
    StepBinding(s, a, f);
    StepRoutes(s, a);
    StepHolder(s, a, other);
    assert Leads(s, other);
    assert Live(s1, f) && !Leads(s1, other);
  }

  // ----- runs in which nothing is purged -----

  /** Until its cleanup takes it out, an established forward is listed by its holder. */
  ghost predicate ListedUntilTaken(s: Sys) {
    forall f <- s.fwds :: StillIn(s, f) && s.fwds[f].binding.Routed? ==>
      s.fwds[f].binding.holder in s.holders && f in s.holders[s.fwds[f].binding.holder].conns
  }

  /** Every holder in use, or just being looked at, is in the map under its own key. */
  ghost predicate UsedLead(s: Sys) {
    forall h <- s.holders :: s.holders[h].conns != {} || MayBeEmpty(h, SpotNow(s)) ==> Leads(s, h)
  }

  lemma StillInBefore(s: Sys, a: Action, f: Fwd)
    requires Inv(s) && Step(s, a).Some? && f in s.fwds && StillIn(Step(s, a).value, f)
    ensures StillIn(s, f)
    ensures !ChangeOf(s, a).DropConn? || ChangeOf(s, a).f != f
  {
    hide Plan, Step, Apply, ChangeOf, Applicable, SpotOf, SpotNow, Early, Late, ThreadHolders, OnePerSlot, Counted, Refs,
         Kept, CloseOwned, TargetOwned, HolderRefs, HoldersInStep, RoutesLead, SetupOver, SetupOwned, BindOwned;
    StepThreads(s, a);
    StepFwdOnce(s, a, f);
    if a.Go? {
      MoveTouches(s, s.threads[a.t], a.x);
      MoveClean(s, s.threads[a.t], a.x);
      MoveDrops(s, s.threads[a.t], a.x);
      if s.fwds[f].once == Running(a.t) {
        MoveForward(s, s.threads[a.t], a.x);
      }
      if ChangeOf(s, a).DropConn? {
        DropsLeave(s, s.threads[a.t], a.x);
      }
    } else {
      OtherStep(s, a);
    }
  }

  lemma MoveForward(s: Sys, th: Thread, x: Choice)
    requires Parked(th) && Plan(s, th, x).Some? && th.clean.Some?
    ensures var m := Plan(s, th, x).value;
            PastHolder(th.clean.value.pc) ==> m.th.clean.None? || (PastHolder(m.th.clean.value.pc) && !m.th.clean.value.pc.KRoute?)
  {}

  lemma DropsLeave(s: Sys, th: Thread, x: Choice)
    requires Parked(th) && Plan(s, th, x).Some? && Plan(s, th, x).value.ch.DropConn?
    ensures var m := Plan(s, th, x).value; m.th.clean == Some(CleanCall(m.ch.f, KRoute)) && Cleaning(th) == Some(m.ch.f)
  {
    hide CleanMove, CloseMove, OpenMove;
    if th.clean.Some? {
      CleanDrops(s, th);
    } else if th.close.Some? {
      CloseChanges(s, th, x);
    } else if th.main.Handler? && th.main.pc.Open? && x.Opens? {
      MoveOpen(s, th, x.o);
    }
  }

  lemma StepListed(s: Sys, a: Action)
    requires Inv(s) && Unbound(s) && ListedUntilTaken(s) && Step(s, a).Some?
    ensures ListedUntilTaken(Step(s, a).value)
  {
    hide Inv, Plan, Step, ChangeOf, StillIn, SpotNow, Unbound;
    InvParts(s);
    var s1, ch := Step(s, a).value, ChangeOf(s, a);
    forall f <- s1.fwds | StillIn(s1, f) && s1.fwds[f].binding.Routed?
      ensures s1.fwds[f].binding.holder in s1.holders && f in s1.holders[s1.fwds[f].binding.holder].conns
    {
      if f in s.fwds {
        StillInBefore(s, a, f);
        StepBinding(s, a, f);
        var h := s1.fwds[f].binding.holder;
        StepHolder(s, a, h);
        if ch.StoreServer? && ch.f == f {
          AddedIsListed(s, a);
        }
      } else {
        StepNew(s, a, f);
      }
    }
  }

  lemma AddedIsListed(s: Sys, a: Action)
    requires AllParked(s) && BindOwned(s) && HoldersInStep(s) && Step(s, a).Some? && ChangeOf(s, a).StoreServer?
    ensures var ch := ChangeOf(s, a); ch.h in s.holders && ch.f in s.holders[ch.h].conns
  {
    hide Plan, Step, Apply, ChangeOf, Applicable, SpotOf;
    if a.Go? {
      StepThreads(s, a);
      MoveSpot(s, s.threads[a.t], a.x);
      var m := GoRoutes(s, a);
      StoresInHolder(s, m.ch);
      assert InStep(s.holders[m.ch.h], m.ch.h, SpotNow(s));
    } else {
      OtherStep(s, a);
    }
  }

  lemma StoresInHolder(s: Sys, ch: Change)
    requires Applicable(s, ch) && (ch.StoreServer? || ch.StoreConn? || ch.DropConn?)
    ensures ch.h in s.holders
  {}

  /** Taking a forward out of its holder starts from a holder that lists it. */
  lemma DroppedWasListed(s: Sys, a: Action)
    requires AllParked(s) && CleanOwned(s) && ListedUntilTaken(s) && Step(s, a).Some? && ChangeOf(s, a).DropConn?
    ensures var ch := ChangeOf(s, a); ch.h in s.holders && ch.f in s.holders[ch.h].conns
  {
    hide Plan, Step, Apply, ChangeOf, Applicable, SpotOf;
    if a.Go? {
      StepThreads(s, a);
      MoveDrops(s, s.threads[a.t], a.x);
      DropsFrom(s, s.threads[a.t], a.x);
      assert StillIn(s, ChangeOf(s, a).f);
    } else {
      OtherStep(s, a);
    }
  }

  lemma DropsFrom(s: Sys, th: Thread, x: Choice)
    requires Parked(th) && Plan(s, th, x).Some? && Plan(s, th, x).value.ch.DropConn?
    ensures th.clean == Some(CleanCall(Plan(s, th, x).value.ch.f, KConn))
  {
    hide CleanMove, CloseMove, OpenMove;
    if th.clean.Some? {
      CleanDrops(s, th);
    } else if th.close.Some? {
      CloseChanges(s, th, x);
    } else if th.main.Handler? && th.main.pc.Open? && x.Opens? {
      MoveOpen(s, th, x.o);
    }
  }

  /** The steps that look for an address. */
  lemma OpeningUsedLead(s: Sys, a: Action)
    requires Inv(s) && AdderLeads(s) && ListedUntilTaken(s) && UsedLead(s) && Step(s, a).Some? && Purged(s, a) == {}
    requires var ch := ChangeOf(s, a); ch.Purge? || ch.Store? || ch.BindTcp?
    ensures AdderLeads(Step(s, a).value) ==> UsedLead(Step(s, a).value)
  {
    hide Inv, Plan, Step, ChangeOf, Apply, Applicable, SpotNow, SpotOf, StillIn, ListedUntilTaken, HoldsBind, Stale, Early,
         Late, Free;
    InvParts(s);
    var s1, ch := Step(s, a).value, ChangeOf(s, a);
    StepRoutes(s, a);
    StepSpot(s, a);
    if ch.Store? {
      StoredIsFree(s, a);
    }
    if a.Go? {
      StepThreads(s, a);
      MoveSpot(s, s.threads[a.t], a.x);
      MoveOpenSpots(s, s.threads[a.t], a.x);
      SpotHeld(s, a.t);
    } else {
      OtherStep(s, a);
    }
    forall h <- s1.holders | AdderLeads(s1) && (s1.holders[h].conns != {} || MayBeEmpty(h, SpotNow(s1)))
      ensures Leads(s1, h)
    {
      StepHolder(s, a, h);
    }
  }

  lemma OtherUsedLead(s: Sys, a: Action)
    requires Inv(s) && AdderLeads(s) && ListedUntilTaken(s) && UsedLead(s) && Step(s, a).Some? && Purged(s, a) == {}
    requires var ch := ChangeOf(s, a); !ch.Purge? && !ch.Store? && !ch.BindTcp?
    ensures AdderLeads(Step(s, a).value) ==> UsedLead(Step(s, a).value)
  {
    hide Inv, Plan, Step, ChangeOf, Apply, Applicable, SpotNow, SpotOf, StillIn, ListedUntilTaken, HoldsBind, Stale, Early,
         Late, Free;
    InvParts(s);
    var s1, ch := Step(s, a).value, ChangeOf(s, a);
    StepRoutes(s, a);
    StepSpot(s, a);
    StepLocks(s, a);
    if ch.DropConn? {
      DroppedWasListed(s, a);
    }
    if ch.DropRoute? {
      EmptiedHolder(s, a);
    }
    if a.Go? {
      StepThreads(s, a);
      MoveSpot(s, s.threads[a.t], a.x);
      MoveBind(s, s.threads[a.t], a.x);
      SpotHeld(s, a.t);
    } else {
      OtherStep(s, a);
    }
    forall h <- s1.holders | AdderLeads(s1) && (s1.holders[h].conns != {} || MayBeEmpty(h, SpotNow(s1)))
      ensures Leads(s1, h)
    {
      StepHolder(s, a, h);
    }
  }

  lemma StepUsedLead(s: Sys, a: Action)
    requires Inv(s) && AdderLeads(s) && ListedUntilTaken(s) && UsedLead(s) && Step(s, a).Some? && Purged(s, a) == {}
    ensures AdderLeads(Step(s, a).value) ==> UsedLead(Step(s, a).value)
  {
    hide Inv, Step, ChangeOf, AdderLeads, ListedUntilTaken, UsedLead;
    var ch := ChangeOf(s, a);
    if ch.Purge? || ch.Store? || ch.BindTcp? {
      OpeningUsedLead(s, a);
    } else {
      OtherUsedLead(s, a);
    }
  }

  predicate PurgesNothing(a: Action) {
    a.Go? && a.x.Opens? ==>
      match a.x.o
      case Refused(purged) => purged == {}
      case Reused(purged, _, _) => purged == {}
      case Created(purged, _, _) => purged == {}
      case TcpOpened => true
  }

  lemma PurgeIsOpening(s: Sys, th: Thread, x: Choice)
    requires Plan(s, th, x).Some? && PurgesNothing(Go(0, x))
    ensures var ch := Plan(s, th, x).value.ch; ch.Purge? || ch.Store? ==> ch.purged == {}
  {
    hide CleanMove, CloseMove;
    if th.clean.Some? {
      CleanChanges(s, th);
    } else if th.close.Some? {
      CloseChanges(s, th, x);
    }
  }

  lemma NothingPurged(s: Sys, a: Action)
    requires Step(s, a).Some? && PurgesNothing(a)
    ensures Purged(s, a) == {}
  {
    hide Plan, Apply, Applicable, PurgesNothing;
    if a.Go? {
      SamePurges(a);
      PurgeIsOpening(s, s.threads[a.t], a.x);
    }
  }

  lemma SamePurges(a: Action)
    requires a.Go?
    ensures PurgesNothing(a) == PurgesNothing(Go(0, a.x))
  {}

  /** Without a purge no teardown ever meets another holder under its key. */
  lemma NoForeignDelete(s: Sys, a: Action)
    requires AllParked(s) && BindOwned(s) && HoldersInStep(s) && UsedLead(s) && Step(s, a).Some?
    ensures !ForeignDelete(s, a)
  {
    hide Plan, Step, ChangeOf, SpotNow;
    if ChangeOf(s, a).DropRoute? {
      EmptiedHolder(s, a);
      assert Leads(s, ChangeOf(s, a).h);
    }
  }

  lemma {:induction false} NoPurgeInv(run: seq<Action>)
    requires Exec(INIT, run).Some?
    requires forall a <- run :: PurgesNothing(a)
    ensures AllLiveRouted(Exec(INIT, run).value)
    ensures var s := Exec(INIT, run).value; RoutingInv(s) && ListedUntilTaken(s) && UsedLead(s)
    decreases |run|
  {
    hide Inv, Plan, Step, AdderLeads, LiveListed, Unbound, MembersBound, UsedLead, ListedUntilTaken, AllLiveRouted,
         ForeignDelete, PurgesNothing;
    if run == [] {
      InitRouted();
    } else {
      var n := |run| - 1;
      NoPurgeInv(run[..n]);
      var s, a := Exec(INIT, run[..n]).value, run[n];
      NothingPurged(s, a);
      InvParts(s);
      StepRoutingInv(s, a);
      StepListed(s, a);
      StepUsedLead(s, a);
      NoForeignDelete(s, a);
      StepLiveRouted(s, a);
    }
  }

  lemma InitRouted()
    ensures RoutingInv(INIT) && ListedUntilTaken(INIT) && UsedLead(INIT) && AllLiveRouted(INIT)
  {
    InitInv();
  }

  // ----- in every reachable state -----

  lemma ReachableRouting(s: Sys)
    requires Reachable(s)
    ensures RoutingInv(s)
  {
    hide RoutingInv;
    var run :| Exec(INIT, run) == Some(s);
    RunRoutingInv(run);
  }

  /**
   * A purge happens only inside the window the code leaves open: every forward
   * of the purged holder has been dropped from the listener table by its cleanup
   * and has not yet been taken out of the holder.
   */
  lemma PurgeIsOverlap(s: Sys, a: Action, k: Key)
    requires Reachable(s) && Step(s, a).Some? && k in Purged(s, a)
    ensures k in s.routes && s.routes[k] in s.holders && s.holders[s.routes[k]].conns != {}
    ensures forall f <- s.holders[s.routes[k]].conns ::
              f in s.fwds && s.fwds[f].once.Running? && f !in s.listeners && StillIn(s, f)
  {
    hide RoutingInv, Step, Purged;
    ReachableRouting(s);
    PurgedInWindow(s, a, k);
  }

  /**
   * Exactly when the code keeps every live forward routed: a step breaks it if
   * and only if it is a teardown that deletes, by key, the entry of another
   * holder with a live forward.
   */
  lemma LiveRoutedIff(s: Sys, a: Action)
    requires Reachable(s) && AllLiveRouted(s) && Step(s, a).Some?
    ensures AllLiveRouted(Step(s, a).value) <==> !ForeignDelete(s, a)
  {
    hide RoutingInv, Step, AllLiveRouted, ForeignDelete;
    ReachableRouting(s);
    StepLiveRouted(s, a);
  }

  /** In every run that purges nothing, every live forward stays routed. */
  lemma NoPurgeKeepsRouted(run: seq<Action>)
    requires Exec(INIT, run).Some? && forall a <- run :: PurgesNothing(a)
    ensures AllLiveRouted(Exec(INIT, run).value)
  {
    hide AllLiveRouted, PurgesNothing;
    NoPurgeInv(run);
  }
}
