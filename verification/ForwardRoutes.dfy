// The listener maps and their holders. Everything that touches them holds the
// bind lock, so whenever the lock is free every route leads to a holder under
// its own key whose balancer and connection map agree and are not empty.

module ForwardRoutes {
  import opened Options
  import opened Slots
  import opened ForwardModel
  import opened ForwardOwners
  import opened ForwardSetup

  /** Where the thread inside the bind lock is between the writes that must go together. */
  datatype Spot =
    | Quiet
    | Storing(h: HolderId)             // a holder is in the map but this forward is not in it yet
    | Adding(f: Fwd, h: HolderId)      // in its connections, not yet in its balancer
    | Removing(f: Fwd, h: HolderId)    // out of its balancer, still in its connections
    | Emptied(h: HolderId)             // out of both; the map entry has not been looked at

  function SpotOf(s: Sys, th: Thread): Spot {
    if th.clean.Some? then
      var f := th.clean.value.f;
      if f in s.fwds && s.fwds[f].binding.Routed? then
        match th.clean.value.pc
        case KConn => Removing(f, s.fwds[f].binding.holder)
        case KRoute => Emptied(s.fwds[f].binding.holder)
        case _ => Quiet
      else Quiet
    else if th.close.None? && th.main.Handler? then
      match th.main.pc
      case AddConn(_, h) => Storing(h)
      case AddServer(f, h) => Adding(f, h)
      case _ => Quiet
    else Quiet
  }

  function SpotNow(s: Sys): Spot {
    if s.bind.Some? && s.bind.value in s.threads then SpotOf(s, s.threads[s.bind.value]) else Quiet
  }

  // ----- the invariant -----

  ghost predicate HolderRefs(s: Sys) {
    && (forall f <- s.fwds :: s.fwds[f].binding.Routed? ==> s.fwds[f].binding.holder in s.holders)
    && (forall t <- s.threads :: ThreadHolders(s, s.threads[t]))
  }

  ghost predicate ThreadHolders(s: Sys, th: Thread) {
    && (th.main.Handler? && (th.main.pc.AddConn? || th.main.pc.AddServer?) ==> th.main.pc.h in s.holders)
    && (th.clean.Some? && (th.clean.value.pc.KConn? || th.clean.value.pc.KRoute?) ==>
          th.clean.value.f in s.fwds && s.fwds[th.clean.value.f].binding.Routed?)
  }

  /** The balancer's servers are the sockets of the connection map, give or take the write in progress. */
  predicate InStep(ho: Holder, h: HolderId, spot: Spot) {
    match spot
    case Adding(f, h1) => if h == h1 then f in ho.conns && ho.servers - {f} == ho.conns - {f} else ho.servers == ho.conns
    case Removing(f, h1) => if h == h1 then ho.servers == ho.conns - {f} else ho.servers == ho.conns
    case _ => ho.servers == ho.conns
  }

  predicate MayBeEmpty(h: HolderId, spot: Spot) {
    spot == Storing(h) || spot == Emptied(h)
  }

  ghost predicate HoldersInStep(s: Sys) {
    forall h <- s.holders :: InStep(s.holders[h], h, SpotNow(s))
  }

  ghost predicate RoutesLead(s: Sys) {
    forall k <- s.routes ::
      && s.routes[k] in s.holders
      && s.holders[s.routes[k]].key == k
      && (s.holders[s.routes[k]].conns != {} || MayBeEmpty(s.routes[k], SpotNow(s)))
  }

  // ----- one thread's move -----

  predicate WritesRoutes(ch: Change) {
    ch.Purge? || ch.Store? || ch.StoreConn? || ch.StoreServer? || ch.DropServer? || ch.DropConn? || ch.DropRoute?
    || ch.BindTcp?
  }

  lemma MoveOpen(s: Sys, th: Thread, o: Opening)
    requires th.clean.None? && th.close.None? && th.main.Handler? && th.main.pc.Open? && OpenMove(s, th, o).Some?
    ensures var m := OpenMove(s, th, o).value;
            && SpotOf(s, th).Quiet?
            && Early(th).Some?
            && m.th.clean.None?
            && (match m.ch
                case Purge(purged) =>
                  && (forall k <- purged :: k in s.routes && Stale(s, s.routes[k]))
                  && (SpotOf(s, m.th).Quiet?
                      || exists k <- s.routes :: k !in purged && SpotOf(s, m.th) == Storing(s.routes[k])
                                                 && m.th.main.pc.AddConn? && m.th.main.pc.h == s.routes[k])
                  && (m.th.main.pc.AddConn? ==> exists k <- s.routes :: m.th.main.pc.h == s.routes[k])
                case Store(purged, key, h) =>
                  && (forall k <- purged :: k in s.routes && Stale(s, s.routes[k]))
                  && Free(s.routes, purged, key.slot)
                  && SpotOf(s, m.th) == Storing(h)
                  && m.th.main.pc.AddConn? && m.th.main.pc.h == h
                case BindTcp(f) => SpotOf(s, m.th).Quiet? && !m.th.main.pc.AddConn? && Early(th) == Some(f)
                case _ => false)
            && !m.th.main.pc.AddServer? && HoldsBind(m.th)
  {}

  /** A write to holders or routes is made inside the bind lock, and each leads from one spot to the next. */
  predicate SpotMoves(s: Sys, th: Thread, m: Move) {
    && (WritesRoutes(m.ch) ==> HoldsBind(th) && HoldsBind(m.th))
    && (m.ch.LockBind? ==> SpotOf(s, m.th).Quiet?)
    && (m.ch.UnlockBind? || m.ch.GiveUp? ==> SpotOf(s, th).Quiet?)
    && (HoldsBind(th) && !WritesRoutes(m.ch) ==> SpotOf(s, th).Quiet? && SpotOf(s, m.th).Quiet?)
    && (m.ch.StoreConn? ==> SpotOf(s, th) == Storing(m.ch.h) && SpotOf(s, m.th) == Adding(m.ch.f, m.ch.h))
    && (m.ch.StoreServer? ==> SpotOf(s, th) == Adding(m.ch.f, m.ch.h) && SpotOf(s, m.th).Quiet?
                              && Early(th) == Some(m.ch.f) && m.th.clean.None?)
    && (m.ch.DropServer? ==> SpotOf(s, th).Quiet? && SpotOf(s, m.th) == Removing(m.ch.f, m.ch.h))
    && (m.ch.DropConn? ==> SpotOf(s, th) == Removing(m.ch.f, m.ch.h) && SpotOf(s, m.th) == Emptied(m.ch.h))
    && (m.ch.DropRoute? ==> SpotOf(s, th) == Emptied(m.ch.h) && SpotOf(s, m.th).Quiet?)
  }

  lemma CleanSpot(s: Sys, th: Thread)
    requires Parked(th) && th.clean.Some? && CleanMove(s, th).Some?
    ensures SpotMoves(s, th, CleanMove(s, th).value)
  {}

  lemma CloseSpot(s: Sys, th: Thread, x: Choice)
    requires Parked(th) && th.clean.None? && th.close.Some? && CloseMove(s, th, x).Some?
    ensures SpotMoves(s, th, CloseMove(s, th, x).value)
  {}

  lemma MainSpot(s: Sys, th: Thread, x: Choice)
    requires Parked(th) && th.clean.None? && th.close.None? && MainMove(s, th, x).Some?
    ensures SpotMoves(s, th, MainMove(s, th, x).value)
  {
    hide OpenMove;
    if th.main.Handler? && th.main.pc.Open? && x.Opens? {
      MoveOpen(s, th, x.o);
    }
  }

  lemma MoveSpot(s: Sys, th: Thread, x: Choice)
    requires Parked(th) && Plan(s, th, x).Some?
    ensures SpotMoves(s, th, Plan(s, th, x).value)
  {
    hide CleanMove, CloseMove, MainMove, SpotMoves;
    if th.clean.Some? {
      CleanSpot(s, th);
    } else if th.close.Some? {
      CloseSpot(s, th, x);
    } else {
      MainSpot(s, th, x);
    }
  }

  // ----- one step, holder by holder -----

  lemma ApplyBinding(s: Sys, t: Tid, ch: Change, f: Fwd)
    requires Applicable(s, ch) && f in s.fwds
    ensures var s1 := Apply(s, t, ch);
            && f in s1.fwds
            && s1.fwds[f].binding == if ch.StoreServer? && ch.f == f then Routed(ch.h)
                                     else if ch == BindTcp(f) then TcpHolder else s.fwds[f].binding
  {
    ApplyFwds(s, t, ch);
    if ch.NewForward? {
      NewIsFresh(t, ch);
    } else {
      FieldsAfter(s.fwds[f], t, ch, f);
    }
    hide Apply, Applicable, Touched, FwdAfter, Changed;
  }

  lemma ApplyHolder(s: Sys, t: Tid, ch: Change, h: HolderId)
    requires Applicable(s, ch) && h in s.holders
    ensures var s1, ho := Apply(s, t, ch), s.holders[h];
            && h in s1.holders
            && s1.holders[h] == if ch.StoreConn? && ch.h == h then ho.(conns := ho.conns + {ch.f})
                                else if ch.StoreServer? && ch.h == h then ho.(servers := ho.servers + {ch.f})
                                else if ch.DropServer? && ch.h == h then ho.(servers := ho.servers - {ch.f})
                                else if ch.DropConn? && ch.h == h then ho.(conns := ho.conns - {ch.f})
                                else ho
  {
    hide FwdsAfter, ConnsAfter, TargetsAfter, BindAfter, ListenersAfter, RoutesAfter;
  }

  lemma ApplyNewHolder(s: Sys, t: Tid, ch: Change, h: HolderId)
    requires Applicable(s, ch) && h !in s.holders
    ensures var s1 := Apply(s, t, ch);
            if ch.Store? && ch.h == h then h in s1.holders && s1.holders[h] == Holder(ch.key, {}, {}) else h !in s1.holders
  {
    hide FwdsAfter, ConnsAfter, TargetsAfter, BindAfter, ListenersAfter, RoutesAfter;
  }

  lemma ApplyRoutes(s: Sys, t: Tid, ch: Change)
    requires Applicable(s, ch)
    ensures Apply(s, t, ch).routes
            == match ch
               case Purge(purged) => s.routes - purged
               case Store(purged, key, h) => (s.routes - purged)[key := h]
               case DropRoute(h) => if s.holders[h].servers == {} then s.routes - {s.holders[h].key} else s.routes
               case _ => s.routes
  {
    hide FwdsAfter, ConnsAfter, TargetsAfter, BindAfter, ListenersAfter, HoldersAfter;
  }

  /** Writes to holders and routes, seen whole. */
  lemma GoRoutes(s: Sys, a: Action) returns (m: Move)
    requires a.Go? && Step(s, a).Some?
    ensures a.t in s.threads && Plan(s, s.threads[a.t], a.x) == Some(m) && m.ch == ChangeOf(s, a) && Applicable(s, m.ch)
    ensures var s1, s0 := Step(s, a).value, Apply(s, a.t, m.ch);
            s1.routes == s0.routes && s1.holders == s0.holders && s1.fwds == s0.fwds
  {
    hide Plan, Step, Apply, ChangeOf, Applicable;
    var m1, _ := GoStep(s, a);
    m := m1;
  }

  // ----- every step keeps it -----

  lemma SpotSame(s: Sys, s1: Sys, th: Thread)
    requires th.clean.Some? ==>
               (var f := th.clean.value.f;
                f in s.fwds && f in s1.fwds && s1.fwds[f].binding == s.fwds[f].binding)
    ensures SpotOf(s1, th) == SpotOf(s, th)
  {}

  /** The clean call of a thread concerns a forward whose binding no longer changes. */
  lemma BindingSettled(s: Sys, a: Action, th: Thread)
    requires AllParked(s) && SetupOwned(s) && SetupOver(s) && Step(s, a).Some?
    requires th.clean.Some? ==> th.clean.value.f in s.fwds && !s.fwds[th.clean.value.f].setup
    ensures SpotOf(Step(s, a).value, th) == SpotOf(s, th)
  {
    hide Plan, Step, Apply, ChangeOf, SpotOf, Early, Late;
    if a.Go? {
      var m := GoRoutes(s, a);
      MoveSpot(s, s.threads[a.t], a.x);
      MoveBindTcp(s, s.threads[a.t], a.x);
      if th.clean.Some? {
        ApplyBinding(s, a.t, m.ch, th.clean.value.f);
      }
    } else {
      OtherStep(s, a);
    }
    SpotSame(s, Step(s, a).value, th);
  }

  lemma MoveBindTcp(s: Sys, th: Thread, x: Choice)
    requires Parked(th) && Plan(s, th, x).Some?
    ensures var m := Plan(s, th, x).value;
            m.ch.BindTcp? ==> Early(th) == Some(m.ch.f) && SpotOf(s, th).Quiet? && SpotOf(s, m.th).Quiet?
  {
    hide CleanMove, CloseMove, OpenMove;
    if th.clean.Some? {
      CleanChanges(s, th);
      CleanKeepsMain(s, th);
    } else if th.close.Some? {
      CloseChanges(s, th, x);
      CloseKeepsMain(s, th, x);
    } else if th.main.Handler? && th.main.pc.Open? && x.Opens? {
      MoveOpen(s, th, x.o);
    }
  }

  lemma LateClean(th: Thread)
    ensures th.clean.Some? ==> th.clean.value.f in Late(th)
  {}

  lemma StepSpot(s: Sys, a: Action)
    requires AllParked(s) && BindOwned(s) && SetupOwned(s) && SetupOver(s) && Step(s, a).Some?
    ensures SpotNow(Step(s, a).value)
            == if (a.Go? && HoldsBind(s.threads[a.t])) || ChangeOf(s, a).LockBind? then
                 (if HoldsBind(Plan(s, s.threads[a.t], a.x).value.th)
                  then SpotOf(s, Plan(s, s.threads[a.t], a.x).value.th) else Quiet)
               else SpotNow(s)
  {
    hide Plan, Step, Apply, ChangeOf, SpotOf, Early, Late;
    var s1 := Step(s, a).value;
    StepThreads(s, a);
    StepLocks(s, a);
    if a.Go? {
      var m := Plan(s, s.threads[a.t], a.x).value;
      MoveBind(s, s.threads[a.t], a.x);
      if s1.bind == Some(a.t) {
        if m.th.clean.Some? {
          LateClean(m.th);
          MoveLateClean(s, s.threads[a.t], a.x);
          LateClean(s.threads[a.t]);
        }
        BindingSettled(s, a, m.th);
      }
    } else {
      OtherStep(s, a);
    }
    if s.bind.Some? && s1.bind == s.bind && (!a.Go? || a.t != s.bind.value) {
      LateClean(s.threads[s.bind.value]);
      BindingSettled(s, a, s.threads[s.bind.value]);
    }
  }

  /** Inside the bind lock a clean call was already there before the step. */
  lemma MoveLateClean(s: Sys, th: Thread, x: Choice)
    requires Parked(th) && Plan(s, th, x).Some? && HoldsBind(Plan(s, th, x).value.th)
    ensures var m := Plan(s, th, x).value;
            m.th.clean.Some? ==> th.clean.Some? && th.clean.value.f == m.th.clean.value.f
  {}

  lemma CleanHolders(s: Sys, th: Thread)
    requires th.clean.Some? && CleanMove(s, th).Some?
    ensures var m := CleanMove(s, th).value;
            m.th.clean.Some? && (m.th.clean.value.pc.KConn? || m.th.clean.value.pc.KRoute?) ==>
              && m.th.clean.value.f in s.fwds && s.fwds[m.th.clean.value.f].binding.Routed?
              && (m.ch.DropServer? || m.ch.DropConn?)
  {}

  lemma MoveHolders(s: Sys, th: Thread, x: Choice)
    requires Parked(th) && Plan(s, th, x).Some? && ThreadHolders(s, th)
    ensures var m := Plan(s, th, x).value;
            && (m.th.main.Handler? && m.th.main.pc.AddConn? ==>
                  (m.ch.Store? && m.ch.h == m.th.main.pc.h) || (exists k <- s.routes :: m.th.main.pc.h == s.routes[k]))
            && (m.th.main.Handler? && m.th.main.pc.AddServer? ==> m.th.main.pc.h in s.holders)
            && (m.th.clean.Some? && (m.th.clean.value.pc.KConn? || m.th.clean.value.pc.KRoute?) ==>
                  m.th.clean.value.f in s.fwds && s.fwds[m.th.clean.value.f].binding.Routed?
                  && (m.ch.DropServer? || m.ch.DropConn?))
  {
    hide CleanMove, CloseMove, OpenMove;
    if th.clean.Some? {
      CleanKeepsMain(s, th);
      CleanHolders(s, th);
    } else if th.close.Some? {
      CloseChanges(s, th, x);
      CloseKeepsMain(s, th, x);
    } else if th.main.Handler? && th.main.pc.Open? && x.Opens? {
      MoveOpen(s, th, x.o);
    }
  }

  lemma StepHolderKeys(s: Sys, a: Action)
    requires Step(s, a).Some?
    ensures s.holders.Keys <= Step(s, a).value.holders.Keys
    ensures ChangeOf(s, a).Store? ==> ChangeOf(s, a).h in Step(s, a).value.holders
  {
    hide Plan, Step, Apply, ChangeOf, Applicable;
    if a.Go? {
      var m := GoRoutes(s, a);
      forall h <- s.holders
        ensures h in Step(s, a).value.holders
      {
        ApplyHolder(s, a.t, m.ch, h);
      }
      if m.ch.Store? {
        StoreIsNew(s, m.ch);
        ApplyNewHolder(s, a.t, m.ch, m.ch.h);
      }
    } else {
      OtherStep(s, a);
    }
  }

  lemma StoreIsNew(s: Sys, ch: Change)
    requires Applicable(s, ch) && ch.Store?
    ensures ch.h !in s.holders
  {}

  /** A settled binding of an old forward is seen unchanged after the step. */
  lemma StepBinding(s: Sys, a: Action, f: Fwd)
    requires AllParked(s) && Step(s, a).Some? && f in s.fwds
    ensures var s1, ch := Step(s, a).value, ChangeOf(s, a);
            && f in s1.fwds
            && s1.fwds[f].binding == (if ch.StoreServer? && ch.f == f then Routed(ch.h)
                                      else if ch == BindTcp(f) then TcpHolder else s.fwds[f].binding)
            && (ch.StoreServer? ==> ch.h in s.holders)
            && (ch.StoreServer? || ch.BindTcp? ==> a.Go? && a.t in s.threads && Early(s.threads[a.t]) == Some(ch.f))
  {
    hide Plan, Step, Apply, ChangeOf, SpotOf, Early;
    if a.Go? {
      var m := GoRoutes(s, a);
      ApplyBinding(s, a.t, m.ch, f);
      MoveSpot(s, s.threads[a.t], a.x);
      MoveBindTcp(s, s.threads[a.t], a.x);
    } else {
      OtherStep(s, a);
    }
  }

  lemma StepThreadHolders(s: Sys, a: Action, t: Tid)
    requires AllParked(s) && SetupOver(s) && SetupOwned(s) && HolderRefs(s) && RoutesLead(s) && Step(s, a).Some?
    requires t in Step(s, a).value.threads
    ensures ThreadHolders(Step(s, a).value, Step(s, a).value.threads[t])
  {
    hide Plan, Step, Apply, ChangeOf, SpotOf, SpotNow, Early, Late;
    var s1 := Step(s, a).value;
    var th := s1.threads[t];
    StepThreads(s, a);
    StepHolderKeys(s, a);
    if a.Go? {
      MoveHolders(s, s.threads[a.t], a.x);
    } else {
      OtherStep(s, a);
    }
    if th.clean.Some? && (th.clean.value.pc.KConn? || th.clean.value.pc.KRoute?) {
      if t in s.threads {
        LateClean(s.threads[t]);
      }
      StepBinding(s, a, th.clean.value.f);
    }
  }

  lemma StepHolderRefs(s: Sys, a: Action)
    requires AllParked(s) && SetupOver(s) && SetupOwned(s) && HolderRefs(s) && RoutesLead(s) && Step(s, a).Some?
    ensures HolderRefs(Step(s, a).value)
  {
    hide Plan, Step, Apply, ChangeOf, SpotOf, SpotNow, Early, Late, ThreadHolders;
    var s1 := Step(s, a).value;
    StepHolderKeys(s, a);
    forall f <- s1.fwds | s1.fwds[f].binding.Routed?
      ensures s1.fwds[f].binding.holder in s1.holders
    {
      if f in s.fwds {
        StepBinding(s, a, f);
      } else {
        StepNew(s, a, f);
      }
    }
    forall t <- s1.threads
      ensures ThreadHolders(s1, s1.threads[t])
    {
      StepThreadHolders(s, a, t);
    }
  }

  lemma StepInStep(s: Sys, a: Action)
    requires AllParked(s) && BindOwned(s) && SetupOwned(s) && SetupOver(s) && HoldersInStep(s) && Step(s, a).Some?
    ensures HoldersInStep(Step(s, a).value)
  {
    hide Plan, Step, Apply, ChangeOf, Applicable, SpotOf, SpotNow, Early, Late;
    var s1 := Step(s, a).value;
    StepSpot(s, a);
    StepLocks(s, a);
    if a.Go? {
      var m := GoRoutes(s, a);
      MoveSpot(s, s.threads[a.t], a.x);
      MoveOpenSpots(s, s.threads[a.t], a.x);
      MoveBind(s, s.threads[a.t], a.x);
      SpotHeld(s, a.t);
      forall h <- s1.holders
        ensures InStep(s1.holders[h], h, SpotNow(s1))
      {
        if h in s.holders {
          ApplyHolder(s, a.t, m.ch, h);
          if m.ch.StoreConn? || m.ch.StoreServer? {
            AddBoth(s.holders[h], m.ch.f);
          }
        } else {
          ApplyNewHolder(s, a.t, m.ch, h);
        }
      }
    } else {
      OtherStep(s, a);
    }
  }

  lemma AddBoth(ho: Holder, f: Fwd)
    ensures ho.servers == ho.conns ==> ho.servers - {f} == (ho.conns + {f}) - {f}
    ensures f in ho.conns && ho.servers - {f} == ho.conns - {f} ==> ho.servers + {f} == ho.conns
  {
    if f in ho.conns && ho.servers - {f} == ho.conns - {f} {
      assert ho.servers + {f} == (ho.servers - {f}) + {f};
      assert (ho.conns - {f}) + {f} == ho.conns;
    }
  }

  lemma SpotHeld(s: Sys, t: Tid)
    requires BindOwned(s) && t in s.threads
    ensures HoldsBind(s.threads[t]) ==> SpotNow(s) == SpotOf(s, s.threads[t])
    ensures s.bind.None? ==> SpotNow(s).Quiet?
  {}

  /** Purging and storing start from a quiet spot and end quiet or about to store. */
  lemma MoveOpenSpots(s: Sys, th: Thread, x: Choice)
    requires Parked(th) && Plan(s, th, x).Some?
    ensures var m := Plan(s, th, x).value;
            && (m.ch.Purge? || m.ch.Store? || m.ch.BindTcp? ==> SpotOf(s, th).Quiet?)
            && (m.ch.BindTcp? ==> SpotOf(s, m.th).Quiet?)
            && (m.ch.Purge? ==>
                  && (forall k <- m.ch.purged :: k in s.routes && Stale(s, s.routes[k]))
                  && (SpotOf(s, m.th).Quiet?
                      || exists k <- s.routes :: k !in m.ch.purged && SpotOf(s, m.th) == Storing(s.routes[k])))
            && (m.ch.Store? ==>
                  && (forall k <- m.ch.purged :: k in s.routes && Stale(s, s.routes[k]))
                  && Free(s.routes, m.ch.purged, m.ch.key.slot)
                  && SpotOf(s, m.th) == Storing(m.ch.h))
  {
    hide CleanMove, CloseMove, OpenMove;
    if th.clean.Some? {
      CleanChanges(s, th);
      CleanKeepsMain(s, th);
    } else if th.close.Some? {
      CloseChanges(s, th, x);
      CloseKeepsMain(s, th, x);
    } else if th.main.Handler? && th.main.pc.Open? && x.Opens? {
      MoveOpen(s, th, x.o);
    }
  }

  lemma StepRoutesLead(s: Sys, a: Action)
    requires AllParked(s) && BindOwned(s) && SetupOwned(s) && SetupOver(s)
    requires HoldersInStep(s) && RoutesLead(s) && Step(s, a).Some?
    ensures RoutesLead(Step(s, a).value)
  {
    hide Plan, Step, Apply, ChangeOf, Applicable, SpotOf, SpotNow, Early, Late;
    var s1 := Step(s, a).value;
    StepSpot(s, a);
    StepLocks(s, a);
    if a.Go? {
      var m := GoRoutes(s, a);
      MoveSpot(s, s.threads[a.t], a.x);
      MoveOpenSpots(s, s.threads[a.t], a.x);
      MoveBind(s, s.threads[a.t], a.x);
      SpotHeld(s, a.t);
      ApplyRoutes(s, a.t, m.ch);
      if m.ch.Store? {
        StoreIsNew(s, m.ch);
      }
      forall k <- s1.routes
        ensures && s1.routes[k] in s1.holders
                && s1.holders[s1.routes[k]].key == k
                && (s1.holders[s1.routes[k]].conns != {} || MayBeEmpty(s1.routes[k], SpotNow(s1)))
      {
        var h := s1.routes[k];
        if h in s.holders {
          ApplyHolder(s, a.t, m.ch, h);
          assert m.ch.StoreConn? ==> m.ch.f in s.holders[h].conns + {m.ch.f};
          assert InStep(s.holders[h], h, SpotNow(s));
        } else {
          ApplyNewHolder(s, a.t, m.ch, h);
        }
      }
    } else {
      OtherStep(s, a);
    }
  }

  /** No two HTTP entries, and no two aliases, ever share an address. */
  lemma StepOnePerSlot(s: Sys, a: Action)
    requires AllParked(s) && OnePerSlot(s.routes) && Step(s, a).Some?
    ensures OnePerSlot(Step(s, a).value.routes)
  {
    hide Plan, Step, Apply, ChangeOf, Applicable, SpotOf;
    if a.Go? {
      var m := GoRoutes(s, a);
      MoveOpenSpots(s, s.threads[a.t], a.x);
      ApplyRoutes(s, a.t, m.ch);
      if m.ch.Store? {
        StoreFree(s.routes, m.ch.purged, m.ch.key, m.ch.h);
      }
    } else {
      OtherStep(s, a);
    }
  }
}
