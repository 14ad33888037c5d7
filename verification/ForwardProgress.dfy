// No state of the forward protocol is stuck: a thread that waits for a lock or
// a once-guard waits for a thread that can go on, because everyone takes target
// lock, close-once, cleanup-once and bind lock in that order. Hence when nothing
// more can happen, every forward of a closed connection has been cleaned.

module ForwardProgress {
  import opened Options
  import opened Slots
  import opened ForwardModel
  import opened ForwardOwners
  import opened ForwardSetup
  import opened ForwardRoutes
  import opened ForwardTheorems

  // ----- waiting -----

  /** The rank of the lock or guard a thread's next step needs, in the order everyone takes them. */
  function WaitRank(th: Thread): nat {
    if th.clean.Some? then
      if th.clean.value.pc.KWant? then 2 else if th.clean.value.pc.KWantBind? then 3 else 4
    else if th.close.Some? then
      if th.close.value.pc.CWant? then 1 else 4
    else if th.main.Handler? then
      if th.main.pc.WantTarget? then 0 else if th.main.pc.WantBind? then 3 else 4
    else 4
  }

  /** The thread holding what th needs next. */
  function WaitsFor(s: Sys, th: Thread): Option<Tid> {
    match WaitRank(th)
    case 0 =>
      if th.main.Handler? && th.main.req.target in s.targets then Some(s.targets[th.main.req.target]) else None
    case 1 =>
      if th.close.Some? && ConnOnce(s, th.close.value.c).Running? then Some(ConnOnce(s, th.close.value.c).tid) else None
    case 2 =>
      if th.clean.Some? && FwdOnce(s, th.clean.value.f).Running? then Some(FwdOnce(s, th.clean.value.f).tid) else None
    case 3 => s.bind
    case _ => None
  }

  /** The highest rank among what a thread holds, plus one. */
  function HeldRank(th: Thread): nat {
    if HoldsBind(th) then 4
    else if Cleaning(th).Some? then 3
    else if Closing(th).Some? then 2
    else if Holding(th).Some? then 1
    else 0
  }

  /** Everyone takes locks in increasing rank: whatever a thread waits for ranks above all it holds. */
  lemma IncreasingRank(th: Thread)
    requires Parked(th)
    ensures WaitRank(th) < 4 ==> HeldRank(th) <= WaitRank(th)
  {}

  /** A thread never begins or awaits a cleanup while it holds the bind lock. */
  lemma NoCleanupUnderBindLock(s: Sys, t: Tid)
    requires Reachable(s) && s.bind == Some(t)
    ensures t in s.threads && WaitRank(s.threads[t]) == 4
    ensures s.threads[t].clean.Some? ==> !s.threads[t].clean.value.pc.KWant? && !s.threads[t].clean.value.pc.KStart?
    ensures s.threads[t].close.Some? ==> s.threads[t].clean.Some?
  {
    hide Refs, SetupOver, SetupOwned, Kept, HolderRefs, HoldersInStep, RoutesLead, OnePerSlot, Counted, CleanOwned,
         CloseOwned, TargetOwned;
    ReachableInv(s);
  }

  // ----- a thread with nothing to do, and a stuck one -----

  /** Done, or waiting for the outside: a connection to close or a listener to fail. */
  predicate AtRest(s: Sys, th: Thread) {
    && th.clean.None? && th.close.None?
    && match th.main
       case Finished => true
       case Watcher(f) => f in s.fwds && s.fwds[f].conn in s.conns && !s.conns[s.fwds[f].conn].closed && !s.fwds[f].done
       case Acceptor(f) => f in s.fwds && !s.fwds[f].closed
       case _ => false
  }

  ghost predicate Stuck(s: Sys, t: Tid) {
    forall x :: Step(s, Go(t, x)).None?
  }

  ghost predicate Quiescent(s: Sys) {
    forall t <- s.threads :: Stuck(s, t)
  }

  lemma {:induction false} FreshTid(ids: set<nat>) returns (n: nat)
    ensures n !in ids
  {
    n := 0;
    var left := ids;
    while n in ids
      invariant forall m :: m in ids && m >= n ==> m in left
      decreases |left|
    {
      left := left - {n};
      n := n + 1;
    }
  }

  /** The thread's move, if it has one, can be performed. */
  lemma CanGo(s: Sys, t: Tid, x: Choice)
    requires t in s.threads && Plan(s, s.threads[t], x).Some?
    requires Applicable(s, Plan(s, s.threads[t], x).value.ch)
    ensures Step(s, Go(t, x)).Some?
  {
    hide Plan, Applicable, Apply;
  }

  // ----- a thread that neither rests nor waits can go on -----

  /** What the invariant says about the objects a thread's next step touches. */
  ghost predicate Grounded(s: Sys, th: Thread) {
    && (forall f <- Late(th) :: f in s.fwds && s.fwds[f].conn in s.conns)
    && (Early(th).Some? ==> Early(th).value in s.fwds && s.fwds[Early(th).value].conn in s.conns)
    && ConnsOf(th) <= s.conns.Keys
    && (th.main.Canceller? ==> th.main.f in s.fwds)
    && ThreadHolders(s, th)
    && (th.clean.Some? && th.clean.value.f in s.fwds && s.fwds[th.clean.value.f].binding.Routed? ==>
          s.fwds[th.clean.value.f].binding.holder in s.holders)
  }

  lemma InvGrounded(s: Sys, t: Tid)
    requires Inv(s) && t in s.threads
    ensures Grounded(s, s.threads[t])
  {
    hide Owned, Kept, HoldersInStep, RoutesLead, OnePerSlot, Counted, ThreadHolders, Late, Early, ConnsOf;
  }

  lemma CleanGoes(s: Sys, th: Thread)
    requires th.clean.Some? && Grounded(s, th) && WaitsFor(s, th).None?
    ensures Plan(s, th, Usual).Some? && Applicable(s, Plan(s, th, Usual).value.ch)
  {
    assert th.clean.value.f in Late(th);
  }

  lemma CloseGoes(s: Sys, th: Thread) returns (x: Choice)
    requires th.clean.None? && th.close.Some? && Grounded(s, th) && WaitsFor(s, th).None?
    ensures Plan(s, th, x).Some? && Applicable(s, Plan(s, th, x).value.ch)
  {
    assert th.close.value.c in ConnsOf(th);
    match th.close.value.pc {
      case CWant => x := Usual;
      case CWon => x := Snapshot({});
      case CRun(pending) =>
        if pending == {} {
          x := Usual;
        } else {
          var f :| f in pending;
          x := Each(f);
        }
      case CClosed => x := Usual;
    }
  }

  lemma HandlerGoes(s: Sys, th: Thread) returns (x: Choice)
    requires th.clean.None? && th.close.None? && th.main.Handler? && Grounded(s, th) && WaitsFor(s, th).None?
    ensures Plan(s, th, x).Some? && Applicable(s, Plan(s, th, x).value.ch)
  {
    match th.main.pc {
      case Takeover(victims) =>
        if victims == {} {
          x := Usual;
        } else {
          var c :| c in victims;
          x := Victim(c);
        }
      case Listen => x := Other;
      case Reply(_) => x := Other;
      case Open(_) => x := Opens(Refused({}));
      case Watch(f) =>
        var w := FreshTid(s.threads.Keys);
        assert f in Late(th);
        x := New(w);
      case _ => x := Usual;
    }
  }

  lemma OthersGo(s: Sys, th: Thread) returns (x: Choice)
    requires th.clean.None? && th.close.None? && !th.main.Handler? && Grounded(s, th) && !AtRest(s, th)
    ensures Plan(s, th, x).Some? && Applicable(s, Plan(s, th, x).value.ch)
  {
    x := Usual;
    if th.main.Watcher? {
      assert th.main.f in Late(th);
      if !s.conns[s.fwds[th.main.f].conn].closed {
        x := Other;
      }
    } else if th.main.Acceptor? {
      assert th.main.f in Late(th);
    }
  }

  lemma Advance(s: Sys, t: Tid) returns (x: Choice)
    requires Inv(s) && t in s.threads && !AtRest(s, s.threads[t]) && WaitsFor(s, s.threads[t]).None?
    ensures Step(s, Go(t, x)).Some?
  {
    hide Inv, Plan, Applicable, Step, Grounded;
    var th := s.threads[t];
    InvGrounded(s, t);
    if th.clean.Some? {
      CleanGoes(s, th);
      x := Usual;
    } else if th.close.Some? {
      x := CloseGoes(s, th);
    } else if th.main.Handler? {
      x := HandlerGoes(s, th);
    } else {
      x := OthersGo(s, th);
    }
    CanGo(s, t, x);
  }

  /** The thread waited for exists and holds something ranked just as high. */
  lemma WaitedForHolds(s: Sys, t: Tid)
    requires Owned(s) && t in s.threads && WaitsFor(s, s.threads[t]).Some?
    ensures WaitRank(s.threads[t]) < 4
    ensures var u := WaitsFor(s, s.threads[t]).value;
            u in s.threads && HeldRank(s.threads[u]) > WaitRank(s.threads[t])
  {}

  lemma HoldersMove(s: Sys, th: Thread)
    requires HeldRank(th) > 0
    ensures !AtRest(s, th)
  {}

  /** From any thread that is not at rest, following who waits for whom reaches a thread that can step. */
  lemma {:induction false} SomeoneGoes(s: Sys, t: Tid) returns (u: Tid, x: Choice)
    requires Inv(s) && t in s.threads && !AtRest(s, s.threads[t])
    ensures u in s.threads && Step(s, Go(u, x)).Some?
    decreases 4 - WaitRank(s.threads[t])
  {
    hide Plan, Step, AtRest, HeldRank, WaitRank, WaitsFor;
    if WaitsFor(s, s.threads[t]).None? {
      u := t;
      x := Advance(s, t);
    } else {
      var v := WaitsFor(s, s.threads[t]).value;
      WaitedForHolds(s, t);
      HoldersMove(s, s.threads[v]);
      IncreasingRank(s.threads[v]);
      WaitRankBound(s.threads[v]);
      if WaitRank(s.threads[v]) == 4 {
        NoWait(s, s.threads[v]);
        u := v;
        x := Advance(s, v);
      } else {
        u, x := SomeoneGoes(s, v);
      }
    }
  }

  lemma WaitRankBound(th: Thread)
    ensures WaitRank(th) <= 4
  {}

  lemma NoWait(s: Sys, th: Thread)
    requires WaitRank(th) == 4
    ensures WaitsFor(s, th).None?
  {}

  /** Deadlock freedom: while any thread is not at rest, some thread can take a step. */
  lemma NoDeadlock(s: Sys, t: Tid)
    requires Reachable(s) && t in s.threads && !AtRest(s, s.threads[t])
    ensures !Quiescent(s)
  {
    hide Inv, Plan, Step, AtRest;
    ReachableInv(s);
    var u, x := SomeoneGoes(s, t);
    assert !Stuck(s, u);
  }

  // ----- when nothing can step, every forward of a closed connection is cleaned -----

  lemma RestKeepsOnlyWatcher(s: Sys, th: Thread, f: Fwd)
    requires AtRest(s, th) && (Keeps(th, f) || Cleaning(th) == Some(f))
    ensures f in s.fwds && s.fwds[f].conn in s.conns && !s.conns[s.fwds[f].conn].closed
  {}

  /**
   * Once no thread can step, a closed connection has no forward left that is
   * not cleaned, not even one it was closed in the middle of setting up.
   */
  lemma ClosedIsCleaned(s: Sys, f: Fwd)
    requires Reachable(s) && Quiescent(s)
    requires f in s.fwds && s.fwds[f].conn in s.conns && s.conns[s.fwds[f].conn].closed
    ensures s.fwds[f].once.Done?
  {
    hide Plan, Step, AtRest, Keeps, Cleaning, BindOwned, CloseOwned, TargetOwned, Refs, SetupOver, SetupOwned, HolderRefs,
         HoldersInStep, RoutesLead, OnePerSlot, Counted, Quiescent;
    ReachableInv(s);
    if !s.fwds[f].once.Done? {
      var k := if s.fwds[f].once.Fresh? then s.fwds[f].keeper else s.fwds[f].once.tid;
      if AtRest(s, s.threads[k]) {
        RestKeepsOnlyWatcher(s, s.threads[k], f);
      } else {
        NoDeadlock(s, k);
      }
    }
  }

  /** So when every connection is closed and all is quiet, the two counters are equal. */
  lemma AllCleaned(s: Sys)
    requires Reachable(s) && Quiescent(s)
    requires forall c <- s.conns :: s.conns[c].closed
    ensures s.created == s.cleaned && AllOutstanding(s) == {} && forall f <- s.fwds :: s.fwds[f].once.Done?
  {
    hide Inv, Quiescent;
    ReachableInv(s);
    forall f <- s.fwds
      ensures s.fwds[f].once.Done?
    {
      FwdConn(s, f);
      ClosedIsCleaned(s, f);
    }
    assert AllOutstanding(s) == {};
    CountersMatch(s);
  }

  lemma FwdConn(s: Sys, f: Fwd)
    requires Inv(s) && f in s.fwds
    ensures s.fwds[f].conn in s.conns
  {}
}
