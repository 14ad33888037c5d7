// The reference-counted registry of force-connect target locks, from
// sshmuxer/requests.go. Each Action is one critical section of the source; any
// interleaving of any number of threads is a list of actions.

module TargetLocks {
  import opened Options

  type Tid = nat

  // ----- the key of a target -----

  function Decimal(n: nat): (r: string)
    ensures r != "" && forall i :: 0 <= i < |r| ==> '0' <= r[i] <= '9'
  {
    var digit := ['0' + (n % 10) as char];
    if n < 10 then digit else Decimal(n / 10) + digit
  }

  lemma {:induction false} DecimalInjective(a: nat, b: nat)
    requires Decimal(a) == Decimal(b)
    ensures a == b
  {
    var x, y := Decimal(a), Decimal(b);
    assert x[|x| - 1] == '0' + (a % 10) as char && y[|y| - 1] == '0' + (b % 10) as char;
    if a >= 10 && b >= 10 {
      assert x[..|x| - 1] == Decimal(a / 10) && y[..|y| - 1] == Decimal(b / 10);
      DecimalInjective(a / 10, b / 10);
    }
  }

  /** Folding an address to lower case without surrounding space is left to the caller's normalise. */
  function TargetKey(normalise: string -> string, kind: nat, addr: string, port: nat): string {
    Decimal(kind) + "|" + normalise(addr) + "|" + Decimal(port)
  }

  /** Two targets share a lock exactly when they are the same target. */
  lemma KeyIdentifiesTarget(normalise: string -> string, k1: nat, a1: string, p1: nat, k2: nat, a2: string, p2: nat)
    ensures TargetKey(normalise, k1, a1, p1) == TargetKey(normalise, k2, a2, p2)
      <==> k1 == k2 && normalise(a1) == normalise(a2) && p1 == p2
  {
    if TargetKey(normalise, k1, a1, p1) == TargetKey(normalise, k2, a2, p2) {
      var n1, n2 := normalise(a1), normalise(a2);
      var m1, m2 := n1 + "|" + Decimal(p1), n2 + "|" + Decimal(p2);
      assert TargetKey(normalise, k1, a1, p1) == Decimal(k1) + "|" + m1;
      assert TargetKey(normalise, k2, a2, p2) == Decimal(k2) + "|" + m2;
      SplitFirst(Decimal(k1), m1, Decimal(k2), m2);
      SplitLast(n1, Decimal(p1), n2, Decimal(p2));
      DecimalInjective(k1, k2);
      DecimalInjective(p1, p2);
    }
  }

  predicate NoBar(s: string) {
    '|' !in s
  }

  lemma {:induction false} SplitFirst(x1: string, y1: string, x2: string, y2: string)
    requires NoBar(x1) && NoBar(x2) && x1 + "|" + y1 == x2 + "|" + y2
    ensures x1 == x2 && y1 == y2
  {
    FrontOf(x1, y1);
    FrontOf(x2, y2);
    if x1 != "" && x2 != "" {
      SplitFirst(x1[1..], y1, x2[1..], y2);
    }
  }

  lemma FrontOf(x: string, y: string)
    ensures var s := x + "|" + y; s[0] == (if x == "" then '|' else x[0]) && s[1..] == (if x == "" then y else x[1..] + "|" + y)
  {}

  lemma {:induction false} SplitLast(x1: string, y1: string, x2: string, y2: string)
    requires NoBar(y1) && NoBar(y2) && x1 + "|" + y1 == x2 + "|" + y2
    ensures x1 == x2 && y1 == y2
  {
    BackOf(x1, y1);
    BackOf(x2, y2);
    if y1 != "" && y2 != "" {
      SplitLast(x1, y1[..|y1| - 1], x2, y2[..|y2| - 1]);
    }
  }

  lemma BackOf(x: string, y: string)
    ensures var s := x + "|" + y; var n := |s| - 1;
      s[n] == (if y == "" then '|' else y[|y| - 1]) && s[..n] == (if y == "" then x else x + "|" + y[..|y| - 1])
  {}

  // ----- the machine -----

  datatype Lock = Lock(locked: bool, refCount: int)

  /** Queued: counted, waiting for the mutex. Releasing: unlocked, still counted. */
  datatype Phase = Queued | Holding | Releasing

  datatype User<L> = User(key: string, lock: L, phase: Phase)

  /** locks are all that were ever made, named by L; a thread without an entry is not in the protocol. */
  datatype Sys<L(==)> = Sys(entries: map<string, L>, locks: map<L, Lock>, users: map<Tid, User<L>>)

  datatype Action<L> =
    | Enqueue(t: Tid, key: string, l: L)
    | Take(t: Tid)
    | Unlock(t: Tid)
    | Leave(t: Tid)

  /** None when the action cannot happen here. */
  function Step<L>(s: Sys<L>, a: Action<L>): Option<Sys<L>> {
    match a
    case Enqueue(t, key, l) =>
      if t in s.users then None
      else if key in s.entries then
        if l != s.entries[key] || l !in s.locks then None
        else Some(s.(locks := s.locks[l := s.locks[l].(refCount := s.locks[l].refCount + 1)], users := s.users[t := User(key, l, Queued)]))
      else if l in s.locks then None
      else Some(Sys(s.entries[key := l], s.locks[l := Lock(false, 1)], s.users[t := User(key, l, Queued)]))
    case Take(t) =>
      if t !in s.users || !s.users[t].phase.Queued? then None
      else
        var u := s.users[t];
        if u.lock !in s.locks || s.locks[u.lock].locked then None
        else Some(s.(locks := s.locks[u.lock := s.locks[u.lock].(locked := true)], users := s.users[t := u.(phase := Holding)]))
    case Unlock(t) =>
      if t !in s.users || !s.users[t].phase.Holding? then None
      else
        var u := s.users[t];
        if u.lock !in s.locks then None
        else Some(s.(locks := s.locks[u.lock := s.locks[u.lock].(locked := false)], users := s.users[t := u.(phase := Releasing)]))
    case Leave(t) =>
      if t !in s.users || !s.users[t].phase.Releasing? then None
      else
        var u := s.users[t];
        if u.lock !in s.locks then None
        else
          var n := s.locks[u.lock].refCount - 1;
          Some(Sys(
            if n == 0 then s.entries - {u.key} else s.entries,
            s.locks[u.lock := s.locks[u.lock].(refCount := n)],
            s.users - {t}))
  }

  function Exec<L>(s: Sys<L>, run: seq<Action<L>>): Option<Sys<L>> {
    if run == [] then Some(s)
    else
      match Exec(s, run[..|run| - 1])
      case None => None
      case Some(s1) => Step(s1, run[|run| - 1])
  }

  function Init<L>(): Sys<L> {
    Sys(map[], map[], map[])
  }

  // ----- the invariant -----

  /** The threads queued on, holding or still releasing l. */
  ghost function UsersOf<L>(s: Sys<L>, l: L): set<Tid> {
    set t <- s.users | s.users[t].lock == l
  }

  /** Every count is exact. */
  ghost predicate Counted<L>(s: Sys<L>) {
    forall l <- s.locks :: s.locks[l].refCount == |UsersOf(s, l)|
  }

  /** A key is mapped exactly while someone uses it, and to the lock they all use. */
  ghost predicate Mapped<L>(s: Sys<L>) {
    UsersMapped(s) && EntriesUsed(s) && OneKey(s)
  }

  ghost predicate UsersMapped<L>(s: Sys<L>) {
    forall t <- s.users :: s.users[t].key in s.entries && s.entries[s.users[t].key] == s.users[t].lock
  }

  ghost predicate EntriesUsed<L>(s: Sys<L>) {
    forall k <- s.entries :: s.entries[k] in s.locks && UsersOf(s, s.entries[k]) != {}
  }

  ghost predicate OneKey<L>(s: Sys<L>) {
    forall k1 <- s.entries, k2 <- s.entries :: s.entries[k1] == s.entries[k2] ==> k1 == k2
  }

  predicate Holds<L(==)>(s: Sys<L>, t: Tid, l: L) {
    t in s.users && s.users[t].lock == l && s.users[t].phase.Holding?
  }

  /** A held mutex is locked. */
  ghost predicate HeldLocked<L>(s: Sys<L>) {
    forall t <- s.users :: Holds(s, t, s.users[t].lock) ==> s.users[t].lock in s.locks && s.locks[s.users[t].lock].locked
  }

  /** A locked mutex is held. */
  ghost predicate LockedHeld<L>(s: Sys<L>) {
    forall l <- s.locks :: s.locks[l].locked ==> exists t :: Holds(s, t, l)
  }

  /** A mutex is held by one thread at most. */
  ghost predicate OneHolder<L>(s: Sys<L>) {
    forall t <- s.users, u <- s.users :: Holds(s, t, s.users[t].lock) && Holds(s, u, s.users[t].lock) ==> t == u
  }

  ghost predicate Exclusive<L>(s: Sys<L>) {
    HeldLocked(s) && LockedHeld(s) && OneHolder(s)
  }

  ghost predicate Inv<L>(s: Sys<L>) {
    Counted(s) && Mapped(s) && Exclusive(s)
  }

  lemma UserJoins<L>(s: Sys<L>, s1: Sys<L>, t: Tid, l: L)
    requires t !in s.users && t in s1.users && s1.users[t].lock == l && s1.users == s.users[t := s1.users[t]]
    ensures UsersOf(s1, l) == UsersOf(s, l) + {t}
    ensures forall m :: m != l ==> UsersOf(s1, m) == UsersOf(s, m)
  {}

  lemma UserLeaves<L>(s: Sys<L>, s1: Sys<L>, t: Tid)
    requires t in s.users && s1.users == s.users - {t}
    ensures t in UsersOf(s, s.users[t].lock) && UsersOf(s1, s.users[t].lock) == UsersOf(s, s.users[t].lock) - {t}
    ensures forall m :: m != s.users[t].lock ==> UsersOf(s1, m) == UsersOf(s, m)
  {}

  lemma UserStays<L>(s: Sys<L>, s1: Sys<L>, t: Tid, p: Phase)
    requires t in s.users && s1.users == s.users[t := s.users[t].(phase := p)]
    ensures forall m :: UsersOf(s1, m) == UsersOf(s, m)
  {}

  lemma EnqueueCounted<L>(s: Sys<L>, t: Tid, key: string, l: L)
    requires Counted(s) && Mapped(s) && Step(s, Enqueue(t, key, l)).Some?
    ensures Counted(Step(s, Enqueue(t, key, l)).value)
  {
    var s1 := Step(s, Enqueue(t, key, l)).value;
    UserJoins(s, s1, t, l);
    NewUser(s, t, key, l);
    hide UsersOf, Mapped;
  }

  lemma LeaveCounted<L>(s: Sys<L>, t: Tid)
    requires Counted(s) && Step(s, Leave(t)).Some?
    ensures Counted(Step(s, Leave(t)).value)
  {
    UserLeaves(s, Step(s, Leave(t)).value, t);
    hide UsersOf;
  }

  lemma StayCounted<L>(s: Sys<L>, a: Action<L>)
    requires Counted(s) && Step(s, a).Some? && (a.Take? || a.Unlock?)
    ensures Counted(Step(s, a).value)
  {
    UserStays(s, Step(s, a).value, a.t, if a.Take? then Holding else Releasing);
    hide UsersOf;
  }

  lemma StepCounted<L>(s: Sys<L>, a: Action<L>)
    requires Counted(s) && Mapped(s) && Step(s, a).Some?
    ensures Counted(Step(s, a).value)
  {
    hide Counted, Mapped, Step;
    match a
    case Enqueue(t, key, l) => EnqueueCounted(s, t, key, l);
    case Leave(t) => LeaveCounted(s, t);
    case _ => StayCounted(s, a);
  }

  lemma NewUser<L>(s: Sys<L>, t: Tid, key: string, l: L)
    requires Mapped(s) && Step(s, Enqueue(t, key, l)).Some?
    ensures t !in UsersOf(s, l) && (key !in s.entries ==> UsersOf(s, l) == {})
  {
    if u :| u in UsersOf(s, l) {
      assert s.entries[s.users[u].key] == l;
    }
  }

  lemma EnqueueMapped<L>(s: Sys<L>, t: Tid, key: string, l: L)
    requires Mapped(s) && Step(s, Enqueue(t, key, l)).Some?
    ensures Mapped(Step(s, Enqueue(t, key, l)).value)
  {
    var s1 := Step(s, Enqueue(t, key, l)).value;
    UserJoins(s, s1, t, l);
    NewUser(s, t, key, l);
    hide UsersOf;
    assert UsersMapped(s1) by { hide EntriesUsed, OneKey; }
    assert EntriesUsed(s1) by { hide UsersMapped, OneKey; }
    assert OneKey(s1) by { hide UsersMapped; }
  }

  lemma StayMapped<L>(s: Sys<L>, a: Action<L>)
    requires Mapped(s) && Step(s, a).Some? && (a.Take? || a.Unlock?)
    ensures Mapped(Step(s, a).value)
  {
    UserStays(s, Step(s, a).value, a.t, if a.Take? then Holding else Releasing);
    hide UsersOf;
  }

  lemma StepMapped<L>(s: Sys<L>, a: Action<L>)
    requires Counted(s) && Mapped(s) && Step(s, a).Some?
    ensures Mapped(Step(s, a).value)
  {
    hide Counted, Mapped, Step;
    match a
    case Enqueue(t, key, l) => EnqueueMapped(s, t, key, l);
    case Leave(t) => LeaveMapped(s, t, Step(s, a).value);
    case _ => StayMapped(s, a);
  }

  /** The users left behind by t keep their entries, and the key goes with its last user. */
  lemma LeaveKeepsEntries<L>(s: Sys<L>, t: Tid, s1: Sys<L>)
    requires Counted(s) && Mapped(s) && Step(s, Leave(t)) == Some(s1)
    ensures s1.users == s.users - {t} && s1.locks.Keys == s.locks.Keys
    ensures var u := s.users[t];
      && u.key in s.entries && s.entries[u.key] == u.lock
      && s1.entries == if UsersOf(s1, u.lock) == {} then s.entries - {u.key} else s.entries
  {
    UserLeaves(s, s1, t);
    var u := s.users[t];
    assert s.locks[u.lock].refCount == |UsersOf(s, u.lock)|;
    assert |UsersOf(s1, u.lock)| == s.locks[u.lock].refCount - 1;
    hide UsersOf;
  }

  lemma LeaveMapped<L>(s: Sys<L>, t: Tid, s1: Sys<L>)
    requires Counted(s) && Mapped(s) && Step(s, Leave(t)) == Some(s1)
    ensures Mapped(s1)
  {
    LeaveKeepsEntries(s, t, s1);
    LeaveKeepsUsers(s, t, s1);
    UserLeaves(s, s1, t);
    hide Counted, Step, UsersOf, UsersMapped;
  }

  lemma LeaveKeepsUsers<L>(s: Sys<L>, t: Tid, s1: Sys<L>)
    requires UsersMapped(s) && t in s.users && s1.users == s.users - {t}
    requires s1.entries == if UsersOf(s1, s.users[t].lock) == {} then s.entries - {s.users[t].key} else s.entries
    ensures UsersMapped(s1)
  {
    forall v <- s1.users
      ensures s1.users[v].key in s1.entries
    {
      if s.users[v].key == s.users[t].key {
        assert v in UsersOf(s1, s.users[t].lock);
      }
    }
  }

  lemma StepHeldLocked<L>(s: Sys<L>, a: Action<L>)
    requires HeldLocked(s) && OneHolder(s) && Step(s, a).Some?
    ensures HeldLocked(Step(s, a).value)
  {
    var s1 := Step(s, a).value;
    forall t <- s1.users | Holds(s1, t, s1.users[t].lock)
      ensures s1.users[t].lock in s1.locks && s1.locks[s1.users[t].lock].locked
    {
      if t in s.users {
        assert Holds(s, t, s.users[t].lock) || a == Take(t);
        if a.Unlock? {
          assert Holds(s, a.t, s.users[a.t].lock);
        }
      }
    }
  }

  lemma StepLockedHeld<L>(s: Sys<L>, a: Action<L>)
    requires LockedHeld(s) && Step(s, a).Some?
    ensures LockedHeld(Step(s, a).value)
  {
    var s1 := Step(s, a).value;
    forall l <- s1.locks | s1.locks[l].locked
      ensures exists t :: Holds(s1, t, l)
    {
      if l in s.locks && s.locks[l].locked {
        var t :| Holds(s, t, l);
        assert Holds(s1, t, l);
      } else {
        assert Holds(s1, a.t, l);
      }
    }
  }

  lemma StepOneHolder<L>(s: Sys<L>, a: Action<L>)
    requires HeldLocked(s) && OneHolder(s) && Step(s, a).Some?
    ensures OneHolder(Step(s, a).value)
  {
    var s1 := Step(s, a).value;
    forall t <- s1.users, u <- s1.users | Holds(s1, t, s1.users[t].lock) && Holds(s1, u, s1.users[t].lock)
      ensures t == u
    {
      assert Holds(s, t, s1.users[t].lock) || a == Take(t);
      assert Holds(s, u, s1.users[t].lock) || a == Take(u);
    }
  }

  /** What every action keeps. */
  lemma StepInv<L>(s: Sys<L>, a: Action<L>)
    requires Inv(s) && Step(s, a).Some?
    ensures Inv(Step(s, a).value)
  {
    StepCounted(s, a);
    StepMapped(s, a);
    StepHeldLocked(s, a);
    StepLockedHeld(s, a);
    StepOneHolder(s, a);
  }

  /**
   * In every interleaving the reference counts are exact, a key is mapped while and
   * only while it is in use, and each lock is held by at most one thread.
   */
  lemma {:induction false} RunInv<L>(run: seq<Action<L>>)
    requires Exec(Init(), run).Some?
    ensures Inv(Exec(Init(), run).value)
  {
    if run != [] {
      var front := run[..|run| - 1];
      RunInv(front);
      StepInv(Exec(Init(), front).value, run[|run| - 1]);
    }
  }

  // ----- what it implements -----

  /** The specification: one mutex for each key. */
  datatype Event = Grant(t: Tid, key: string) | Free(t: Tid, key: string)

  function Mutex(held: map<string, Tid>, e: Event): Option<map<string, Tid>> {
    match e
    case Grant(t, key) => if key in held then None else Some(held[key := t])
    case Free(t, key) => if key !in held || held[key] != t then None else Some(held - {key})
  }

  function Mutexes(events: seq<Event>): Option<map<string, Tid>> {
    if events == [] then Some(map[])
    else
      match Mutexes(events[..|events| - 1])
      case None => None
      case Some(held) => Mutex(held, events[|events| - 1])
  }

  /** The critical sections that an action enters or leaves. */
  function Seen<L>(s: Sys<L>, a: Action<L>): seq<Event> {
    match a
    case Take(t) => if t in s.users then [Grant(t, s.users[t].key)] else []
    case Unlock(t) => if t in s.users then [Free(t, s.users[t].key)] else []
    case _ => []
  }

  function Trace<L(==)>(run: seq<Action<L>>): seq<Event> {
    if run == [] then []
    else
      var front := run[..|run| - 1];
      match Exec(Init(), front)
      case None => Trace(front)
      case Some(s) => Trace(front) + Seen(s, run[|run| - 1])
  }

  /** held says who is in the critical section of each key. */
  ghost predicate Agreed<L>(users: map<Tid, User<L>>, held: map<string, Tid>) {
    && (forall k <- held :: held[k] in users && users[held[k]].key == k && users[held[k]].phase.Holding?)
    && (forall t <- users :: users[t].phase.Holding? ==> users[t].key in held)
  }

  ghost predicate Agrees<L>(s: Sys<L>, held: map<string, Tid>) {
    Agreed(s.users, held)
  }

  lemma Entering<L>(users: map<Tid, User<L>>, t: Tid, held: map<string, Tid>)
    requires Agreed(users, held) && t in users && !users[t].phase.Holding?
    requires forall u <- users :: users[u].phase.Holding? ==> users[u].key != users[t].key
    ensures users[t].key !in held && Agreed(users[t := users[t].(phase := Holding)], held[users[t].key := t])
  {}

  lemma Leaving<L>(users: map<Tid, User<L>>, t: Tid, held: map<string, Tid>)
    requires Agreed(users, held) && t in users && users[t].phase.Holding?
    requires forall u <- users :: users[u].phase.Holding? && users[u].key == users[t].key ==> u == t
    ensures users[t].key in held && held[users[t].key] == t
    ensures Agreed(users[t := users[t].(phase := Releasing)], held - {users[t].key})
  {}

  /** No one is inside when t enters, and no one else when t is. */
  lemma Alone<L>(s: Sys<L>, t: Tid)
    requires Mapped(s) && Exclusive(s) && t in s.users
    requires Holds(s, t, s.users[t].lock) || Step(s, Take(t)).Some?
    ensures forall u <- s.users :: s.users[u].phase.Holding? && s.users[u].key == s.users[t].key ==> u == t
  {
    forall u <- s.users | s.users[u].phase.Holding? && s.users[u].key == s.users[t].key
      ensures u == t
    {
      assert Holds(s, u, s.users[t].lock);
    }
  }

  lemma TakeAgrees<L>(s: Sys<L>, t: Tid, held: map<string, Tid>)
    requires Mapped(s) && Exclusive(s) && Step(s, Take(t)).Some? && Agrees(s, held)
    ensures Mutex(held, Grant(t, s.users[t].key)).Some?
    ensures Agrees(Step(s, Take(t)).value, Mutex(held, Grant(t, s.users[t].key)).value)
  {
    Alone(s, t);
    hide Mapped, Exclusive, Agreed;
    Entering(s.users, t, held);
  }

  lemma UnlockAgrees<L>(s: Sys<L>, t: Tid, held: map<string, Tid>)
    requires Mapped(s) && Exclusive(s) && Step(s, Unlock(t)).Some? && Agrees(s, held)
    ensures Mutex(held, Free(t, s.users[t].key)).Some?
    ensures Agrees(Step(s, Unlock(t)).value, Mutex(held, Free(t, s.users[t].key)).value)
  {
    Alone(s, t);
    hide Mapped, Exclusive, Agreed;
    Leaving(s.users, t, held);
  }

  lemma QuietAgrees<L>(s: Sys<L>, a: Action<L>, held: map<string, Tid>)
    requires Step(s, a).Some? && !a.Take? && !a.Unlock? && Agrees(s, held)
    ensures Agrees(Step(s, a).value, held)
  {
    var s1 := Step(s, a).value;
    assert forall t <- s1.users :: s1.users[t].phase.Holding? ==> t in s.users && s.users[t] == s1.users[t];
  }

  lemma StepAgrees<L>(s: Sys<L>, a: Action<L>, held: map<string, Tid>)
    requires Mapped(s) && Exclusive(s) && Step(s, a).Some? && Agrees(s, held)
    ensures Seen(s, a) == [] ==> Agrees(Step(s, a).value, held)
    ensures Seen(s, a) != [] ==>
      && |Seen(s, a)| == 1
      && Mutex(held, Seen(s, a)[0]).Some?
      && Agrees(Step(s, a).value, Mutex(held, Seen(s, a)[0]).value)
  {
    hide Mapped, Exclusive, Agrees, Mutex;
    match a
    case Take(t) => TakeAgrees(s, t, held);
    case Unlock(t) => UnlockAgrees(s, t, held);
    case _ => QuietAgrees(s, a, held);
  }

  /**
   * Every interleaving is one of a plain mutex per target: seen from outside, the
   * registry, the counts and the locks that come and go make no difference.
   */
  lemma {:induction false} RunIsMutexPerKey<L>(run: seq<Action<L>>)
    requires Exec(Init(), run).Some?
    ensures Mutexes(Trace(run)).Some? && Agrees(Exec(Init(), run).value, Mutexes(Trace(run)).value)
  {
    if run != [] {
      var front, a := run[..|run| - 1], run[|run| - 1];
      RunIsMutexPerKey(front);
      RunInv(front);
      var s := Exec(Init(), front).value;
      var seen := Seen(s, a);
      StepAgrees(s, a, Mutexes(Trace(front)).value);
      assert seen != [] ==> (Trace(front) + seen)[..|Trace(front) + seen| - 1] == Trace(front);
      assert seen == [] ==> Trace(front) + seen == Trace(front);
    }
  }

  /** Two threads at work on one target never hold it together, and never use two locks for it. */
  lemma OneLockPerTarget<L>(run: seq<Action<L>>, t: Tid, u: Tid)
    requires Exec(Init(), run).Some?
    requires var s := Exec(Init(), run).value; t in s.users && u in s.users && s.users[t].key == s.users[u].key
    ensures var s := Exec(Init(), run).value;
      && s.users[t].lock == s.users[u].lock
      && (s.users[t].phase.Holding? && s.users[u].phase.Holding? ==> t == u)
  {
    RunInv(run);
  }

  /**
   * A queued thread waits only for a thread that is inside the critical section of
   * the same target; every other thread in the protocol can move at once.
   */
  lemma BlockedOnlyByHolder<L>(run: seq<Action<L>>, t: Tid)
    requires Exec(Init(), run).Some? && t in Exec(Init(), run).value.users
    ensures var s := Exec(Init(), run).value;
      match s.users[t].phase
      case Holding => Step(s, Unlock(t)).Some?
      case Releasing => Step(s, Leave(t)).Some?
      case Queued =>
        Step(s, Take(t)).Some? <==> !exists u <- s.users :: s.users[u].key == s.users[t].key && s.users[u].phase.Holding?
  {
    RunInv(run);
    var s := Exec(Init(), run).value;
    assert s.entries[s.users[t].key] == s.users[t].lock;
    if s.users[t].phase.Queued? && s.locks[s.users[t].lock].locked {
      var u :| Holds(s, u, s.users[t].lock);
      assert s.users[u].key == s.users[t].key;
    }
  }

  /** The registry leaks nothing: it is empty whenever no thread is in the protocol. */
  lemma NothingLeaks<L>(run: seq<Action<L>>)
    requires Exec(Init(), run).Some? && Exec(Init(), run).value.users == map[]
    ensures Exec(Init(), run).value.entries == map[]
  {
    RunInv(run);
    var s := Exec(Init(), run).value;
    assert forall k <- s.entries :: UsersOf(s, s.entries[k]) == {};
  }

  // ----- the code -----

  lemma UserKnown<L>(s: Sys<L>, t: Tid)
    requires Inv(s) && t in s.users
    ensures s.users[t].key in s.entries && s.entries[s.users[t].key] == s.users[t].lock && s.users[t].lock in s.locks
  {}

  lemma EntryKnown<L>(s: Sys<L>, key: string)
    requires Inv(s) && key in s.entries
    ensures s.entries[key] in s.locks
  {}

  class TargetLock {
    var locked: bool
    var refCount: int

    constructor ()
      ensures !locked && refCount == 0
    {
      locked, refCount := false, 0;
    }
  }

  /** Each method is the body of one critical section; users and locks say what the threads have done. */
  class Registry {
    var entries: map<string, TargetLock>
    ghost var users: map<Tid, User<TargetLock>>
    ghost var locks: set<TargetLock>

    ghost function View(): Sys<TargetLock>
      reads this, locks
    {
      Sys(entries, map l <- locks :: Lock(l.locked, l.refCount), users)
    }

    ghost predicate Valid()
      reads this, locks
    {
      Inv(View())
    }

    constructor ()
      ensures Valid() && View() == Init()
    {
      entries, users, locks := map[], map[], {};
    }

    method Enqueue(t: Tid, key: string) returns (lock: TargetLock)
      requires Valid() && t !in users
      modifies this, locks
      ensures Valid() && Step(old(View()), Action.Enqueue(t, key, lock)) == Some(View())
      ensures locks == old(locks) + {lock} && fresh(locks - old(locks))
    {
      hide Inv;
      ghost var s := View();
      if key in entries {
        EntryKnown(s, key);
        lock := entries[key];
      } else {
        lock := new TargetLock();
        entries := entries[key := lock];
      }
      lock.refCount := lock.refCount + 1;
      locks := locks + {lock};
      users := users[t := User(key, lock, Queued)];
      assert Step(s, Action.Enqueue(t, key, lock)).value.locks == View().locks;
      StepInv(s, Action.Enqueue(t, key, lock));
    }

    /** Locking the mutex, when that would not block. */
    method Take(t: Tid, lock: TargetLock) returns (ok: bool)
      requires Valid() && t in users && users[t] == User(users[t].key, lock, Queued)
      modifies this, locks
      ensures Valid() && locks == old(locks)
      ensures ok ==> Step(old(View()), Action.Take(t)) == Some(View())
      ensures !ok ==> Step(old(View()), Action.Take(t)) == None && View() == old(View())
    {
      hide Inv;
      ghost var s := View();
      UserKnown(s, t);
      ok := !lock.locked;
      if ok {
        lock.locked := true;
        users := users[t := users[t].(phase := Holding)];
        assert Step(s, Action.Take(t)).value.locks == View().locks;
        StepInv(s, Action.Take(t));
      }
    }

    method Unlock(t: Tid, lock: TargetLock)
      requires Valid() && t in users && users[t] == User(users[t].key, lock, Holding)
      modifies this, locks
      ensures Valid() && locks == old(locks)
      ensures Step(old(View()), Action.Unlock(t)) == Some(View())
    {
      hide Inv;
      ghost var s := View();
      UserKnown(s, t);
      lock.locked := false;
      users := users[t := users[t].(phase := Releasing)];
      assert Step(s, Action.Unlock(t)).value.locks == View().locks;
      StepInv(s, Action.Unlock(t));
    }

    method Leave(t: Tid, key: string, lock: TargetLock)
      requires Valid() && t in users && users[t] == User(key, lock, Releasing)
      modifies this, locks
      ensures Valid() && locks == old(locks)
      ensures Step(old(View()), Action.Leave(t)) == Some(View())
    {
      hide Inv;
      ghost var s := View();
      UserKnown(s, t);
      lock.refCount := lock.refCount - 1;
      if lock.refCount == 0 {
        entries := entries - {key};
      }
      users := users - {t};
      assert Step(s, Action.Leave(t)).value.locks == View().locks;
      StepInv(s, Action.Leave(t));
    }
  }
}
