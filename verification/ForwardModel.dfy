// The life of a forward as steps of threads: allocation under the bind lock,
// force-connect takeover, and teardown reached from five triggers, from
// sshmuxer/requests.go, sshmuxer/forward_lifecycle.go and utils/conn.go.
//
// A thread is a main program and up to two calls on top of it: a call of
// CleanUp for a connection, and a call of a forward's once-guarded cleanup. The
// innermost call is the one that moves. Every lock, channel and shared map is a
// field of Sys; one Step is one access to shared state, with three exceptions.
// Open looks for an address, purges and stores in one step: it is inside the bind
// lock, and all it reads that others write without the lock is whether a listener
// is there, which once gone never comes back, so it may be taken to happen at its
// last look. Disconnect takes stock of all listeners at once: whom it misses or
// adds by that makes no difference to what others may do, since a connection may be
// closed by anyone at any time. Making a forward and listing it is one step: until
// it is listed only its handler knows of it.

module ForwardModel {
  import opened Options
  import opened Slots

  type Tid = nat
  type Conn = nat
  type Fwd = nat        // a forward, named by its fresh unix socket
  type HolderId = nat

  datatype Kind = Http | Alias | Tcp

  /** The normalised key of the force-connect lock registry. */
  datatype Target = Target(kind: Kind, addr: string, port: nat)

  datatype Req = Req(conn: Conn, target: Target, force: bool)

  datatype Once = Fresh | Running(tid: Tid) | Done

  /** What setOnCleanup was given: nothing, a TCP holder, or an HTTP or alias holder. */
  datatype Binding = Unset | TcpHolder | Routed(holder: HolderId)

  /**
   * starts counts how often the cleanup body has begun. The rest are auxiliary:
   * whether the request handler still owns the forward, the thread that will see to
   * its cleanup if no one else does, and which of the two counters it is in.
   */
  datatype Forward = Forward(
    conn: Conn, target: Target, once: Once, starts: nat, done: bool, closed: bool, binding: Binding,
    setup: bool, keeper: Tid, counted: bool, ended: bool)

  datatype ConnState = ConnState(once: Once, closed: bool, cleanups: set<Fwd>)

  datatype Holder = Holder(key: Key, conns: set<Fwd>, servers: set<Fwd>)

  // ----- program counters -----

  datatype HandlerPc =
    | Begin
    | WantTarget
    | Disconnect
    | Takeover(victims: set<Conn>)
    | Listen
    | Count(f: Fwd)
    | WantBind(f: Fwd)
    | Open(f: Fwd)
    | AddConn(f: Fwd, h: HolderId)
    | AddServer(f: Fwd, h: HolderId)
    | ReleaseBind(f: Fwd, ok: bool)
    | Register(f: Fwd)
    | Watch(f: Fwd)
    | Reply(f: Fwd)
    | Exit

  datatype Main =
    | Handler(req: Req, pc: HandlerPc)
    | Watcher(f: Fwd)
    | Acceptor(f: Fwd)
    | Canceller(f: Fwd)
    | Closer(c: Conn)
    | Finished

  datatype ClosePc = CWant | CWon | CRun(pending: set<Fwd>) | CClosed

  datatype CleanPc =
    | KWant | KStart | KClose | KListener | KUnlink | KHook | KWantBind
    | KServer | KConn | KRoute | KRelease | KCount | KEnd

  datatype CloseCall = CloseCall(c: Conn, pc: ClosePc)
  datatype CleanCall = CleanCall(f: Fwd, pc: CleanPc)

  datatype Thread = Thread(main: Main, close: Option<CloseCall>, clean: Option<CleanCall>)

  datatype Sys = Sys(
    threads: map<Tid, Thread>,
    fwds: map<Fwd, Forward>,
    conns: map<Conn, ConnState>,
    targets: map<Target, Tid>,
    bind: Option<Tid>,
    listeners: set<Fwd>,
    routes: map<Key, HolderId>,
    holders: map<HolderId, Holder>,
    created: nat,
    cleaned: nat)

  const INIT := Sys(map[], map[], map[], map[], None, {}, map[], map[], 0, 0)

  // ----- nondeterminism -----

  /** What GetOpenHost, GetOpenAlias or GetOpenPort answers, with the stale entries it purged on the way. */
  datatype Opening =
    | Refused(purged: set<Key>)
    | Reused(purged: set<Key>, want: Slot, key: Key)
    | Created(purged: set<Key>, key: Key, h: HolderId)
    | TcpOpened

  /** The branch a step takes: the usual one, the other one, or one with a value chosen. */
  datatype Choice = Usual | Other | Victim(c: Conn) | Snapshot(fs: set<Fwd>) | Each(f: Fwd) | New(n: nat) | Opens(o: Opening)

  datatype Action =
    | Connect(c: Conn)
    | Arrive(t: Tid, main: Main)
    | Go(t: Tid, x: Choice)

  // ----- shared changes -----

  /** What one step does to the state that threads share. */
  datatype Change =
    | Nothing
    | LockBind | UnlockBind | GiveUp(f: Fwd)
    | LockTarget(k: Target) | UnlockTarget(k: Target)
    | BeginClean(f: Fwd) | EndClean(f: Fwd)
    | BeginClose(c: Conn) | EndClose(c: Conn)
    | CloseChannel(c: Conn)
    | SignalDone(f: Fwd) | CloseListener(f: Fwd) | DropListener(f: Fwd)
    | AddCleanup(f: Fwd) | DropCleanup(f: Fwd)
    | Purge(purged: set<Key>)
    | Store(purged: set<Key>, key: Key, h: HolderId)
    | StoreConn(f: Fwd, h: HolderId) | StoreServer(f: Fwd, h: HolderId)
    | DropServer(f: Fwd, h: HolderId) | DropConn(f: Fwd, h: HolderId) | DropRoute(h: HolderId)
    | BindTcp(f: Fwd)
    | NewForward(f: Fwd, conn: Conn, target: Target)
    | CountCreated(f: Fwd) | CountCleaned(f: Fwd)
    | Start(w: Tid, main: Main)

  predicate Applicable(s: Sys, ch: Change) {
    match ch
    case BeginClean(f) => f in s.fwds && s.fwds[f].once.Fresh?
    case EndClean(f) => f in s.fwds
    case CountCreated(f) => f in s.fwds
    case CountCleaned(f) => f in s.fwds
    case BeginClose(c) => c in s.conns && s.conns[c].once.Fresh?
    case EndClose(c) => c in s.conns
    case CloseChannel(c) => c in s.conns
    case SignalDone(f) => f in s.fwds
    case CloseListener(f) => f in s.fwds
    case AddCleanup(f) => f in s.fwds && s.fwds[f].conn in s.conns
    case DropCleanup(f) => f in s.fwds && s.fwds[f].conn in s.conns
    case Store(_, _, h) => h !in s.holders
    case StoreConn(f, h) => h in s.holders
    case StoreServer(f, h) => h in s.holders && f in s.fwds
    case DropServer(f, h) => h in s.holders
    case DropConn(f, h) => h in s.holders
    case DropRoute(h) => h in s.holders
    case BindTcp(f) => f in s.fwds
    case GiveUp(f) => f in s.fwds
    case NewForward(f, _, _) => f !in s.fwds
    case Start(w, main) => w !in s.threads && (main.Watcher? ==> main.f in s.fwds)
    case LockBind => s.bind.None?
    case LockTarget(k) => k !in s.targets
    case _ => true
  }

  /** The one forward that a change concerns. */
  function Touched(ch: Change): Option<Fwd> {
    match ch
    case NewForward(f, _, _) => Some(f)
    case CountCreated(f) => Some(f)
    case StoreServer(f, _) => Some(f)
    case BindTcp(f) => Some(f)
    case GiveUp(f) => Some(f)
    case AddCleanup(f) => Some(f)
    case Start(_, main) => if main.Watcher? then Some(main.f) else None
    case BeginClean(f) => Some(f)
    case SignalDone(f) => Some(f)
    case CloseListener(f) => Some(f)
    case CountCleaned(f) => Some(f)
    case EndClean(f) => Some(f)
    case _ => None
  }

  function FwdAfter(fw: Forward, t: Tid, ch: Change): Forward {
    match ch
    case NewForward(_, conn, target) => Forward(conn, target, Fresh, 0, false, false, Unset, true, t, false, false)
    case CountCreated(_) => fw.(counted := true)
    case StoreServer(_, h) => fw.(binding := Routed(h))
    case BindTcp(_) => fw.(binding := TcpHolder)
    case GiveUp(_) => fw.(setup := false)
    case AddCleanup(_) => fw.(setup := false)
    case Start(w, _) => fw.(keeper := w)
    case BeginClean(_) => fw.(once := Running(t), starts := fw.starts + 1)
    case SignalDone(_) => fw.(done := true)
    case CloseListener(_) => fw.(closed := true)
    case CountCleaned(_) => fw.(ended := true)
    case EndClean(_) => fw.(once := Done)
    case _ => fw
  }

  /** Nothing was there before a forward was made. */
  const NO_FORWARD := Forward(0, Target(Tcp, "", 0), Fresh, 0, false, false, Unset, false, 0, false, false)

  function FwdsAfter(s: Sys, t: Tid, ch: Change): map<Fwd, Forward> {
    match Touched(ch)
    case None => s.fwds
    case Some(f) => s.fwds[f := FwdAfter(if f in s.fwds then s.fwds[f] else NO_FORWARD, t, ch)]
  }

  /** The one connection that a change concerns. */
  function TouchedConn(s: Sys, ch: Change): Option<Conn>
    requires Applicable(s, ch)
  {
    match ch
    case BeginClose(c) => Some(c)
    case CloseChannel(c) => Some(c)
    case EndClose(c) => Some(c)
    case AddCleanup(f) => Some(s.fwds[f].conn)
    case DropCleanup(f) => Some(s.fwds[f].conn)
    case _ => None
  }

  function ConnAfter(cs: ConnState, t: Tid, ch: Change): ConnState {
    match ch
    case BeginClose(_) => cs.(once := Running(t))
    case CloseChannel(_) => cs.(closed := true)
    case EndClose(_) => cs.(once := Done)
    case AddCleanup(f) => cs.(cleanups := cs.cleanups + {f})
    case DropCleanup(f) => cs.(cleanups := cs.cleanups - {f})
    case _ => cs
  }

  function ConnsAfter(s: Sys, t: Tid, ch: Change): map<Conn, ConnState>
    requires Applicable(s, ch)
  {
    match TouchedConn(s, ch)
    case None => s.conns
    case Some(c) => s.conns[c := ConnAfter(s.conns[c], t, ch)]
  }

  function TargetsAfter(s: Sys, t: Tid, ch: Change): map<Target, Tid> {
    match ch
    case LockTarget(k) => s.targets[k := t]
    case UnlockTarget(k) => s.targets - {k}
    case _ => s.targets
  }

  function BindAfter(s: Sys, t: Tid, ch: Change): Option<Tid> {
    match ch
    case LockBind => Some(t)
    case UnlockBind => None
    case GiveUp(_) => None
    case _ => s.bind
  }

  function ListenersAfter(s: Sys, ch: Change): set<Fwd> {
    match ch
    case NewForward(f, _, _) => s.listeners + {f}
    case DropListener(f) => s.listeners - {f}
    case _ => s.listeners
  }

  /** An emptied holder's entry goes by the holder's key, whatever the key leads to by now. */
  function RoutesAfter(s: Sys, ch: Change): map<Key, HolderId>
    requires Applicable(s, ch)
  {
    match ch
    case Purge(purged) => s.routes - purged
    case Store(purged, key, h) => (s.routes - purged)[key := h]
    case DropRoute(h) => if s.holders[h].servers == {} then s.routes - {s.holders[h].key} else s.routes
    case _ => s.routes
  }

  function HoldersAfter(s: Sys, ch: Change): map<HolderId, Holder>
    requires Applicable(s, ch)
  {
    match ch
    case Store(_, key, h) => s.holders[h := Holder(key, {}, {})]
    case StoreConn(f, h) => s.holders[h := s.holders[h].(conns := s.holders[h].conns + {f})]
    case StoreServer(f, h) => s.holders[h := s.holders[h].(servers := s.holders[h].servers + {f})]
    case DropServer(f, h) => s.holders[h := s.holders[h].(servers := s.holders[h].servers - {f})]
    case DropConn(f, h) => s.holders[h := s.holders[h].(conns := s.holders[h].conns - {f})]
    case _ => s.holders
  }

  function Apply(s: Sys, t: Tid, ch: Change): Sys
    requires Applicable(s, ch)
  {
    Sys(
      if ch.Start? then s.threads[ch.w := Thread(ch.main, None, None)] else s.threads,
      FwdsAfter(s, t, ch),
      ConnsAfter(s, t, ch),
      TargetsAfter(s, t, ch),
      BindAfter(s, t, ch),
      ListenersAfter(s, ch),
      RoutesAfter(s, ch),
      HoldersAfter(s, ch),
      s.created + if ch.CountCreated? then 1 else 0,
      s.cleaned + if ch.CountCleaned? then 1 else 0)
  }

  /** A thread's own next state and what the step does to shared state. */
  datatype Move = Move(th: Thread, ch: Change)

  // ----- helpers -----

  function AtMain(th: Thread, main: Main): Thread {
    th.(main := main)
  }

  function AtPc(th: Thread, pc: HandlerPc): Thread
    requires th.main.Handler?
  {
    th.(main := th.main.(pc := pc))
  }

  function AtClean(th: Thread, pc: CleanPc): Thread
    requires th.clean.Some?
  {
    th.(clean := Some(CleanCall(th.clean.value.f, pc)))
  }

  function AtClose(th: Thread, pc: ClosePc): Thread
    requires th.close.Some?
  {
    th.(close := Some(CloseCall(th.close.value.c, pc)))
  }

  /** main resumes after a call of forward f's cleanup. */
  function CallClean(th: Thread, main: Main, f: Fwd): Thread {
    th.(main := main, clean := Some(CleanCall(f, KWant)))
  }

  /** main resumes after a call of CleanUp on connection c. */
  function CallClose(th: Thread, main: Main, c: Conn): Thread {
    th.(main := main, close := Some(CloseCall(c, CWant)))
  }

  /** No listener behind the holder is open any more. */
  predicate Stale(s: Sys, h: HolderId) {
    h in s.holders && s.holders[h].conns !! s.listeners && s.holders[h].servers !! s.listeners
  }

  /** HTTP forwards live under HTTP slots and aliases under alias slots without a scheme. */
  predicate Fits(kind: Kind, key: Key) {
    match kind
    case Http => key.slot.HttpSlot?
    case Alias => key.slot.AliasSlot? && key.scheme == ""
    case Tcp => false
  }

  predicate MayPurge(s: Sys, kind: Kind, purged: set<Key>) {
    forall k <- purged :: Fits(kind, k) && k in s.routes && Stale(s, s.routes[k])
  }

  /** The connections other than c holding a listener for the same target. */
  function Victims(s: Sys, c: Conn, target: Target): set<Conn> {
    set f | f in s.listeners && f in s.fwds && s.fwds[f].target == target && s.fwds[f].conn != c :: s.fwds[f].conn
  }

  // ----- cleanup of a forward -----

  function CleanMove(s: Sys, th: Thread): Option<Move>
    requires th.clean.Some?
  {
    var f := th.clean.value.f;
    if f !in s.fwds then None
    else
      var fw := s.fwds[f];
      match th.clean.value.pc
      case KWant =>
        (match fw.once
         case Fresh => Some(Move(AtClean(th, KStart), BeginClean(f)))
         case Done => Some(Move(th.(clean := None), Nothing))
         case Running(_) => None)
      case KStart => Some(Move(AtClean(th, KClose), SignalDone(f)))
      case KClose => Some(Move(AtClean(th, KListener), CloseListener(f)))
      case KListener => Some(Move(AtClean(th, KUnlink), DropListener(f)))
      case KUnlink => Some(Move(AtClean(th, KHook), DropCleanup(f)))
      case KHook => Some(Move(AtClean(th, if fw.binding.Unset? then KCount else KWantBind), Nothing))
      case KWantBind => if s.bind.Some? then None else Some(Move(AtClean(th, KServer), LockBind))
      case KServer =>
        if fw.binding.Routed? then Some(Move(AtClean(th, KConn), DropServer(f, fw.binding.holder)))
        else Some(Move(AtClean(th, KRelease), Nothing))
      case KConn => if fw.binding.Routed? then Some(Move(AtClean(th, KRoute), DropConn(f, fw.binding.holder))) else None
      case KRoute => if fw.binding.Routed? then Some(Move(AtClean(th, KRelease), DropRoute(fw.binding.holder))) else None
      case KRelease => Some(Move(AtClean(th, KCount), UnlockBind))
      case KCount => Some(Move(AtClean(th, KEnd), CountCleaned(f)))
      case KEnd => Some(Move(th.(clean := None), EndClean(f)))
  }

  // ----- CleanUp of a connection -----

  function CloseMove(s: Sys, th: Thread, x: Choice): Option<Move>
    requires th.close.Some?
  {
    var c := th.close.value.c;
    if c !in s.conns then None
    else
      match th.close.value.pc
      case CWant =>
        (match s.conns[c].once
         case Fresh => Some(Move(AtClose(th, CWon), BeginClose(c)))
         case Done => Some(Move(th.(close := None), Nothing))
         case Running(_) => None)
      case CWon =>
        // A range over the cleanup map may miss entries that come or go meanwhile.
        if x.Snapshot? && x.fs <= s.conns[c].cleanups then Some(Move(AtClose(th, CRun(x.fs)), Nothing)) else None
      case CRun(pending) =>
        if pending == {} then Some(Move(AtClose(th, CClosed), CloseChannel(c)))
        else if x.Each? && x.f in pending then
          Some(Move(AtClose(th, CRun(pending - {x.f})).(clean := Some(CleanCall(x.f, KWant))), Nothing))
        else None
      case CClosed => Some(Move(th.(close := None), EndClose(c)))
  }

  // ----- main programs -----

  function OpenMove(s: Sys, th: Thread, o: Opening): Option<Move>
    requires th.main.Handler? && th.main.pc.Open?
  {
    var f, r := th.main.pc.f, th.main.req;
    match o
    case Refused(purged) =>
      if MayPurge(s, r.target.kind, purged) then Some(Move(AtPc(th, ReleaseBind(f, false)), Purge(purged))) else None
    case Reused(purged, want, key) =>
      if MayPurge(s, r.target.kind, purged) && key in s.routes && key !in purged
         && Fits(r.target.kind, key) && Conflicts(want, key.slot) && !r.force then
        Some(Move(AtPc(th, AddConn(f, s.routes[key])), Purge(purged)))
      else None
    case Created(purged, key, h) =>
      if MayPurge(s, r.target.kind, purged) && Fits(r.target.kind, key) && Free(s.routes, purged, key.slot) then
        Some(Move(AtPc(th, AddConn(f, h)), Store(purged, key, h)))
      else None
    case TcpOpened =>
      if r.target.kind.Tcp? then Some(Move(AtPc(th, ReleaseBind(f, true)), BindTcp(f))) else None
  }

  function HandlerMove(s: Sys, th: Thread, x: Choice): Option<Move>
    requires th.main.Handler?
  {
    var r := th.main.req;
    var exit := th.main.(pc := Exit);
    match th.main.pc
    case Begin =>
      if x == Other then Some(Move(CallClose(th, Finished, r.conn), Nothing))
      else if r.conn in s.conns && s.conns[r.conn].closed then Some(Move(AtMain(th, Finished), Nothing))
      else Some(Move(AtPc(th, if r.force then WantTarget else Listen), Nothing))
    case WantTarget =>
      if r.target in s.targets then None else Some(Move(AtPc(th, Disconnect), LockTarget(r.target)))
    case Disconnect => Some(Move(AtPc(th, Takeover(Victims(s, r.conn, r.target))), Nothing))
    case Takeover(victims) =>
      if victims == {} then Some(Move(AtPc(th, Listen), Nothing))
      else if x.Victim? && x.c in victims then
        Some(Move(CallClose(th, th.main.(pc := Takeover(victims - {x.c})), x.c), Nothing))
      else None
    case Listen =>
      if x == Other then Some(Move(AtPc(th, Exit), Nothing))
      else if x.New? then Some(Move(AtPc(th, Count(x.n)), NewForward(x.n, r.conn, r.target)))
      else None
    case Count(f) => Some(Move(AtPc(th, WantBind(f)), CountCreated(f)))
    case WantBind(f) => if s.bind.Some? then None else Some(Move(AtPc(th, Open(f)), LockBind))
    case Open(_) => if x.Opens? then OpenMove(s, th, x.o) else None
    case AddConn(f, h) => Some(Move(AtPc(th, AddServer(f, h)), StoreConn(f, h)))
    case AddServer(f, h) => Some(Move(AtPc(th, ReleaseBind(f, true)), StoreServer(f, h)))
    case ReleaseBind(f, ok) =>
      Some(if ok then Move(AtPc(th, Register(f)), UnlockBind) else Move(CallClean(th, exit, f), GiveUp(f)))
    case Register(f) => Some(Move(AtPc(th, Watch(f)), AddCleanup(f)))
    case Watch(f) => if x.New? then Some(Move(AtPc(th, Reply(f)), Start(x.n, Watcher(f)))) else None
    case Reply(f) =>
      if x == Other then Some(Move(CallClean(th, exit, f), Nothing))
      else if x.New? then Some(Move(AtPc(th, Exit), Start(x.n, Acceptor(f))))
      else None
    case Exit => Some(Move(AtMain(th, Finished), if r.force then UnlockTarget(r.target) else Nothing))
  }

  function MainMove(s: Sys, th: Thread, x: Choice): Option<Move> {
    match th.main
    case Handler(_, _) => HandlerMove(s, th, x)
    case Watcher(f) =>
      if f !in s.fwds then None
      else if x != Other && s.fwds[f].conn in s.conns && s.conns[s.fwds[f].conn].closed then
        Some(Move(CallClean(th, Finished, f), Nothing))
      else if x == Other && s.fwds[f].done then Some(Move(AtMain(th, Finished), Nothing))
      else None
    case Acceptor(f) =>
      if f in s.fwds && s.fwds[f].closed then Some(Move(CallClean(th, Finished, f), Nothing)) else None
    case Canceller(f) =>
      if f !in s.fwds then None
      else if s.fwds[f].conn in s.conns && f in s.conns[s.fwds[f].conn].cleanups then
        Some(Move(CallClean(th, Finished, f), Nothing))
      else Some(Move(AtMain(th, Finished), CloseListener(f)))
    case Closer(c) => Some(Move(CallClose(th, Finished, c), Nothing))
    case Finished => None
  }

  /** The innermost call moves. */
  function Plan(s: Sys, th: Thread, x: Choice): Option<Move> {
    if th.clean.Some? then CleanMove(s, th)
    else if th.close.Some? then CloseMove(s, th, x)
    else MainMove(s, th, x)
  }

  // ----- runs -----

  /** Threads that arrive from outside: a forward request, a cancel request, or any caller of CleanUp. */
  predicate MayArrive(s: Sys, main: Main) {
    match main
    case Handler(r, pc) => r.conn in s.conns && pc == Begin
    case Canceller(f) => f in s.fwds
    case Closer(c) => c in s.conns
    case _ => false
  }

  function Step(s: Sys, a: Action): Option<Sys> {
    match a
    case Connect(c) =>
      if c in s.conns then None else Some(s.(conns := s.conns[c := ConnState(Fresh, false, {})]))
    case Arrive(t, main) =>
      if t in s.threads || !MayArrive(s, main) then None
      else Some(s.(threads := s.threads[t := Thread(main, None, None)]))
    case Go(t, x) =>
      if t !in s.threads then None
      else
        match Plan(s, s.threads[t], x)
        case None => None
        case Some(m) => Perform(s, t, m)
  }

  function Perform(s: Sys, t: Tid, m: Move): Option<Sys> {
    if !Applicable(s, m.ch) then None
    else
      var s1 := Apply(s, t, m.ch);
      Some(s1.(threads := s1.threads[t := m.th]))
  }

  /** The state after a run, if every step of it was enabled. */
  function Exec(s: Sys, run: seq<Action>): Option<Sys>
    decreases |run|
  {
    if run == [] then Some(s)
    else
      match Exec(s, run[..|run| - 1])
      case None => None
      case Some(mid) => Step(mid, run[|run| - 1])
  }

  /** A run can be taken from its first step. */
  lemma {:induction false} ExecFirst(s: Sys, a: Action, run: seq<Action>)
    requires Step(s, a).Some?
    ensures Exec(s, [a] + run) == Exec(Step(s, a).value, run)
    decreases |run|
  {
    hide Step;
    if run == [] {
      assert [a] + run == [a] && [a][..0] == [];
      assert Exec(s, []) == Some(s);
    } else {
      var n := |run| - 1;
      ExecFirst(s, a, run[..n]);
      assert ([a] + run)[..n + 1] == [a] + run[..n];
    }
  }

  /** s is the end of some run from the initial state. */
  ghost predicate Reachable(s: Sys) {
    exists run :: Exec(INIT, run) == Some(s)
  }
}
