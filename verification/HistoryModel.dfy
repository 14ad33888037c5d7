// The request history of one console route as a value: the bounds of
// utils/console_requests.go and what survives them.

module HistoryModel {
  import opened Options

  const MAX: nat := 8 * 0x10_0000

  datatype Record = Record(id: nat, message: string, events: seq<string>)

  function Bytes(messages: seq<string>): nat {
    if messages == [] then 0 else |messages[0]| + Bytes(messages[1..])
  }

  function Size(r: Record): nat {
    |r.message| + Bytes(r.events)
  }

  function Total(rs: seq<Record>): nat {
    if rs == [] then 0 else Size(rs[0]) + Total(rs[1..])
  }

  lemma {:induction false} BytesAppend(xs: seq<string>, ys: seq<string>)
    ensures Bytes(xs + ys) == Bytes(xs) + Bytes(ys)
  {
    if xs == [] {
      assert xs + ys == ys;
    } else {
      assert (xs + ys)[1..] == xs[1..] + ys;
      BytesAppend(xs[1..], ys);
    }
  }

  lemma {:induction false} TotalAppend(xs: seq<Record>, ys: seq<Record>)
    ensures Total(xs + ys) == Total(xs) + Total(ys)
  {
    if xs == [] {
      assert xs + ys == ys;
    } else {
      assert (xs + ys)[1..] == xs[1..] + ys;
      TotalAppend(xs[1..], ys);
    }
  }

  /** The last n of xs. */
  function Tail<T>(xs: seq<T>, n: nat): seq<T> {
    if n < |xs| then xs[|xs| - n..] else xs
  }

  // ----- the operations -----

  function TrimEvents(r: Record): Record
    decreases |r.events|
  {
    if Size(r) <= MAX || r.events == [] then r else TrimEvents(r.(events := r.events[1..]))
  }

  /** Whole requests go until one is left, and its events only then. */
  function Trim(rs: seq<Record>): seq<Record> {
    if Total(rs) <= MAX || rs == [] then rs
    else if |rs| > 1 then Trim(rs[1..])
    else [TrimEvents(rs[0])]
  }

  datatype Limits = Limits(requests: int, events: int)

  function Add(rs: seq<Record>, l: Limits, id: nat, message: string): seq<Record> {
    if l.requests <= 0 || |message| > MAX then rs else Trim(Tail(rs, l.requests - 1) + [Record(id, message, [])])
  }

  /** The newest request with this id. */
  function Find(rs: seq<Record>, id: nat): (i: Option<nat>)
    ensures i.Some? ==> i.value < |rs| && rs[i.value].id == id && forall j :: i.value < j < |rs| ==> rs[j].id != id
    ensures i.None? ==> forall j :: 0 <= j < |rs| ==> rs[j].id != id
  {
    if rs == [] then None
    else if rs[|rs| - 1].id == id then Some(|rs| - 1)
    else Find(rs[..|rs| - 1], id)
  }

  function WithEvent(r: Record, limit: int, message: string): Record
    requires limit > 0
  {
    r.(events := Tail(r.events, limit - 1) + [message])
  }

  function AddEvent(rs: seq<Record>, l: Limits, id: nat, message: string): seq<Record> {
    if l.requests <= 0 || l.events <= 0 then rs
    else
      match Find(rs, id)
      case None => rs
      case Some(i) => Trim(rs[i := WithEvent(rs[i], l.events, message)])
  }

  // ----- what trimming does -----

  predicate Suffix<T(==)>(xs: seq<T>, ys: seq<T>) {
    |xs| <= |ys| && xs == ys[|ys| - |xs|..]
  }

  /** The same request with the newest of its events. */
  predicate Newer(r: Record, full: Record) {
    r.id == full.id && r.message == full.message && Suffix(r.events, full.events)
  }

  /** The newest of log, each with the newest of its events. */
  predicate Newest(rs: seq<Record>, log: seq<Record>) {
    |rs| <= |log| && forall i :: 0 <= i < |rs| ==> Newer(rs[i], log[|log| - |rs| + i])
  }

  lemma {:induction false} NewestTrans(a: seq<Record>, b: seq<Record>, c: seq<Record>)
    requires Newest(a, b) && Newest(b, c)
    ensures Newest(a, c)
  {
    forall i | 0 <= i < |a|
      ensures Newer(a[i], c[|c| - |a| + i])
    {
      var j := |b| - |a| + i;
      assert Newer(a[i], b[j]) && Newer(b[j], c[|c| - |b| + j]);
    }
  }

  lemma {:induction false} TrimEventsFacts(r: Record)
    requires |r.message| <= MAX
    ensures Newer(TrimEvents(r), r) && Size(TrimEvents(r)) <= MAX
    ensures forall n :: |TrimEvents(r).events| < n <= |r.events| ==> Size(r.(events := Tail(r.events, n))) > MAX
    decreases |r.events|
  {
    if Size(r) > MAX && r.events != [] {
      var s := r.(events := r.events[1..]);
      TrimEventsFacts(s);
      forall n | |TrimEvents(r).events| < n <= |r.events|
        ensures Size(r.(events := Tail(r.events, n))) > MAX
      {
        assert n < |r.events| ==> Tail(r.events, n) == Tail(s.events, n);
        assert n < |r.events| ==> s.(events := Tail(s.events, n)) == r.(events := Tail(r.events, n));
        assert n == |r.events| ==> r.(events := Tail(r.events, n)) == r;
      }
    }
  }

  predicate Fitting(rs: seq<Record>) {
    forall i :: 0 <= i < |rs| ==> |rs[i].message| <= MAX
  }

  /** Trimming makes the records fit, and keeps the newest and at least one. */
  lemma {:induction false} TrimFits(rs: seq<Record>)
    requires Fitting(rs)
    ensures Newest(Trim(rs), rs) && Total(Trim(rs)) <= MAX && (rs != [] ==> Trim(rs) != [])
  {
    hide Newer;
    if Total(rs) <= MAX || rs == [] {
      NewestSelf(rs);
    } else if |rs| > 1 {
      TrimFits(rs[1..]);
      NewestTail(rs);
      NewestTrans(Trim(rs), rs[1..], rs);
    } else {
      TrimEventsFacts(rs[0]);
    }
  }

  /** It drops no request that fits together with all that is newer. */
  lemma {:induction false} TrimDropsOnlyExcess(rs: seq<Record>)
    ensures |Trim(rs)| <= |rs| && forall n {:trigger Tail(rs, n)} :: |Trim(rs)| < n <= |rs| ==> Total(Tail(rs, n)) > MAX
  {
    if Total(rs) > MAX && |rs| > 1 {
      TrimDropsOnlyExcess(rs[1..]);
      forall n | |Trim(rs)| < n <= |rs|
        ensures Total(Tail(rs, n)) > MAX
      {
        if n < |rs| {
          assert Tail(rs, n) == Tail(rs[1..], n);
        }
      }
    }
  }

  /** Only the last request left ever loses events to it. */
  lemma {:induction false} TrimKeepsEvents(rs: seq<Record>)
    requires Fitting(rs) && rs != []
    ensures if |Trim(rs)| == 1 then Trim(rs) == [TrimEvents(rs[|rs| - 1])] else Suffix(Trim(rs), rs)
  {
    if Total(rs) <= MAX {
      assert |rs| == 1 ==> Size(rs[0]) == Total(rs) && rs == [rs[0]];
    } else if |rs| > 1 {
      TrimKeepsEvents(rs[1..]);
    }
  }

  lemma NewestSelf(rs: seq<Record>)
    ensures Newest(rs, rs)
  {}

  lemma NewestTail(rs: seq<Record>)
    requires rs != []
    ensures Newest(rs[1..], rs)
  {}

  // ----- how much is kept -----

  /** kept are the last records of all, as many as fit: no more than cap, and 8 MiB of messages and events. */
  ghost predicate LongestTail(kept: seq<Record>, all: seq<Record>, cap: nat) {
    && |kept| <= |all| && kept == Tail(all, |kept|) && |kept| <= cap && Total(kept) <= 0x80_0000
    && forall n: nat {:trigger Tail(all, n)} :: |kept| < n <= |all| && n <= cap ==> Total(Tail(all, n)) > 0x80_0000
  }

  /** The one record kept has the last of its events, as many as fit with the message. */
  ghost predicate LongestEvents(kept: Record, r: Record) {
    && kept.id == r.id && kept.message == r.message
    && |kept.events| <= |r.events| && kept.events == Tail(r.events, |kept.events|) && Size(kept) <= 0x80_0000
    && forall n: nat {:trigger Tail(r.events, n)} :: |kept.events| < n <= |r.events| ==>
         |r.message| + Bytes(Tail(r.events, n)) > 0x80_0000
  }

  lemma TrimIsLongest(rs: seq<Record>)
    requires Fitting(rs) && rs != []
    ensures var last := rs[|rs| - 1];
      if Size(last) <= 0x80_0000 then LongestTail(Trim(rs), rs, |rs|)
      else |Trim(rs)| == 1 && LongestEvents(Trim(rs)[0], last)
  {
    var last := rs[|rs| - 1];
    TrimFits(rs);
    TrimDropsOnlyExcess(rs);
    TrimKeepsEvents(rs);
    if Size(last) <= MAX {
      FitsAsItIs(last);
      assert Tail(rs, 1) == [last];
    } else {
      LastTooLarge(rs);
      TrimmedEvents(last);
    }
    hide Trim, TrimEvents, Total, Size;
  }

  lemma FitsAsItIs(r: Record)
    requires Size(r) <= MAX
    ensures TrimEvents(r) == r
  {}

  lemma TrimmedEvents(r: Record)
    requires |r.message| <= MAX
    ensures LongestEvents(TrimEvents(r), r)
  {
    TrimEventsFacts(r);
    hide TrimEvents;
  }

  lemma {:induction false} LastTooLarge(rs: seq<Record>)
    requires rs != [] && Size(rs[|rs| - 1]) > MAX
    ensures |Trim(rs)| == 1 && Total(rs) > MAX
  {
    TotalAppend(rs[..|rs| - 1], [rs[|rs| - 1]]);
    assert rs == rs[..|rs| - 1] + [rs[|rs| - 1]];
    assert Total([rs[|rs| - 1]]) == Size(rs[|rs| - 1]) + Total([]);
    if |rs| > 1 {
      LastTooLarge(rs[1..]);
    }
  }

  /** Recording a request keeps it, and with it the last of those before, as many as fit. */
  lemma RequestKeeps(rs: seq<Record>, l: Limits, id: nat, message: string)
    requires Fitting(rs) && l.requests > 0 && |message| <= 0x80_0000
    ensures LongestTail(Add(rs, l, id, message), rs + [Record(id, message, [])], l.requests)
  {
    var r := Record(id, message, []);
    var all, some := rs + [r], Tail(rs, l.requests - 1) + [r];
    hide Trim, Total, Size;
    SizeBare(id, message);
    TrimIsLongest(some);
    TailOfTail(rs, l.requests, r);
    LongestOfTail(Trim(some), all, l.requests);
  }

  lemma TailOfTail(rs: seq<Record>, n: nat, r: Record)
    requires n > 0
    ensures Tail(rs, n - 1) + [r] == Tail(rs + [r], n)
  {}

  /** The longest of the last cap records is the longest of all within cap. */
  lemma LongestOfTail(kept: seq<Record>, all: seq<Record>, cap: nat)
    requires LongestTail(kept, Tail(all, cap), |Tail(all, cap)|)
    ensures LongestTail(kept, all, cap)
  {
    hide Total;
    var some := Tail(all, cap);
    assert Tail(some, |kept|) == Tail(all, |kept|);
    forall n: nat {:trigger Tail(all, n)} | |kept| < n <= |all| && n <= cap
      ensures Total(Tail(all, n)) > MAX
    {
      assert Tail(some, n) == Tail(all, n);
    }
  }

  lemma SizeBare(id: nat, message: string)
    ensures Size(Record(id, message, [])) == |message|
  {}

  /** A request that does not fit, or that none are kept of, changes nothing. */
  lemma RequestIgnored(rs: seq<Record>, l: Limits, id: nat, message: string)
    requires l.requests <= 0 || |message| > 0x80_0000
    ensures Add(rs, l, id, message) == rs
  {}

  /**
   * An event goes to the last request with its id, after the last of that one's events
   * up to the limit. Then the last requests are kept, as many as fit; and if not even
   * the last one does, the last of its events, as many as fit.
   */
  lemma EventKeeps(rs: seq<Record>, l: Limits, i: nat, message: string)
    requires Fitting(rs) && l.requests > 0 && l.events > 0
    requires i < |rs| && forall j :: i < j < |rs| ==> rs[j].id != rs[i].id
    ensures var events := rs[i].events + [message];
      var all := rs[i := Record(rs[i].id, rs[i].message, if |events| > l.events then events[|events| - l.events..] else events)];
      var kept := AddEvent(rs, l, rs[i].id, message);
      if Size(all[|all| - 1]) <= 0x80_0000 then LongestTail(kept, all, |all|)
      else |kept| == 1 && LongestEvents(kept[0], all[|all| - 1])
  {
    hide Trim, Total, Size, Find, WithEvent, AddEvent, Fitting, LongestTail, LongestEvents;
    var events := rs[i].events + [message];
    var r := Record(rs[i].id, rs[i].message, if |events| > l.events then events[|events| - l.events..] else events);
    FindLast(rs, i);
    AddsToFound(rs, l, i, message);
    LastEvents(rs[i], l.events, message);
    StillFitting(rs, i, r);
    TrimIsLongest(rs[i := r]);
  }

  lemma AddsToFound(rs: seq<Record>, l: Limits, i: nat, message: string)
    requires i < |rs| && l.requests > 0 && l.events > 0 && Find(rs, rs[i].id) == Some(i)
    ensures AddEvent(rs, l, rs[i].id, message) == Trim(rs[i := WithEvent(rs[i], l.events, message)])
  {
    hide Trim, Find;
  }

  lemma LastEvents(r: Record, limit: int, message: string)
    requires limit > 0
    ensures var events := r.events + [message];
      WithEvent(r, limit, message)
      == Record(r.id, r.message, if |events| > limit then events[|events| - limit..] else events)
  {}

  lemma StillFitting(rs: seq<Record>, i: nat, r: Record)
    requires Fitting(rs) && i < |rs| && r.message == rs[i].message
    ensures Fitting(rs[i := r])
  {}

  lemma FindLast(rs: seq<Record>, i: nat)
    requires i < |rs| && forall j :: i < j < |rs| ==> rs[j].id != rs[i].id
    ensures Find(rs, rs[i].id) == Some(i)
  {}

  /** An event for no request, or that none are kept of, changes nothing. */
  lemma EventIgnored(rs: seq<Record>, l: Limits, id: nat, message: string)
    requires l.requests <= 0 || l.events <= 0 || forall i :: 0 <= i < |rs| ==> rs[i].id != id
    ensures AddEvent(rs, l, id, message) == rs
  {}

  // ----- runs -----

  datatype Op = Request(id: nat, message: string) | Event(id: nat, message: string)

  function Do(rs: seq<Record>, l: Limits, op: Op): seq<Record> {
    match op
    case Request(id, message) => Add(rs, l, id, message)
    case Event(id, message) => AddEvent(rs, l, id, message)
  }

  function Kept(l: Limits, ops: seq<Op>): seq<Record> {
    if ops == [] then [] else Do(Kept(l, ops[..|ops| - 1]), l, ops[|ops| - 1])
  }

  /** Every request that fits at all with every event it ever got, nothing evicted. */
  function Log(ops: seq<Op>): seq<Record> {
    if ops == [] then []
    else
      var log := Log(ops[..|ops| - 1]);
      match ops[|ops| - 1]
      case Request(id, message) => if |message| > MAX then log else log + [Record(id, message, [])]
      case Event(id, message) => LogEvent(log, id, message)
  }

  /** The log's side of an event. */
  function LogEvent(log: seq<Record>, id: nat, message: string): seq<Record> {
    match Find(log, id)
    case None => log
    case Some(i) => log[i := log[i].(events := log[i].events + [message])]
  }

  /** A limit that is not positive keeps nothing. */
  function Cap(limit: int): nat {
    if limit > 0 then limit else 0
  }

  predicate Bounded(rs: seq<Record>, l: Limits) {
    && |rs| <= Cap(l.requests) && Total(rs) <= MAX
    && Fitting(rs) && FewEvents(rs, l)
  }

  predicate FewEvents(rs: seq<Record>, l: Limits) {
    forall i :: 0 <= i < |rs| ==> |rs[i].events| <= Cap(l.events)
  }

  lemma NewestAdd(rs: seq<Record>, log: seq<Record>, n: nat, r: Record)
    requires Newest(rs, log)
    ensures Newest(Tail(rs, n) + [r], log + [r])
  {
    var t := Tail(rs, n);
    forall i | 0 <= i < |t|
      ensures Newer(t[i], log[|log| - |t| + i])
    {
      assert t[i] == rs[|rs| - |t| + i];
    }
  }

  lemma SuffixSnoc<T>(xs: seq<T>, ys: seq<T>, n: nat, x: T)
    requires Suffix(xs, ys)
    ensures Suffix(Tail(xs, n) + [x], ys + [x])
  {
    var t := Tail(xs, n);
    assert Suffix(t, ys);
    assert (ys + [x])[|ys| - |t|..] == ys[|ys| - |t|..] + [x];
  }

  lemma NewestFront(rs: seq<Record>, log: seq<Record>)
    requires Newest(rs, log) && rs != []
    ensures log != [] && Newer(rs[|rs| - 1], log[|log| - 1]) && Newest(rs[..|rs| - 1], log[..|log| - 1])
  {
    var a, b := rs[..|rs| - 1], log[..|log| - 1];
    forall i | 0 <= i < |a|
      ensures Newer(a[i], b[|b| - |a| + i])
    {
      assert b[|b| - |a| + i] == log[|log| - |rs| + i];
    }
  }

  /** The event goes to the same request whether or not older ones were evicted. */
  lemma {:induction false} FindNewest(rs: seq<Record>, log: seq<Record>, id: nat)
    requires Newest(rs, log)
    ensures match Find(rs, id)
            case Some(i) => Find(log, id) == Some(|log| - |rs| + i)
            case None => Find(log, id).Some? ==> Find(log, id).value < |log| - |rs|
  {
    if rs != [] {
      NewestFront(rs, log);
      FindNewest(rs[..|rs| - 1], log[..|log| - 1], id);
    }
  }

  lemma NewestUpdate(rs: seq<Record>, log: seq<Record>, i: nat, r: Record, full: Record)
    requires Newest(rs, log) && i < |rs| && Newer(r, full)
    ensures Newest(rs[i := r], log[|log| - |rs| + i := full])
  {
    hide Newer;
  }

  lemma NewestBefore(rs: seq<Record>, log: seq<Record>, j: nat, full: Record)
    requires Newest(rs, log) && j < |log| - |rs|
    ensures Newest(rs, log[j := full])
  {
    hide Newer;
  }

  lemma NewestEvent(rs: seq<Record>, log: seq<Record>, limit: int, id: nat, message: string)
    requires Newest(rs, log) && limit > 0
    ensures match Find(rs, id)
            case Some(i) => Newest(rs[i := WithEvent(rs[i], limit, message)], LogEvent(log, id, message))
            case None => Newest(rs, LogEvent(log, id, message))
  {
    hide Newest, Find;
    FindNewest(rs, log, id);
    match Find(rs, id)
    case Some(i) =>
      var j := |log| - |rs| + i;
      NewestAt(rs, log, i);
      SuffixSnoc(rs[i].events, log[j].events, limit - 1, message);
      NewestUpdate(rs, log, i, WithEvent(rs[i], limit, message), log[j].(events := log[j].events + [message]));
    case None =>
      if Find(log, id).Some? {
        var j := Find(log, id).value;
        NewestBefore(rs, log, j, log[j].(events := log[j].events + [message]));
      }
  }

  lemma NewestAt(rs: seq<Record>, log: seq<Record>, i: nat)
    requires Newest(rs, log) && i < |rs|
    ensures |rs| <= |log| && Newer(rs[i], log[|log| - |rs| + i])
  {}

  /**
   * After any run of requests and events under fixed limits the bounds hold, and
   * what is kept are the newest requests made, each with the newest of its events.
   */
  lemma {:induction false} RunKeepsNewest(l: Limits, ops: seq<Op>)
    ensures Bounded(Kept(l, ops), l) && Newest(Kept(l, ops), Log(ops))
    ensures l.requests > 0 && Log(ops) != [] ==> Kept(l, ops) != []
  {
    if ops != [] {
      var front := ops[..|ops| - 1];
      RunKeepsNewest(l, front);
      StepKeepsNewest(l, front, ops[|ops| - 1], Kept(l, front), Log(front));
    }
  }

  lemma StepKeepsNewest(l: Limits, front: seq<Op>, op: Op, rs: seq<Record>, log: seq<Record>)
    requires Bounded(rs, l) && Newest(rs, log)
    requires rs == Kept(l, front) && log == Log(front) && (l.requests > 0 && log != [] ==> rs != [])
    ensures var ops := front + [op];
      Bounded(Do(rs, l, op), l) && Newest(Do(rs, l, op), Log(ops))
      && (l.requests > 0 && Log(ops) != [] ==> Do(rs, l, op) != [])
  {
    hide Trim, Newest, Bounded, LogEvent, Kept;
    var ops := front + [op];
    assert ops[..|ops| - 1] == front && ops[|ops| - 1] == op;
    match op
    case Request(id, message) => RequestKeepsNewest(l, id, message, rs, log);
    case Event(id, message) => EventKeepsNewest(l, id, message, rs, log);
  }

  lemma RequestKeepsNewest(l: Limits, id: nat, message: string, rs: seq<Record>, log: seq<Record>)
    requires Bounded(rs, l) && Newest(rs, log) && (l.requests > 0 && log != [] ==> rs != [])
    ensures var next := Add(rs, l, id, message);
      var log1 := if |message| > MAX then log else log + [Record(id, message, [])];
      Bounded(next, l) && Newest(next, log1) && (l.requests > 0 && log1 != [] ==> next != [])
  {
    hide Trim, Newest, Bounded;
    if l.requests <= 0 {
      NothingKept(rs, l, if |message| > MAX then log else log + [Record(id, message, [])]);
    } else if |message| <= MAX {
      var r := Record(id, message, []);
      NewestAdd(rs, log, l.requests - 1, r);
      TailBounded(rs, l, r);
      TrimStays(Tail(rs, l.requests - 1) + [r], log + [r], l);
    }
  }

  lemma EventKeepsNewest(l: Limits, id: nat, message: string, rs: seq<Record>, log: seq<Record>)
    requires Bounded(rs, l) && Newest(rs, log) && (l.requests > 0 && log != [] ==> rs != [])
    ensures var next := AddEvent(rs, l, id, message);
      var log1 := LogEvent(log, id, message);
      Bounded(next, l) && Newest(next, log1) && (l.requests > 0 && log1 != [] ==> next != [])
  {
    if l.requests <= 0 || l.events <= 0 {
      NewestBare(rs, log, id, message);
      return;
    }
    hide Trim, Newest, Bounded;
    NewestEvent(rs, log, l.events, id, message);
    if Find(rs, id).Some? {
      var i := Find(rs, id).value;
      EventBounded(rs, l, i, message);
      TrimStays(rs[i := WithEvent(rs[i], l.events, message)], LogEvent(log, id, message), l);
    }
  }

  lemma NothingKept(rs: seq<Record>, l: Limits, log: seq<Record>)
    requires Bounded(rs, l) && l.requests <= 0
    ensures rs == [] && Newest(rs, log)
  {}

  /** Records without events stay the newest ones, whatever events the log gets. */
  lemma NewestBare(rs: seq<Record>, log: seq<Record>, id: nat, message: string)
    requires Newest(rs, log) && forall i :: 0 <= i < |rs| ==> rs[i].events == []
    ensures Newest(rs, LogEvent(log, id, message)) && |LogEvent(log, id, message)| == |log|
  {
    var log1 := LogEvent(log, id, message);
    forall i | 0 <= i < |rs|
      ensures Newer(rs[i], log1[|log1| - |rs| + i])
    {
      NewestAt(rs, log, i);
    }
  }

  lemma TailBounded(rs: seq<Record>, l: Limits, r: Record)
    requires Bounded(rs, l) && l.requests > 0 && |r.message| <= MAX && r.events == []
    ensures var next := Tail(rs, l.requests - 1) + [r]; |next| <= Cap(l.requests) && Fitting(next) && FewEvents(next, l)
  {}

  lemma EventBounded(rs: seq<Record>, l: Limits, i: nat, message: string)
    requires Bounded(rs, l) && l.events > 0 && i < |rs|
    ensures var next := rs[i := WithEvent(rs[i], l.events, message)]; |next| <= Cap(l.requests) && Fitting(next) && FewEvents(next, l)
  {}

  lemma TrimStays(rs: seq<Record>, log: seq<Record>, l: Limits)
    requires |rs| <= Cap(l.requests) && Fitting(rs) && FewEvents(rs, l) && Newest(rs, log)
    ensures Bounded(Trim(rs), l) && Newest(Trim(rs), log) && (rs != [] ==> Trim(rs) != [])
  {
    hide Trim, Total;
    TrimFits(rs);
    NewestTrans(Trim(rs), rs, log);
    var t := Trim(rs);
    forall i | 0 <= i < |t|
      ensures |t[i].events| <= Cap(l.events) && |t[i].message| <= MAX
    {
      assert Newer(t[i], rs[|rs| - |t| + i]);
    }
  }

  // ----- how much is kept in a run -----

  lemma LongestSnoc(kept: seq<Record>, log: seq<Record>, cap: nat, next: seq<Record>, r: Record)
    requires LongestTail(kept, log, cap) && cap > 0 && LongestTail(next, kept + [r], cap)
    ensures LongestTail(next, log + [r], cap)
  {
    hide Total;
    var all, some := log + [r], kept + [r];
    assert Tail(some, |next|) == Tail(all, |next|);
    forall n: nat {:trigger Tail(all, n)} | |next| < n <= |all| && n <= cap
      ensures Total(Tail(all, n)) > MAX
    {
      if n <= |some| {
        assert Tail(some, n) == Tail(all, n);
      } else {
        assert Tail(all, n) == Tail(log, n - 1) + [r];
        TotalAppend(Tail(log, n - 1), [r]);
      }
    }
  }

  /** After any run of requests alone, what is kept are the last of all requests made, as many as fit. */
  lemma {:induction false} RequestsAlone(l: Limits, ops: seq<Op>)
    requires forall op <- ops :: op.Request?
    ensures LongestTail(Kept(l, ops), Log(ops), Cap(l.requests))
  {
    if ops == [] {
      NoneKept([], Cap(l.requests));
    } else {
      var front, op := ops[..|ops| - 1], ops[|ops| - 1];
      RequestsAlone(l, front);
      RunKeepsNewest(l, front);
      BoundedFits(Kept(l, front), l);
      hide Add, Trim, Total, LongestTail, Bounded, Fitting, Newest;
      if l.requests > 0 && |op.message| <= MAX {
        RequestKeeps(Kept(l, front), l, op.id, op.message);
        LongestSnoc(Kept(l, front), Log(front), l.requests, Kept(l, ops), Record(op.id, op.message, []));
      } else {
        RequestIgnored(Kept(l, front), l, op.id, op.message);
        if |op.message| <= MAX {
          NoneKept(Log(ops), 0);
          EmptyKept(Kept(l, front), Log(front));
        }
      }
    }
  }

  lemma BoundedFits(rs: seq<Record>, l: Limits)
    requires Bounded(rs, l)
    ensures Fitting(rs)
  {}

  lemma NoneKept(log: seq<Record>, cap: nat)
    requires cap == 0 || log == []
    ensures LongestTail([], log, cap)
  {}

  lemma EmptyKept(kept: seq<Record>, log: seq<Record>)
    requires LongestTail(kept, log, 0)
    ensures kept == []
  {}

  /** All of it fits. */
  predicate Roomy(log: seq<Record>, l: Limits) {
    && |log| <= Cap(l.requests) && Total(log) <= 0x80_0000
    && forall i :: 0 <= i < |log| ==> |log[i].events| <= Cap(l.events)
  }

  lemma TotalUpdate(rs: seq<Record>, i: nat, r: Record)
    requires i < |rs|
    ensures Total(rs[i := r]) == Total(rs) - Size(rs[i]) + Size(r)
  {
    var a, b := rs[..i], rs[i + 1..];
    TotalAppend(a, [rs[i]] + b);
    TotalAppend(a, [r] + b);
    assert rs == a + ([rs[i]] + b) && rs[i := r] == a + ([r] + b);
    assert ([rs[i]] + b)[1..] == b && ([r] + b)[1..] == b;
  }

  lemma SizeMore(r: Record, message: string)
    ensures Size(r.(events := r.events + [message])) == Size(r) + |message|
  {
    BytesAppend(r.events, [message]);
    assert Bytes([message]) == |message| + Bytes([]);
  }

  /** An event recorded where everything fits afterwards is recorded as in the log. */
  lemma EventInRoom(log: seq<Record>, l: Limits, id: nat, message: string)
    requires Roomy(LogEvent(log, id, message), l)
    ensures Roomy(log, l) && AddEvent(log, l, id, message) == LogEvent(log, id, message)
  {
    if Find(log, id).Some? {
      var i := Find(log, id).value;
      var r := log[i].(events := log[i].events + [message]);
      var all := log[i := r];
      SizeMore(log[i], message);
      TotalUpdate(log, i, r);
      assert |all[i].events| <= Cap(l.events);
      assert forall j :: 0 <= j < |log| && j != i ==> log[j] == all[j];
      assert Tail(log[i].events, l.events - 1) == log[i].events;
      assert Trim(all) == all;
    }
  }

  lemma RequestInRoom(log: seq<Record>, l: Limits, id: nat, message: string)
    requires Roomy(log + [Record(id, message, [])], l)
    ensures Roomy(log, l) && Add(log, l, id, message) == log + [Record(id, message, [])]
  {
    var r := Record(id, message, []);
    TotalAppend(log, [r]);
    assert forall j :: 0 <= j < |log| ==> log[j] == (log + [r])[j];
    assert Total([r]) == Size(r) + Total([]);
    assert Tail(log, l.requests - 1) == log;
  }

  /** While all of it fits, nothing is lost: every request is kept with every event that it ever got. */
  lemma {:induction false} NothingIsLost(l: Limits, ops: seq<Op>)
    requires Roomy(Log(ops), l)
    ensures Kept(l, ops) == Log(ops)
  {
    if ops != [] {
      var front, op := ops[..|ops| - 1], ops[|ops| - 1];
      var log := Log(front);
      hide Add, AddEvent, LogEvent, Trim, Total, Roomy;
      match op {
        case Request(id, message) =>
          if |message| <= MAX {
            RequestInRoom(log, l, id, message);
          } else {
            RequestIgnored(log, l, id, message);
          }
        case Event(id, message) => EventInRoom(log, l, id, message);
      }
      NothingIsLost(l, front);
    }
  }
}
