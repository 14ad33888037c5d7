// The request history of every route, updated in place: the records and slices
// of utils/console_requests.go, each method the body of one locked section.

module ConsoleHistory {
  import H = HistoryModel

  class ConsoleRecord {
    const id: nat
    const message: string
    var events: seq<string>
    var size: int

    constructor (id: nat, message: string)
      ensures this.id == id && this.message == message && events == [] && Sized()
    {
      this.id, this.message, events, size := id, message, [], |message|;
    }

    function Value(): H.Record
      reads this
    {
      H.Record(id, message, events)
    }

    /** The running size is exact. */
    predicate Sized()
      reads this
    {
      size == H.Size(Value())
    }
  }

  function Values(records: seq<ConsoleRecord>): (vs: seq<H.Record>)
    reads records
    ensures |vs| == |records|
    ensures forall i :: 0 <= i < |vs| ==> vs[i] == records[i].Value()
  {
    if records == [] then [] else [records[0].Value()] + Values(records[1..])
  }

  ghost predicate AllSized(records: seq<ConsoleRecord>)
    reads records
  {
    forall i :: 0 <= i < |records| ==> records[i].Sized()
  }

  predicate NoRepeats(records: seq<ConsoleRecord>) {
    forall i, j :: 0 <= i < j < |records| ==> records[i] != records[j]
  }

  class History {
    const limits: H.Limits
    var routes: map<string, seq<ConsoleRecord>>
    /** The route of every record ever made. */
    ghost var owner: map<ConsoleRecord, string>

    constructor (limits: H.Limits)
      ensures Valid() && this.limits == limits && routes == map[]
    {
      this.limits, routes, owner := limits, map[], map[];
    }

    function Records(route: string): seq<ConsoleRecord>
      reads this`routes
    {
      if route in routes then routes[route] else []
    }

    ghost predicate Valid()
      reads this`routes, this`owner, owner.Keys
    {
      Placed(routes, owner) && forall r <- owner.Keys :: r.Sized()
    }

    /** What is kept for a route. */
    function View(route: string): seq<H.Record>
      reads this`routes, Records(route)
    {
      Values(Records(route))
    }

    /** The route's records, trimmed in place. */
    method Trim(route: string)
      requires Valid()
      modifies this`routes, Records(route)
      ensures Valid() && owner == old(owner)
      ensures View(route) == H.Trim(old(View(route)))
      ensures forall other :: other != route ==> Records(other) == old(Records(other)) && View(other) == old(View(other))
    {
      hide NoRepeats, Placed, H.Trim, Values;
      var records := Records(route);
      RouteOwned(routes, owner, route);
      var kept := Trimmed(records);
      KeepLast(routes, owner, route, |kept|);
      routes := routes[route := kept];
      forall other | other != route
        ensures Records(other) == old(Records(other)) && View(other) == old(View(other))
      {
        var rest := Records(other);
        assert rest == old(Records(other));
        forall i | 0 <= i < |rest|
          ensures rest[i] !in records
        {
          RouteOwned(old(routes), owner, other);
          assert rest[i] in rest && owner[rest[i]] == other;
        }
        ValuesSame(rest);
      }
    }

    /** Keeping a request with the most recent ones, if its route is present when the lock is held. */
    method AddRequestHistory(route: string, id: nat, message: string, present: bool)
      requires Valid()
      modifies this, Records(route)
      ensures Valid() && forall r :: r in owner ==> r in old(owner) || fresh(r)
      ensures View(route) == if present then H.Add(old(View(route)), limits, id, message) else old(View(route))
      ensures forall other :: other != route ==> Records(other) == old(Records(other)) && View(other) == old(View(other))
    {
      hide NoRepeats, Placed, H.Trim, Values;
      if limits.requests <= 0 || |message| > H.MAX || !present {
        return;
      }
      var record := new ConsoleRecord(id, message);
      forall other
        ensures View(other) == old(View(other))
      {
        ValuesSame(Records(other));
      }
      Store(route, record);
    }

    /** Storing the record, then trimming. */
    method Store(route: string, record: ConsoleRecord)
      requires Valid() && limits.requests > 0 && record !in owner && record.Sized()
      modifies this, Records(route), record
      ensures Valid() && owner == old(owner)[record := route]
      ensures View(route) == H.Trim(H.Tail(old(View(route)), limits.requests - 1) + [old(record.Value())])
      ensures forall other :: other != route ==> Records(other) == old(Records(other)) && View(other) == old(View(other))
    {
      hide NoRepeats, Placed, H.Trim, Values;
      Append(route, record);
      Trim(route);
    }

    /** Storing the record after the most recent ones. */
    method Append(route: string, record: ConsoleRecord)
      requires Valid() && limits.requests > 0 && record !in owner && record.Sized()
      modifies this`routes, this`owner
      ensures Valid() && owner == old(owner)[record := route]
      ensures Records(route) == H.Tail(old(Records(route)), limits.requests - 1) + [record]
      ensures View(route) == H.Tail(old(View(route)), limits.requests - 1) + [record.Value()]
      ensures forall other :: other != route ==> Records(other) == old(Records(other)) && View(other) == old(View(other))
    {
      hide NoRepeats, Placed, Values;
      var limit := limits.requests;
      var records := Records(route);
      if |records| >= limit {
        records := records[|records| - limit + 1..];
      }
      ValuesTail(Records(route), limit - 1);
      ValuesSnoc(records, record);
      KeepAndAdd(routes, owner, route, |records|, record);
      routes, owner := routes[route := records + [record]], owner[record := route];
    }

    /** Keeping an event with the newest request that has its id. */
    method AddRequestEvent(route: string, requestID: nat, message: string)
      requires Valid()
      modifies this`routes, Records(route)
      ensures Valid() && owner == old(owner)
      ensures View(route) == H.AddEvent(old(View(route)), limits, requestID, message)
      ensures forall other :: other != route ==> Records(other) == old(Records(other)) && View(other) == old(View(other))
    {
      hide NoRepeats, Placed, H.Trim, Values;
      if limits.events <= 0 || limits.requests <= 0 {
        return;
      }
      var records := Records(route);
      var i := |records| - 1;
      while i >= 0
        invariant -1 <= i < |records|
        invariant forall j :: i < j < |records| ==> records[j].id != requestID
      {
        if records[i].id == requestID {
          ExtendRecord(route, i, message);
          Trim(route);
          return;
        }
        i := i - 1;
      }
    }

    method ExtendRecord(route: string, i: nat, message: string)
      requires Valid() && i < |Records(route)| && limits.events > 0
      modifies Records(route)
      ensures Valid()
      ensures View(route) == old(View(route)[i := H.WithEvent(View(route)[i], limits.events, message)])
      ensures forall other :: other != route ==> View(other) == old(View(other))
    {
      hide Placed, Values;
      var records := Records(route);
      RouteOwned(routes, owner, route);
      var record := records[i];
      AppendEvent(record, limits.events, message);
      assert forall j :: 0 <= j < |records| && j != i ==> records[j] != record;
      forall other | other != route
        ensures View(other) == old(View(other))
      {
        OwnersDiffer(routes, owner, other, record);
        ValuesSame(Records(other));
      }
    }

    /** Oldest first, each request followed by its events. */
    method RequestHistory(route: string) returns (messages: seq<string>)
      requires Valid()
      ensures messages == Flat(View(route))
    {
      messages := [];
      var records := Records(route);
      for i := 0 to |records|
        invariant messages == Flat(View(route)[..i])
      {
        var vs := View(route);
        assert vs[..i + 1] == vs[..i] + [vs[i]];
        FlatSnoc(vs[..i], vs[i]);
        messages := messages + [records[i].message] + records[i].events;
      }
      assert View(route)[..|records|] == View(route);
    }

    method RemoveRequestHistory(route: string)
      requires Valid()
      modifies this`routes
      ensures Valid() && route !in routes && View(route) == []
      ensures forall other :: other != route ==> Records(other) == old(Records(other)) && View(other) == old(View(other))
    {
      routes := routes - {route};
    }
  }

  lemma KeepAndAdd(routes: map<string, seq<ConsoleRecord>>, owner: map<ConsoleRecord, string>, route: string, n: nat, record: ConsoleRecord)
    requires Placed(routes, owner) && record !in owner
    requires n <= |if route in routes then routes[route] else []|
    ensures var records := if route in routes then routes[route] else [];
      Placed(routes[route := records[|records| - n..] + [record]], owner[record := route])
  {}

  twostate lemma ValuesSame(records: seq<ConsoleRecord>)
    requires forall i :: 0 <= i < |records| ==> unchanged(records[i])
    ensures Values(records) == old(Values(records))
  {
    forall i | 0 <= i < |records|
      ensures Values(records)[i] == old(Values(records))[i]
    {
      assert unchanged(records[i]);
    }
  }

  /** No record is kept twice, in one route or in two. */
  ghost predicate Placed(routes: map<string, seq<ConsoleRecord>>, owner: map<ConsoleRecord, string>) {
    && (forall route <- routes :: NoRepeats(routes[route]))
    && (forall route, i :: route in routes && 0 <= i < |routes[route]| ==> routes[route][i] in owner && owner[routes[route][i]] == route)
  }

  lemma RouteOwned(routes: map<string, seq<ConsoleRecord>>, owner: map<ConsoleRecord, string>, route: string)
    requires Placed(routes, owner)
    ensures var records := if route in routes then routes[route] else [];
      NoRepeats(records) && forall r <- records :: r in owner && owner[r] == route
  {}

  lemma OwnersDiffer(routes: map<string, seq<ConsoleRecord>>, owner: map<ConsoleRecord, string>, route: string, record: ConsoleRecord)
    requires Placed(routes, owner) && record in owner && owner[record] != route
    ensures record !in if route in routes then routes[route] else []
  {}

  lemma KeepLast(routes: map<string, seq<ConsoleRecord>>, owner: map<ConsoleRecord, string>, route: string, n: nat)
    requires Placed(routes, owner)
    requires n <= |if route in routes then routes[route] else []|
    ensures var records := if route in routes then routes[route] else [];
      Placed(routes[route := records[|records| - n..]], owner)
  {}

  lemma TotalStep(vs: seq<H.Record>, i: nat)
    requires i < |vs|
    ensures H.Total(vs[..i + 1]) == H.Total(vs[..i]) + H.Size(vs[i])
  {
    assert vs[..i + 1] == vs[..i] + [vs[i]];
    H.TotalAppend(vs[..i], [vs[i]]);
  }

  /** The sum that trim begins with. */
  method Sum(records: seq<ConsoleRecord>) returns (total: int)
    requires AllSized(records)
    ensures total == H.Total(Values(records))
  {
    hide Values, H.Total;
    ghost var vs := Values(records);
    total := 0;
    TotalNone();
    for i := 0 to |records|
      invariant total == H.Total(vs[..i])
    {
      TotalStep(vs, i);
      assert records[i].Sized();
      total := total + records[i].size;
    }
    assert vs[..|records|] == vs;
  }

  lemma TotalNone()
    ensures H.Total([]) == 0
  {}

  /** A request alone in its route is cut down by its events. */
  method TrimRecord(record: ConsoleRecord, total: int)
    requires record.Sized() && total == record.size
    modifies record
    ensures record.Sized() && record.Value() == H.TrimEvents(old(record.Value()))
  {
    var left := total;
    while left > H.MAX && |record.events| > 0
      invariant record.Sized() && left == record.size
      invariant H.TrimEvents(record.Value()) == H.TrimEvents(old(record.Value()))
      decreases |record.events|
    {
      left := left - |record.events[0]|;
      record.size := record.size - |record.events[0]|;
      record.events := record.events[1..];
    }
  }

  /** What trim makes of the records of one route. */
  method Trimmed(records: seq<ConsoleRecord>) returns (kept: seq<ConsoleRecord>)
    requires AllSized(records) && NoRepeats(records)
    modifies records
    ensures |kept| <= |records| && kept == records[|records| - |kept|..]
    ensures Values(kept) == H.Trim(old(Values(records)))
    ensures AllSized(records)
  {
    hide Values, NoRepeats, H.Trim, H.Total;
    kept := records;
    var total := Sum(records);
    while total > H.MAX && |kept| > 1
      invariant |kept| <= |records| && kept == records[|records| - |kept|..]
      invariant total == H.Total(Values(kept))
      invariant H.Trim(Values(kept)) == H.Trim(old(Values(records)))
      invariant AllSized(records)
      decreases |kept|
    {
      ValuesUncons(kept);
      TrimCases(Values(kept));
      assert kept[0] == records[|records| - |kept|];
      total := total - kept[0].size;
      kept := kept[1..];
    }
    TrimCases(Values(kept));
    if total > H.MAX && |kept| == 1 {
      ValuesUncons(kept);
      TrimLast(records, |records| - 1, total);
      ValuesUncons(kept);
    }
  }

  lemma TrimCases(vs: seq<H.Record>)
    ensures H.Total(vs) <= H.MAX || vs == [] ==> H.Trim(vs) == vs
    ensures H.Total(vs) > H.MAX && |vs| > 1 ==> H.Trim(vs) == H.Trim(vs[1..])
    ensures H.Total(vs) > H.MAX && |vs| == 1 ==> H.Trim(vs) == [H.TrimEvents(vs[0])]
    ensures vs != [] ==> H.Total(vs) == H.Size(vs[0]) + H.Total(vs[1..])
    ensures |vs| == 1 ==> H.Total(vs) == H.Size(vs[0])
  {}

  lemma ValuesUncons(records: seq<ConsoleRecord>)
    requires records != []
    ensures Values(records) == [records[0].Value()] + Values(records[1..])
    ensures Values(records)[1..] == Values(records[1..]) && Values(records[1..]) == Values(records)[1..]
    ensures |records| == 1 ==> Values(records) == [records[0].Value()]
  {}

  method TrimLast(records: seq<ConsoleRecord>, i: nat, total: int)
    requires i < |records| && AllSized(records) && total == records[i].size
    modifies records[i]
    ensures AllSized(records) && records[i].Value() == H.TrimEvents(old(records[i].Value()))
  {
    TrimRecord(records[i], total);
  }

  /** The messages that a page receives for these requests. */
  function Flat(rs: seq<H.Record>): seq<string> {
    if rs == [] then [] else [rs[0].message] + rs[0].events + Flat(rs[1..])
  }

  lemma {:induction false} FlatSnoc(rs: seq<H.Record>, r: H.Record)
    ensures Flat(rs + [r]) == Flat(rs) + [r.message] + r.events
  {
    if rs == [] {
      assert rs + [r] == [r];
      assert Flat([r]) == [r.message] + r.events + Flat([]);
    } else {
      assert (rs + [r])[1..] == rs[1..] + [r];
      FlatSnoc(rs[1..], r);
    }
  }

  lemma ValuesTail(records: seq<ConsoleRecord>, n: nat)
    ensures Values(H.Tail(records, n)) == H.Tail(Values(records), n)
  {
    hide Values;
  }

  lemma ValuesSnoc(records: seq<ConsoleRecord>, record: ConsoleRecord)
    ensures Values(records + [record]) == Values(records) + [record.Value()]
  {
    hide Values;
  }

  /** The event joins the record's, which lose their oldest to the limit. */
  method AppendEvent(record: ConsoleRecord, limit: int, message: string)
    requires limit > 0 && record.Sized()
    modifies record
    ensures record.Sized() && record.Value() == H.WithEvent(old(record.Value()), limit, message)
  {
    if |record.events| >= limit {
      var cut := |record.events| - limit + 1;
      for j := 0 to cut
        invariant record.events == old(record.events)
        invariant record.size == |record.message| + H.Bytes(record.events) - H.Bytes(record.events[..j])
      {
        assert record.events[..j + 1] == record.events[..j] + [record.events[j]];
        H.BytesAppend(record.events[..j], [record.events[j]]);
        record.size := record.size - |record.events[j]|;
      }
      assert record.events == record.events[..cut] + record.events[cut..];
      H.BytesAppend(record.events[..cut], record.events[cut..]);
      record.events := record.events[cut..];
    }
    H.BytesAppend(record.events, [message]);
    record.events := record.events + [message];
    record.size := record.size + |message|;
  }
}
