// The port range: its random picker, its checker, and the TCP forwards that are
// set up through both. GetRandomPortInRange, CheckPort and GetOpenPort of
// utils/utils.go with handleTCPListener of sshmuxer/tcphandler.go.

module PortRange {
  import opened Options

  const WRAP: nat := 0x1_0000_0000
  const MAX_ATTEMPTS: nat := 100

  /** An entry of the comma-separated list; Odd has more than two ends, NotNumber one that does not parse. */
  datatype Entry = Single(port: nat) | Span(a: nat, b: nat) | Odd | NotNumber

  predicate Contains(e: Entry, port: nat) {
    match e
    case Single(p) => p == port
    case Span(a, b) => a <= port <= b
    case _ => false
  }

  /** What the checker accepts. */
  predicate Accepts(range: seq<Entry>, port: nat) {
    NotNumber !in range && exists i :: 0 <= i < |range| && Contains(range[i], port)
  }

  /** The loop of CheckPort, with its result as ok. */
  method CheckPort(port: nat, range: seq<Entry>) returns (checked: nat, ok: bool)
    ensures ok <==> Accepts(range, port)
    ensures checked == if ok then port else 0
  {
    var checks := false;
    for i := 0 to |range|
      invariant NotNumber !in range[..i]
      invariant checks <==> exists j :: 0 <= j < i && Contains(range[j], port)
    {
      assert range[..i + 1] == range[..i] + [range[i]];
      if range[i].NotNumber? {
        return 0, false;
      }
      if Contains(range[i], port) {
        checks := true;
      }
    }
    assert range[..|range|] == range;
    return if checks then port else 0, checks;
  }

  // ----- the picker -----

  /** A span as the picker keeps it: the ends in order. */
  function Normal(e: Entry): Entry {
    if e.Span? && e.b < e.a then Span(e.b, e.a) else e
  }

  function Width(e: Entry): (w: nat)
    requires e.Single? || (e.Span? && e.a <= e.b)
    ensures w > 0
  {
    if e.Single? then 1 else e.b - e.a + 1
  }

  /** The port at an offset, cut to 32 bits. */
  function PortAt(e: Entry, offset: nat): nat
    requires e.Single? || e.Span?
  {
    (if e.Single? then e.port else e.a + offset) % WRAP
  }

  /** Whether every port the picker can take from the entry is one that the entry contains. */
  predicate Agrees(e: Entry) {
    match e
    case Single(_) => Contains(e, PortAt(e, 0))
    case Span(a, b) => forall offset: nat :: offset < Width(Normal(e)) ==> Contains(e, PortAt(Normal(e), offset))
    case _ => true
  }

  /** The ends are in order and fit a port, but for a span from 0, which takes any cut value. */
  predicate Sound(e: Entry) {
    match e
    case Single(p) => p < WRAP
    case Span(a, b) => a <= b && (b < WRAP || a == 0)
    case _ => true
  }

  lemma Disagreement(e: Entry) returns (offset: nat)
    requires e.Span? && !Sound(e)
    ensures offset < Width(Normal(e)) && !Contains(e, PortAt(Normal(e), offset))
  {
    offset := if e.a <= e.b && e.a <= WRAP then WRAP - e.a else 0;
  }

  /** The picker and the checker agree on an entry exactly when it is sound; a reversed one never is. */
  lemma AgreesIffSound(e: Entry)
    ensures Agrees(e) <==> Sound(e)
  {
    if e.Span? && !Sound(e) {
      var offset := Disagreement(e);
      assert !Contains(e, PortAt(Normal(e), offset));
    }
  }

  /** A reversed range on its own: whatever is picked from it is refused. */
  lemma ReversedIsAlwaysRefused(a: nat, b: nat, offset: nat)
    requires b < a && offset < Width(Normal(Span(a, b)))
    ensures !Accepts([Span(a, b)], PortAt(Normal(Span(a, b)), offset))
  {}

  predicate AllSound(range: seq<Entry>) {
    forall i :: 0 <= i < |range| ==> Sound(range[i])
  }

  /** e is an entry of the range with its ends in order. */
  ghost predicate From(range: seq<Entry>, e: Entry) {
    exists j :: 0 <= j < |range| && (range[j].Single? || range[j].Span?) && e == Normal(range[j])
  }

  lemma FromMore(range: seq<Entry>, last: Entry)
    ensures forall e :: From(range, e) ==> From(range + [last], e)
    ensures last.Single? || last.Span? ==> From(range + [last], Normal(last))
  {
    var all := range + [last];
    assert all[|range|] == last;
    forall e | From(range, e)
      ensures From(all, e)
    {
      var j :| 0 <= j < |range| && (range[j].Single? || range[j].Span?) && e == Normal(range[j]);
      assert all[j] == range[j];
    }
  }

  /** One attempt: the entry and the offset drawn, and whether the port could be listened on. */
  datatype Draw = Draw(index: nat, offset: nat, open: bool)

  /** The ports that an attempt can lead to. */
  ghost predicate Pickable(range: seq<Entry>, port: nat) {
    exists i, offset: nat :: 0 <= i < |range| && (range[i].Single? || range[i].Span?)
      && offset < Width(Normal(range[i])) && port == PortAt(Normal(range[i]), offset)
  }

  /** The entries that ports are picked from, in order. */
  function Numeric(range: seq<Entry>): (es: seq<Entry>)
    ensures forall k :: 0 <= k < |es| ==> From(range, es[k])
  {
    if range == [] then []
    else
      var front, last := range[..|range| - 1], range[|range| - 1];
      FromMore(front, last);
      assert range == front + [last];
      Numeric(front) + if last.Single? || last.Span? then [Normal(last)] else []
  }

  lemma NoneNumeric()
    ensures Numeric([]) == []
  {}

  lemma NumericSnoc(front: seq<Entry>, last: Entry)
    ensures Numeric(front + [last]) == Numeric(front) + if last.Single? || last.Span? then [Normal(last)] else []
  {
    assert (front + [last])[..|front|] == front;
  }

  lemma AreNumeric(range: seq<Entry>, k: nat)
    requires k < |Numeric(range)|
    ensures var e := Numeric(range)[k]; e.Single? || (e.Span? && e.a <= e.b)
  {
    assert From(range, Numeric(range)[k]);
  }

  /** The k-th attempt draws this port. */
  ghost predicate Draws(range: seq<Entry>, draw: nat -> Draw, k: nat, port: nat) {
    var es := Numeric(range);
    es != [] && port == PortAt(es[draw(k).index % |es|], draw(k).offset % Width(es[draw(k).index % |es|]))
  }

  /** The k-th attempt is the first whose port can be listened on. */
  ghost predicate FirstOpen(draw: nat -> Draw, k: nat) {
    k < 100 && draw(k).open && forall j: nat :: j < k ==> !draw(j).open
  }

  lemma DrawnIsPickable(range: seq<Entry>, draw: nat -> Draw, k: nat, port: nat)
    requires Draws(range, draw, k, port)
    ensures Pickable(range, port)
  {
    var es := Numeric(range);
    var e := es[draw(k).index % |es|];
    assert From(range, e);
    var j :| 0 <= j < |range| && (range[j].Single? || range[j].Span?) && e == Normal(range[j]);
    assert draw(k).offset % Width(e) < Width(Normal(range[j]));
  }

  /**
   * draw stands for the random source and the network. The first attempt whose port can
   * be listened on decides; 0 is for want of one.
   */
  method GetRandomPortInRange(range: seq<Entry>, draw: nat -> Draw) returns (port: nat)
    ensures port == 0 || (NotNumber !in range && Pickable(range, port))
    ensures NotNumber in range || Numeric(range) == [] || (forall k: nat :: !FirstOpen(draw, k)) ==> port == 0
    ensures NotNumber !in range && Numeric(range) != [] ==> forall k: nat :: FirstOpen(draw, k) ==> Draws(range, draw, k, port)
  {
    hide Numeric, Width, PortAt, Pickable, From, Normal;
    var possible: seq<Entry> := [];
    NoneNumeric();
    for i := 0 to |range|
      invariant NotNumber !in range[..i] && possible == Numeric(range[..i])
    {
      assert range[..i + 1] == range[..i] + [range[i]];
      NumericSnoc(range[..i], range[i]);
      match range[i]
      case NotNumber => return 0;
      case Odd =>
      case _ => possible := possible + [Normal(range[i])];
    }
    assert range[..|range|] == range;
    if |possible| == 0 {
      return 0;
    }
    for attempt := 0 to MAX_ATTEMPTS
      invariant forall j: nat :: j < attempt ==> !draw(j).open
    {
      var d := draw(attempt);
      var e := possible[d.index % |possible|];
      AreNumeric(range, d.index % |possible|);
      var offset := d.offset % Width(e);
      var bindPort := PortAt(e, offset);
      if d.open {
        assert FirstOpen(draw, attempt);
        DrawnIsPickable(range, draw, attempt, bindPort);
        return bindPort;
      }
    }
    return 0;
  }

  /** With sound entries the checker accepts whatever the picker finds. */
  lemma PickIsAccepted(range: seq<Entry>, port: nat)
    requires AllSound(range) && NotNumber !in range && Pickable(range, port)
    ensures Accepts(range, port)
  {
    var i, offset: nat :| 0 <= i < |range| && (range[i].Single? || range[i].Span?)
      && offset < Width(Normal(range[i])) && port == PortAt(Normal(range[i]), offset);
    AgreesIffSound(range[i]);
    assert Contains(range[i], port);
  }

  /** An entry's ports, its ends in either order, can all be picked. */
  lemma EveryPortCanBePicked(range: seq<Entry>, i: nat, port: nat)
    requires i < |range| && port < WRAP
    requires match range[i]
             case Single(p) => port == p
             case Span(a, b) => a <= port <= b || b <= port <= a
             case _ => false
    ensures Pickable(range, port)
  {
    var e := Normal(range[i]);
    var offset := if e.Single? then 0 else port - e.a;
    assert offset < Width(e) && port == PortAt(e, offset);
  }

  /** So what can be picked from sound entries is exactly what the checker accepts. */
  lemma PickableIffAccepted(range: seq<Entry>, port: nat)
    requires AllSound(range) && NotNumber !in range && port < WRAP
    ensures Pickable(range, port) <==> Accepts(range, port)
  {
    if Pickable(range, port) {
      PickIsAccepted(range, port);
    } else if i: nat :| i < |range| && Contains(range[i], port) {
      EveryPortCanBePicked(range, i, port);
    }
  }

  /** And some draw does pick it. */
  lemma PickableIsDrawn(range: seq<Entry>, port: nat) returns (d: Draw)
    requires Pickable(range, port)
    ensures Draws(range, _ => d, 0, port)
  {
    var i, offset: nat :| 0 <= i < |range| && (range[i].Single? || range[i].Span?)
      && offset < Width(Normal(range[i])) && port == PortAt(Normal(range[i]), offset);
    var k := NumericHas(range, i);
    d := Draw(k, offset, true);
    hide Numeric, PortAt, Width, Normal;
    SmallMod(k, |Numeric(range)|);
    SmallMod(offset, Width(Normal(range[i])));
  }

  lemma SmallMod(k: nat, n: nat)
    requires k < n
    ensures k % n == k
  {}

  lemma {:induction false} NumericHas(range: seq<Entry>, i: nat) returns (k: nat)
    requires i < |range| && (range[i].Single? || range[i].Span?)
    ensures k < |Numeric(range)| && Numeric(range)[k] == Normal(range[i])
  {
    var n := |range| - 1;
    if i == n {
      k := |Numeric(range[..n])|;
    } else {
      k := NumericHas(range[..n], i);
    }
  }

  // ----- TCP forwards -----

  type Fwd = nat

  datatype Address = Address(host: string, port: nat)

  /** A listener's connections and, by name, its balancers; only an SNI listener has more than one. */
  datatype TcpHolder = TcpHolder(sni: bool, conns: set<Fwd>, balancers: map<string, set<Fwd>>)

  /** force is the client's; insist and insistName refuse a substitute for the port and for the SNI name. */
  datatype Policy = Policy(
    force: bool, insist: bool, insistName: bool, random: bool, balanceTcp: bool, balanceSni: bool)
  {
    predicate Legal() {
      force ==> insist && insistName && !random && !balanceTcp && !balanceSni
    }

    /** A taken port is shared, depending on the kind of request. */
    predicate Shares(sni: bool) {
      if sni then balanceSni else balanceTcp
    }
  }

  /** name is what the search for an SNI name in the listener answers, None its error. */
  datatype Request = TcpRequest | SniRequest(name: Option<string>)

  /** What the network says while one port is looked for: can it be listened on, and what a pick would draw. */
  datatype Round = Round(probe: bool, draw: nat -> Draw)

  datatype Search = Ended | Found(port: nat, reused: bool)

  datatype Outcome = Undecided | Refused | Established(address: Address)

  /** The SNI name is an error, or another one than the request insists on. */
  predicate NameFails(rq: Request, addr: string, p: Policy) {
    rq.SniRequest? && (rq.name.None? || (p.insistName && !(addr <= rq.name.value)))
  }

  /** Nothing speaks against giving a request its port: it is in the range, can be listened on if it is looked at, and is free or shared. */
  predicate Grants(
    range: seq<Entry>, holders: map<Address, TcpHolder>, stale: set<Address>, host: string, port: nat, sni: bool, p: Policy, probe: bool)
  {
    var a := Address(host, port);
    && !p.random && Accepts(range, port)
    && (a !in holders && (p.balanceTcp || p.balanceSni) ==> probe)
    && (a in holders && a !in stale ==> p.Shares(sni))
  }

  /** h after f joined the balancer of this name, and nothing else. */
  predicate Joined(before: TcpHolder, after: TcpHolder, name: string, f: Fwd) {
    && after.sni == before.sni && after.conns == before.conns + {f}
    && after.balancers.Keys == before.balancers.Keys + {name}
    && (forall other <- before.balancers :: other != name ==> after.balancers[other] == before.balancers[other])
    && after.balancers[name] == (if name in before.balancers then before.balancers[name] else {}) + {f}
  }

  /** The name under which a forward joins a holder. */
  function JoinName(sni: bool, rq: Request, addr: string): string {
    if rq.SniRequest? && rq.name.Some? then rq.name.value else if sni then addr else ""
  }

  function AddBackend(h: TcpHolder, name: string, f: Fwd): TcpHolder {
    var servers := if name in h.balancers then h.balancers[name] else {};
    h.(conns := h.conns + {f}, balancers := h.balancers[name := servers + {f}])
  }

  class TcpListeners {
    /** The empty list stands for an unset option. */
    const range: seq<Entry>
    var holders: map<Address, TcpHolder>

    constructor (range: seq<Entry>)
      ensures Valid() && this.range == range && holders == map[]
    {
      this.range, holders := range, map[];
    }

    predicate Good(port: nat) {
      port != 0 && Accepts(range, port)
    }

    /** Under a sound range every listener is on a port that the checker accepts. */
    ghost predicate Valid()
      reads this
    {
      range != [] && AllSound(range) ==> forall a <- holders :: Good(a.port)
    }

    /** The retry loop of GetOpenPort; stale is what the staleness check says of each address. */
    method GetOpenPort(host: string, requested: nat, sni: bool, p: Policy, stale: set<Address>, rounds: seq<Round>)
      returns (r: Search, ghost count: nat, ghost purged: set<Address>)
      requires Valid() && p.Legal()
      modifies this
      ensures Valid() && holders == old(holders) - purged && purged <= stale
      ensures r.Found? && range != [] && AllSound(range) ==> r.port == 0 || Accepts(range, r.port)
      ensures r.Found? && r.reused ==> p.Shares(sni) && Address(host, r.port) in holders
      ensures p.insist && |rounds| >= 1 ==> r.Found? && count <= 2
      ensures |rounds| >= 1 && Grants(range, old(holders), stale, host, requested, sni, p, rounds[0].probe) ==>
        r == Found(requested, Address(host, requested) in old(holders) && Address(host, requested) !in stale) && count == 1
      ensures r.Found? && !(|rounds| >= 1 && Grants(range, old(holders), stale, host, requested, sni, p, rounds[0].probe)) ==>
        p.insist || r.port == 0 || (NotNumber !in range && Pickable(range, r.port))
      ensures r.Found? && !p.insist && !r.reused ==> Address(host, r.port) !in holders
      ensures old(holders) == map[] && |rounds| >= 1 ==> r.Found? && !r.reused
    {
      hide Accepts, Pickable, AllSound;
      var bindPort, first, failed, taken, reused := requested, true, false, true, false;
      var used := 0;
      count, purged := 0, {};
      while taken
        invariant 0 <= used <= |rounds| && (first <==> count == 0) && (first ==> used == 0 && taken && !failed)
        invariant Valid() && holders == old(holders) - purged && purged <= stale
        invariant !first && range != [] && AllSound(range) ==> bindPort == 0 || Accepts(range, bindPort)
        invariant reused ==> !taken && p.Shares(sni) && Address(host, bindPort) in holders
        invariant !first && taken && p.insist ==> failed
        invariant p.insist ==> count <= (if taken then 1 else 2)
        invariant old(holders) == map[] ==> !reused && (taken ==> first)
        invariant if first then bindPort == requested && purged == {} else |rounds| > 0
        invariant !first && Grants(range, old(holders), stale, host, requested, sni, p, rounds[0].probe) ==>
          && !taken && !failed && count == 1 && bindPort == requested
          && reused == (Address(host, requested) in old(holders) && Address(host, requested) !in stale)
        invariant !first && !Grants(range, old(holders), stale, host, requested, sni, p, rounds[0].probe) && !p.insist ==>
          taken || bindPort == 0 || (NotNumber !in range && Pickable(range, bindPort))
        invariant failed ==> p.insist
        invariant !taken && !failed && !reused ==> Address(host, bindPort) !in holders
        decreases taken, !failed, |rounds| - used
      {
        count := count + 1;
        if failed {
          taken := false;
          break;
        }
        if used == |rounds| {
          return Ended, count, purged;
        }
        var round := rounds[used];
        used := used + 1;
        var checkedPort, ok := CheckPort(bindPort, range);
        if ok && Address(host, bindPort) !in holders && (p.balanceTcp || p.balanceSni) {
          ok := round.probe;
        }
        if p.random || (!first && !p.force) || !ok {
          failed := failed || (first && p.insist);
          if range != [] {
            bindPort := GetRandomPortInRange(range, round.draw);
            if bindPort != 0 && AllSound(range) {
              PickIsAccepted(range, bindPort);
            }
          } else {
            bindPort := 0;
          }
        } else {
          bindPort := checkedPort;
        }
        var address := Address(host, bindPort);
        if address in stale {
          holders, purged := holders - {address}, purged + {address};
        }
        var shared := (!sni && p.balanceTcp) || (sni && p.balanceSni);
        taken := address in holders && !shared;
        reused := address in holders && shared;
        failed := failed || (first && taken && p.insist);
        first := false;
      }
      r := Found(bindPort, reused);
    }

    /**
     * listens is whether the address found can be listened on at last. A listener made
     * here has a backend exactly when the SNI name did not fail: one that fails leaves
     * the listener behind, empty.
     */
    method HandleTcp(
      f: Fwd, host: string, addr: string, requested: nat, rq: Request, p: Policy, stale: set<Address>, rounds: seq<Round>,
      listens: bool)
      returns (r: Outcome, ghost made: Option<Address>)
      requires Valid() && p.Legal()
      modifies this
      ensures Valid()
      ensures forall a <- holders :: (a in old(holders) && holders[a] == old(holders[a])) || r == Established(a) || made == Some(a)
      ensures forall a <- old(holders) :: a in holders || a in stale
      ensures NameFails(rq, addr, p) ==> !r.Established?
      ensures made.Some? ==>
        && made.value in holders
        && (r == Established(made.value) <==> !NameFails(rq, addr, p))
        && (holders[made.value].balancers == map[] <==> NameFails(rq, addr, p))
        && holders[made.value].sni == rq.SniRequest?
        && (NameFails(rq, addr, p) ==> holders[made.value].conns == {})
      ensures r.Established? ==>
        && r.address in holders && f in holders[r.address].conns
        && exists name :: name in holders[r.address].balancers && f in holders[r.address].balancers[name]
      ensures r.Established? ==>
        var a := r.address;
        if made.Some? then
          a == made.value && Joined(TcpHolder(rq.SniRequest?, {}, map[]), holders[a], JoinName(rq.SniRequest?, rq, addr), f)
        else a in old(holders) && Joined(old(holders[a]), holders[a], JoinName(old(holders[a]).sni, rq, addr), f)
      ensures |rounds| >= 1 && Grants(range, old(holders), stale, host, requested, rq.SniRequest?, p, rounds[0].probe) ==>
        requested != 0 && !NameFails(rq, addr, p) && listens ==> r == Established(Address(host, requested))
      ensures r.Established? && range != [] && AllSound(range) ==> Good(r.address.port)
      ensures r.Established? && p.insist ==> r.address.port == requested
      ensures p.insist && |rounds| >= 1 ==> !r.Undecided?
      ensures old(holders) == map[] && range == [] && !p.insist && listens && |rounds| >= 1 ==> made.Some?
    {
      made := None;
      var found, _, _ := GetOpenPort(host, requested, rq.SniRequest?, p, stale, rounds);
      if found.Ended? {
        return Undecided, made;
      }
      if found.port == 0 && range != [] {
        return Refused, made;
      }
      if found.port != requested && p.insist {
        return Refused, made;
      }
      var address := Address(host, found.port);
      var name := "";
      if found.reused {
        name := if holders[address].sni then addr else "";
      } else {
        if !listens {
          return Refused, made;
        }
        holders, made := holders[address := TcpHolder(rq.SniRequest?, {}, map[])], Some(address);
        name := if rq.SniRequest? then addr else "";
      }
      if rq.SniRequest? {
        if rq.name.None? || (!(addr <= rq.name.value) && p.insistName) {
          return Refused, made;
        }
        name := rq.name.value;
      }
      holders := holders[address := AddBackend(holders[address], name, f)];
      assert name in holders[address].balancers;
      r := Established(address);
    }

    /** Such a call: nothing is set up, and a listener without backends stays. */
    method FailedNameLeavesListener(f: Fwd, addr: string) returns (ghost address: Address)
      requires range == [] && holders == map[]
      modifies this
      ensures holders == map[address := TcpHolder(true, {}, map[])]
    {
      var p := Policy(false, false, false, false, false, false);
      var rounds := [Round(true, attempt => Draw(0, 0, true))];
      var r, made := HandleTcp(f, "", addr, 0, SniRequest(None), p, {}, rounds, true);
      address := made.value;
      assert forall a <- holders :: a == address;
      assert holders.Keys == {address};
    }
  }
}
