// The search for an address and the registration of a holder for it, all under
// the bind lock: GetOpenHost and GetOpenAlias of utils/utils.go with
// handleHTTPListener and handleAliasListener of sshmuxer/.

module OpenHost {
  import opened Options
  import opened Slots
  import opened ForwardModel
  import opened HostRequest

  const WILDCARD := "*."

  /** force is the client's force-connect; insist, also set by configuration, refuses a substitute. */
  datatype Policy = Policy(force: bool, insist: bool, random: bool, balance: bool, wildcards: bool, banned: set<string>)

  /** Ended: the random names supplied ran out before one was open. */
  datatype Search = Ended | Unavailable | Available(slot: Slot, holder: Option<Key>)

  datatype Outcome = Undecided | Decided(o: Opening)

  /** Where a search stands: the name it is at, how many random ones it has used, and what it has found out about it. */
  datatype Try = Try(name: string, used: nat, failed: bool, taken: bool, holder: Option<Key>)

  /** An entry that is not stale is in the way of want. */
  predicate Stands<T>(routes: map<Key, T>, stale: set<Key>, want: Slot) {
    exists k <- routes :: k !in stale && Conflicts(want, k.slot)
  }

  /** And it may not be shared. */
  predicate Taken<T>(routes: map<Key, T>, stale: set<Key>, want: Slot, p: Policy) {
    !p.balance && Stands(routes, stale, want)
  }

  /** A name that only wildcard hosts have, where there are none. */
  predicate BadName(want: Slot, p: Policy, name: string) {
    want.HttpSlot? && "*." <= name && !p.wildcards
  }

  function Named(want: Slot, name: string): Slot {
    if want.HttpSlot? then want.(host := name) else AliasSlot(name)
  }

  function NameOf(want: Slot): string {
    if want.HttpSlot? then want.host else want.alias
  }

  /** Nothing speaks against giving a request the address that it asks for. */
  predicate Grants<T>(routes: map<Key, T>, stale: set<Key>, want: Slot, p: Policy) {
    && !p.random && NameOf(want) !in p.banned && !BadName(want, p, NameOf(want))
    && !Taken(routes, stale, want, p)
  }

  /** The first n of the random names are passed over: each is bad, or its address is taken. */
  predicate PassesOver<T>(routes: map<Key, T>, stale: set<Key>, want: Slot, p: Policy, names: seq<string>, n: nat)
    requires n <= |names|
  {
    forall i :: 0 <= i < n ==> BadName(want, p, names[i]) || Taken(routes, stale, Named(want, names[i]), p)
  }

  // ----- what a registration does to the tables -----

  datatype Tables = Tables(routes: map<Key, HolderId>, holders: map<HolderId, Holder>)

  /** Every entry leads to a holder of its own address. */
  predicate Keyed(t: Tables) {
    forall k <- t.routes :: t.routes[k] in t.holders && t.holders[t.routes[k]].key == k
  }

  /** What remains of the tables once f has the address o, or has been refused one. */
  function AfterOpening(t: Tables, o: Opening, f: Fwd): Tables {
    match o
    case Refused(purged) => t.(routes := t.routes - purged)
    case Reused(purged, _, key) =>
      if key !in t.routes || t.routes[key] !in t.holders then t
      else
        var h := t.routes[key];
        Tables(t.routes - purged, t.holders[h := t.holders[h].(conns := t.holders[h].conns + {f}, servers := t.holders[h].servers + {f})])
    case Created(purged, key, h) => Tables((t.routes - purged)[key := h], t.holders[h := Holder(key, {f}, {f})])
    case TcpOpened => t
  }

  /** A new holder gets its connection and its backend. */
  lemma Fill(holders: map<HolderId, Holder>, h: HolderId, key: Key, f: Fwd)
    ensures var m0 := holders[h := Holder(key, {}, {})];
      var m1 := m0[h := m0[h].(conns := m0[h].conns + {f})];
      m1[h := m1[h].(servers := m1[h].servers + {f})] == holders[h := Holder(key, {f}, {f})]
  {
    var none: set<Fwd> := {};
    assert none + {f} == {f};
  }

  /** The address, its one entry and its holder, whose backends include f. */
  predicate Serves(t: Tables, key: Key, f: Fwd) {
    && key in t.routes && t.routes[key] in t.holders
    && f in t.holders[t.routes[key]].conns && f in t.holders[t.routes[key]].servers
  }

  /**
   * What an attempt finds out, given the entries and those that are stale: the name is
   * exchanged if it may not be used, and a failure of the first attempt is final for a
   * request that insists. out is for want of random names.
   */
  predicate Checked<T>(
    routes: map<Key, T>, stales: set<Key>, stale: set<Key>, want: Slot, p: Policy, names: seq<string>, t0: Try, first: bool,
    t: Try, out: bool)
    requires t0.used <= |names|
  {
    var renamed := p.random || (!first && !p.force) || t0.name in p.banned || BadName(want, p, t0.name);
    && t0.used <= t.used <= |names| && t.name == (if t.used == t0.used then t0.name else names[t.used - 1])
    && (forall i :: t0.used <= i < (if out then t.used else t.used - 1) ==> BadName(want, p, names[i]))
    && t.failed == (first && p.insist && (out || t.used > t0.used || t.taken))
    && if out then renamed && t.used == |names| && stale == {}
       else
         && (t.used > t0.used <==> renamed)
         && (t.taken <==> Taken(routes, stales, Named(want, t.name), p))
         && (t.holder.Some? ==>
               && !t.taken && p.balance
               && t.holder.value in routes && t.holder.value !in stales && Conflicts(Named(want, t.name), t.holder.value.slot))
         && (t.holder.None? && !t.taken ==> Free(routes, stale, Named(want, t.name)))
  }

  /** Where the search stands between attempts. */
  predicate Searching<T>(
    routes: map<Key, T>, stales: set<Key>, want: Slot, p: Policy, names: seq<string>, first: bool, t: Try, rounds: nat)
  {
    && t.used <= |names| && t.name == (if t.used == 0 then NameOf(want) else names[t.used - 1])
    && (first ==> t == Try(NameOf(want), 0, false, true, None) && rounds == 0)
    && (t.failed ==> p.insist)
    && (p.insist ==> rounds <= if t.taken then 1 else 2)
    && (!first ==>
          if Grants(routes, stales, want, p) then !t.taken && !t.failed && t.used == 0 && rounds == 1
          else if p.insist then t.failed
          else (t.taken || t.used > 0) && PassesOver(routes, stales, want, p, names, if t.taken then t.used else t.used - 1))
  }

  /** The answer gives a forward the address: a new holder if it is free once what was stale is purged, or else one to share. */
  predicate Given(routes: map<Key, HolderId>, stales: set<Key>, o: Opening, want: Slot, scheme: string, h: HolderId) {
    && !o.TcpOpened?
    && if Free(routes, o.purged, want) then o == Created(o.purged, Key(scheme, want), h)
       else o.Reused? && o.want == want && o.key in routes && o.key !in stales && Conflicts(want, o.key.slot)
  }

  /** It gives the first of the random names that is not passed over, or none when they run out. */
  ghost predicate GivenName(
    routes: map<Key, HolderId>, stales: set<Key>, r: Outcome, want: Slot, p: Policy, names: seq<string>, scheme: string, h: HolderId)
  {
    if r.Undecided? then PassesOver(routes, stales, want, p, names, |names|)
    else
      exists n: nat :: n < |names|
        && PassesOver(routes, stales, want, p, names, n) && Given(routes, stales, r.o, Named(want, names[n]), scheme, h)
  }

  class Registry {
    var listeners: set<Fwd>
    var routes: map<Key, HolderId>
    var holders: map<HolderId, Holder>

    function View(): Sys
      reads this
    {
      INIT.(listeners := listeners, routes := routes, holders := holders)
    }

    function Now(): Tables
      reads this
    {
      Tables(routes, holders)
    }

    predicate Valid()
      reads this
    {
      Keyed(Now()) && forall k <- routes :: k.slot.AliasSlot? ==> k.scheme == ""
    }

    /** No listener behind the holder is open any more. */
    predicate Dead(h: HolderId)
      reads this`listeners, this`holders
    {
      Stale(INIT.(listeners := listeners, holders := holders), h)
    }

    /** An entry whose holder has no open listener left. */
    predicate StaleKey(k: Key)
      reads this
    {
      k in routes && Dead(routes[k])
    }

    function StaleKeys(): (ks: set<Key>)
      reads this
      ensures forall k :: k in ks <==> StaleKey(k)
    {
      set k | k in routes && Dead(routes[k])
    }

    constructor ()
      ensures Valid() && OnePerSlot(routes)
    {
      listeners, routes, holders := {}, map[], map[];
    }

    /**
     * One walk over HTTPListeners in any order: stale entries in the way are purged,
     * the first one that is not stale is the answer.
     */
    method Scan(want: Slot) returns (found: Option<Key>, purged: set<Key>)
      requires Valid()
      modifies this`routes
      ensures routes == old(routes) - purged
      ensures forall k <- purged :: k in old(routes) && Conflicts(want, k.slot) && old(StaleKey(k))
      ensures found.Some? ==> found.value in routes && Conflicts(want, found.value.slot) && !StaleKey(found.value)
      ensures found.None? ==> Free(old(routes), purged, want)
      ensures forall k <- purged :: k.slot.HttpSlot? == want.HttpSlot?
    {
      found, purged := None, {};
      var todo := routes.Keys;
      while todo != {}
        invariant routes == old(routes)
        invariant todo <= routes.Keys && purged <= routes.Keys - todo
        invariant forall k <- purged :: Conflicts(want, k.slot) && StaleKey(k)
        invariant forall k <- routes :: k in todo || k in purged || !Conflicts(want, k.slot)
      {
        var k :| k in todo;
        todo := todo - {k};
        if Conflicts(want, holders[routes[k]].key.slot) {
          if StaleKey(k) {
            purged := purged + {k};
          } else {
            found := Some(k);
            break;
          }
        }
      }
      routes := routes - purged;
    }

    /** AliasListeners is asked for the one key. */
    method Look(want: Slot) returns (found: Option<Key>, purged: set<Key>)
      requires Valid() && want.AliasSlot?
      modifies this`routes
      ensures routes == old(routes) - purged
      ensures forall k <- purged :: k in old(routes) && Conflicts(want, k.slot) && old(StaleKey(k))
      ensures found.Some? ==> found.value in routes && Conflicts(want, found.value.slot) && !StaleKey(found.value)
      ensures found.None? ==> Free(old(routes), purged, want)
      ensures forall k <- purged :: k.slot.AliasSlot?
    {
      var k := Key("", want);
      found, purged := if k in routes then Some(k) else None, {};
      if k in routes && StaleKey(k) {
        found, purged := None, {k};
      }
      routes := routes - purged;
    }

    /** The host that an attempt looks at: another one if it may not be used. */
    method ChooseHost(want: Slot, p: Policy, names: seq<string>, t0: Try, first: bool)
      returns (name: string, used: nat, failed: bool, out: bool)
      requires want.HttpSlot? && t0.used <= |names| && !t0.failed
      ensures t0.used <= used <= |names| && name == if used == t0.used then t0.name else names[used - 1]
      ensures forall i :: t0.used <= i < (if out then used else used - 1) ==> BadName(want, p, names[i])
      ensures var renamed := p.random || (!first && !p.force) || t0.name in p.banned || BadName(want, p, t0.name);
        if out then renamed && used == |names| else (used > t0.used <==> renamed)
      ensures failed == (first && p.insist && (out || used > t0.used))
    {
      name, used, failed, out := t0.name, t0.used, false, false;
      if p.random || (!first && !p.force) || name in p.banned {
        failed := first && p.insist;
        if used == |names| {
          out := true;
          return;
        }
        name, used := names[used], used + 1;
      }
      if !p.wildcards && WILDCARD <= name {
        failed := failed || (first && p.insist);
        if used == |names| {
          out := true;
          return;
        }
        name, used := names[used], used + 1;
      }
    }

    /** One attempt of GetOpenHost: a host, and what stands there. */
    method CheckHost(want: Slot, p: Policy, names: seq<string>, t0: Try, first: bool)
      returns (t: Try, out: bool, stale: set<Key>)
      requires Valid() && want.HttpSlot? && t0.used <= |names| && !t0.failed
      modifies this`routes
      ensures Valid() && routes == old(routes) - stale
      ensures stale <= old(StaleKeys()) && forall k <- stale :: k.slot.HttpSlot?
      ensures Checked(old(routes), old(StaleKeys()), stale, want, p, names, t0, first, t, out)
    {
      hide Dead, Conflicts, Free, Taken, BadName;
      ghost var stales := StaleKeys();
      var name, used, failed;
      name, used, failed, out := ChooseHost(want, p, names, t0, first);
      stale := {};
      if out {
        t := Try(name, used, failed, false, None);
        return;
      }
      var found;
      found, stale := Scan(want.(host := name));
      FoundIsTaken(old(routes), stales, stale, Named(want, name), p, found);
      var taken := found.Some? && !p.balance;
      t := Try(name, used, failed || (first && taken && p.insist), taken, if found.Some? && p.balance then found else None);
    }

    /**
     * The retry loop of GetOpenHost. Whoever may have the host asked for gets it at
     * once; a request that may not be given a substitute is settled within two rounds;
     * and any other gets the first of the random names that is not passed over.
     */
    method GetOpenHost(want: Slot, p: Policy, names: seq<string>)
      returns (r: Search, purged: set<Key>, ghost rounds: nat)
      requires Valid() && want.HttpSlot? && (p.force ==> p.insist && !p.random && !p.balance)
      modifies this`routes
      ensures Valid() && routes == old(routes) - purged
      ensures forall k <- purged :: Fits(Http, k) && k in old(routes) && old(StaleKey(k))
      ensures r.Unavailable? ==> p.insist
      ensures r.Available? ==> r.slot == Named(want, NameOf(r.slot)) && r.slot.HttpSlot?
      ensures r.Available? && r.holder.Some? ==>
        p.balance && r.holder.value in routes && Conflicts(r.slot, r.holder.value.slot) && !StaleKey(r.holder.value)
      ensures r.Available? && r.holder.None? ==> Free(old(routes), purged, r.slot)
      ensures p.insist ==> rounds <= 2 && !r.Ended? && (r.Available? <==> Grants(old(routes), old(StaleKeys()), want, p))
      ensures Grants(old(routes), old(StaleKeys()), want, p) ==> r.Available? && r.slot == want && rounds == 1
      ensures !p.insist && !Grants(old(routes), old(StaleKeys()), want, p) ==>
        if r.Ended? then PassesOver(old(routes), old(StaleKeys()), want, p, names, |names|)
        else r.Available? && exists n: nat :: n < |names| && r.slot == Named(want, names[n])
                               && PassesOver(old(routes), old(StaleKeys()), want, p, names, n)
    {
      hide Dead, Conflicts, Free, Taken, BadName, PassesOver, Grants;
      ghost var stales := StaleKeys();
      var first, t := true, Try(NameOf(want), 0, false, true, None);
      purged, rounds := {}, 0;
      while t.taken
        invariant routes == old(routes) - purged && Valid()
        invariant purged <= stales && forall k <- purged :: k.slot.HttpSlot?
        invariant Searching(old(routes), stales, want, p, names, first, t, rounds)
        invariant !t.taken && t.holder.Some? ==>
          p.balance && t.holder.value in routes && Conflicts(Named(want, t.name), t.holder.value.slot) && !StaleKey(t.holder.value)
        invariant !t.taken && !t.failed && t.holder.None? ==> Free(old(routes), purged, Named(want, t.name))
        decreases t.taken, !t.failed, first, |names| - t.used
      {
        rounds := rounds + 1;
        if t.failed {
          t := t.(taken := false, holder := None);
          assert Searching(old(routes), stales, want, p, names, first, t, rounds);
          break;
        }
        assert StaleKeys() == stales - purged;
        ghost var t0 := t;
        var out, stale;
        t, out, stale := CheckHost(want, p, names, t, first);
        Searched(old(routes), stales, purged, stale, want, p, names, t0, first, t, out, rounds - 1);
        if out {
          return if t.failed then Unavailable else Ended, purged, rounds;
        }
        TwoPurges(old(routes), purged, stale, Named(want, t.name));
        purged, first := purged + stale, false;
      }
      r := if t.failed then Unavailable else Available(Named(want, t.name), t.holder);
    }

    /** One attempt of GetOpenAlias. */
    method CheckAlias(want: Slot, p: Policy, names: seq<string>, t0: Try, first: bool)
      returns (t: Try, out: bool, stale: set<Key>)
      requires Valid() && want.AliasSlot? && t0.used <= |names| && !t0.failed
      modifies this`routes
      ensures Valid() && routes == old(routes) - stale
      ensures stale <= old(StaleKeys()) && forall k <- stale :: k.slot.AliasSlot?
      ensures Checked(old(routes), old(StaleKeys()), stale, want, p, names, t0, first, t, out)
    {
      hide Dead, Conflicts, Free, Taken;
      ghost var stales := StaleKeys();
      var name, used, failed := t0.name, t0.used, false;
      stale := {};
      if p.random || (!first && !p.force) || name in p.banned {
        failed := first && p.insist;
        if used == |names| {
          return Try(name, used, failed, false, None), true, stale;
        }
        name, used := names[used], used + 1;
      }
      var found;
      found, stale := Look(AliasSlot(name));
      FoundIsTaken(old(routes), stales, stale, Named(want, name), p, found);
      var taken := found.Some? && !p.balance;
      t := Try(name, used, failed || (first && taken && p.insist), taken, if found.Some? && p.balance then found else None);
      out := false;
    }

    /**
     * The retry loop of GetOpenAlias, with the same outcome.
     */
    method GetOpenAlias(want: Slot, p: Policy, names: seq<string>)
      returns (r: Search, purged: set<Key>, ghost rounds: nat)
      requires Valid() && want.AliasSlot? && (p.force ==> p.insist && !p.random && !p.balance)
      modifies this`routes
      ensures Valid() && routes == old(routes) - purged
      ensures forall k <- purged :: Fits(Alias, k) && k in old(routes) && old(StaleKey(k))
      ensures r.Unavailable? ==> p.insist
      ensures r.Available? ==> r.slot == Named(want, NameOf(r.slot)) && r.slot.AliasSlot?
      ensures r.Available? && r.holder.Some? ==>
        p.balance && r.holder.value in routes && Conflicts(r.slot, r.holder.value.slot) && !StaleKey(r.holder.value)
      ensures r.Available? && r.holder.None? ==> Free(old(routes), purged, r.slot)
      ensures p.insist ==> rounds <= 2 && !r.Ended? && (r.Available? <==> Grants(old(routes), old(StaleKeys()), want, p))
      ensures Grants(old(routes), old(StaleKeys()), want, p) ==> r.Available? && r.slot == want && rounds == 1
      ensures !p.insist && !Grants(old(routes), old(StaleKeys()), want, p) ==>
        if r.Ended? then PassesOver(old(routes), old(StaleKeys()), want, p, names, |names|)
        else r.Available? && exists n: nat :: n < |names| && r.slot == Named(want, names[n])
                               && PassesOver(old(routes), old(StaleKeys()), want, p, names, n)
    {
      hide Dead, Conflicts, Free, Taken, BadName, PassesOver, Grants;
      ghost var stales := StaleKeys();
      var first, t := true, Try(NameOf(want), 0, false, true, None);
      purged, rounds := {}, 0;
      while t.taken
        invariant routes == old(routes) - purged && Valid()
        invariant purged <= stales && forall k <- purged :: k.slot.AliasSlot?
        invariant Searching(old(routes), stales, want, p, names, first, t, rounds)
        invariant !t.taken && t.holder.Some? ==>
          p.balance && t.holder.value in routes && Conflicts(Named(want, t.name), t.holder.value.slot) && !StaleKey(t.holder.value)
        invariant !t.taken && !t.failed && t.holder.None? ==> Free(old(routes), purged, Named(want, t.name))
        decreases t.taken, !t.failed, first, |names| - t.used
      {
        rounds := rounds + 1;
        if t.failed {
          t := t.(taken := false, holder := None);
          assert Searching(old(routes), stales, want, p, names, first, t, rounds);
          break;
        }
        assert StaleKeys() == stales - purged;
        ghost var t0 := t;
        var out, stale;
        t, out, stale := CheckAlias(want, p, names, t, first);
        Searched(old(routes), stales, purged, stale, want, p, names, t0, first, t, out, rounds - 1);
        if out {
          return if t.failed then Unavailable else Ended, purged, rounds;
        }
        TwoPurges(old(routes), purged, stale, Named(want, t.name));
        purged, first := purged + stale, false;
      }
      r := if t.failed then Unavailable else Available(Named(want, t.name), t.holder);
    }

    /** Creating a holder for the slot found, or joining the one there. */
    method Register(f: Fwd, found: Search, purged: set<Key>, scheme: string, h: HolderId, ghost before: Tables)
      returns (o: Opening)
      requires routes == before.routes - purged && holders == before.holders
      requires Valid() && found.Available? && h !in holders
      requires found.slot.AliasSlot? ==> scheme == ""
      requires found.holder.Some? ==> found.holder.value in routes && found.holder.value !in purged
      modifies this`routes, this`holders
      ensures o == match found.holder
                   case None => Created(purged, Key(scheme, found.slot), h)
                   case Some(key) => Reused(purged, found.slot, key)
      ensures Valid() && Now() == AfterOpening(before, o, f)
    {
      var key: Key;
      if found.holder.None? {
        key := Key(scheme, found.slot);
        routes, holders := routes[key := h], holders[h := Holder(key, {}, {})];
        o := Created(purged, key, h);
        Fill(before.holders, h, key, f);
      } else {
        key := found.holder.value;
        o := Reused(purged, found.slot, key);
      }
      var holder := holders[routes[key]];
      holders := holders[routes[key] := holder.(conns := holder.conns + {f})];
      holder := holders[routes[key]];
      holders := holders[routes[key] := holder.(servers := holder.servers + {f})];
      assert holders == AfterOpening(before, o, f).holders;
    }

    /**
     * Under the bind lock, f asks for an HTTP address in the words of request, which
     * the handler folds to lower case.
     */
    method HandleHttp(
      f: Fwd, request: string, o: HostOptions, verbatim: bool, p: Policy, names: seq<string>, scheme: string, h: HolderId)
      returns (r: Outcome)
      requires Valid() && h !in holders && (p.force ==> p.insist && !p.random && !p.balance)
      modifies this`routes, this`holders
      ensures Valid() && (r.Decided? ==> Now() == AfterOpening(old(Now()), r.o, f))
      ensures r.Decided? ==> MayOpen(old(View()), Http, p.force, r.o)
      ensures old(OnePerSlot(routes)) ==> OnePerSlot(routes)
      ensures p.insist ==> r.Decided?
      ensures p.insist && Plain(o) ==> var addr := Lower(request); var want := Wanted(addr, o, verbatim);
        (!r.o.Refused? <==> Bare(addr, o, verbatim) && Grants(old(routes), old(StaleKeys()), want, p))
      ensures Plain(o) ==> var addr := Lower(request); var want := Wanted(addr, o, verbatim);
        (Grants(old(routes), old(StaleKeys()), want, p) && (p.insist ==> Bare(addr, o, verbatim)) ==>
          r.Decided? && Given(old(routes), old(StaleKeys()), r.o, want, scheme, h))
      ensures var want := Wanted(Lower(request), o, verbatim);
        (!p.insist && !Grants(old(routes), old(StaleKeys()), want, p) ==>
          GivenName(old(routes), old(StaleKeys()), r, want, p, names, scheme, h))
    {
      var addr := Lower(request);
      LowerTwice(request);
      if Plain(o) {
        RequestIsFrontOfHost(addr, o, verbatim);
      }
      hide Lower, ProposedHost, Cut, Bare, Plain, Grants, Given, GivenName;
      r := HandleSlot(f, addr, Wanted(addr, o, verbatim), p, names, scheme, h);
    }

    /** The request as its parts want; addr is what the host found is compared with. */
    method HandleSlot(f: Fwd, addr: string, want: Slot, p: Policy, names: seq<string>, scheme: string, h: HolderId)
      returns (r: Outcome)
      requires Valid() && want.HttpSlot? && h !in holders && (p.force ==> p.insist && !p.random && !p.balance)
      modifies this`routes, this`holders
      ensures Valid() && (r.Decided? ==> Now() == AfterOpening(old(Now()), r.o, f))
      ensures r.Decided? ==> MayOpen(old(View()), Http, p.force, r.o)
      ensures old(OnePerSlot(routes)) ==> OnePerSlot(routes)
      ensures p.insist ==> r.Decided? && (!r.o.Refused? <==> addr <= want.host && Grants(old(routes), old(StaleKeys()), want, p))
      ensures Grants(old(routes), old(StaleKeys()), want, p) && (p.insist ==> addr <= want.host) ==>
        r.Decided? && Given(old(routes), old(StaleKeys()), r.o, want, scheme, h)
      ensures !p.insist && !Grants(old(routes), old(StaleKeys()), want, p) ==>
        GivenName(old(routes), old(StaleKeys()), r, want, p, names, scheme, h)
    {
      ghost var before, stales := Now(), StaleKeys();
      var found, purged, _ := GetOpenHost(want, p, names);
      hide Grants, PassesOver, Given;
      if found.Ended? {
        return Undecided;
      }
      assert MayPurge(old(View()), Http, purged);
      hide MayPurge, MayOpen, OnePerSlot, Free, Conflicts, StaleKey;
      MayRefuse(old(View()), Http, p.force, purged);
      StaysOnePerSlot(old(routes), purged, found, scheme, h);
      if (found.Unavailable? || !(addr <= found.slot.host)) && p.insist {
        return Decided(Refused(purged));
      }
      if found.holder.Some? {
        SameKind(found.slot, found.holder.value, Http);
      }
      MayRegister(old(View()), Http, p.force, found, purged, scheme, h);
      var o := Register(f, found, purged, scheme, h, before);
      r := Decided(o);
      FoundIsGiven(old(routes), stales, found, purged, scheme, h);
    }

    /** The same for an alias, whose host and port the request has apart. */
    method HandleAlias(f: Fwd, request: string, port: string, p: Policy, names: seq<string>, h: HolderId) returns (r: Outcome)
      requires Valid() && h !in holders && (p.force ==> p.insist && !p.random && !p.balance)
      modifies this`routes, this`holders
      ensures Valid() && (r.Decided? ==> Now() == AfterOpening(old(Now()), r.o, f))
      ensures r.Decided? ==> MayOpen(old(View()), Alias, p.force, r.o)
      ensures old(OnePerSlot(routes)) ==> OnePerSlot(routes)
      ensures var want := AliasSlot(Lower(request) + ":" + port);
        && (p.insist ==> r.Decided? && (!r.o.Refused? <==> Grants(old(routes), old(StaleKeys()), want, p)))
        && (Grants(old(routes), old(StaleKeys()), want, p) ==>
              r.Decided? && Given(old(routes), old(StaleKeys()), r.o, want, "", h))
        && (!p.insist && !Grants(old(routes), old(StaleKeys()), want, p) ==>
              || (r.Decided? && r.o.Refused? && "" in names)
              || GivenName(old(routes), old(StaleKeys()), r, want, p, names, "", h))
    {
      var addr := Lower(request);
      LowerTwice(request);
      var want := AliasSlot(Lower(addr) + ":" + port);
      hide Lower;
      ghost var before, stales := Now(), StaleKeys();
      var found, purged, _ := GetOpenAlias(want, p, names);
      hide Grants, PassesOver, Given;
      if found.Ended? {
        return Undecided;
      }
      assert MayPurge(old(View()), Alias, purged);
      hide MayPurge, MayOpen, OnePerSlot, Free, Conflicts, StaleKey;
      MayRefuse(old(View()), Alias, p.force, purged);
      StaysOnePerSlot(old(routes), purged, found, "", h);
      if found.Unavailable? || found.slot.alias == "" || (!(addr <= found.slot.alias) && p.insist) {
        return Decided(Refused(purged));
      }
      if found.holder.Some? {
        SameKind(found.slot, found.holder.value, Alias);
      }
      MayRegister(old(View()), Alias, p.force, found, purged, "", h);
      var o := Register(f, found, purged, "", h, before);
      r := Decided(o);
      FoundIsGiven(old(routes), stales, found, purged, "", h);
    }
  }

  /** What a walk finds is what stood there before anything was purged. */
  lemma FoundIsTaken<T>(routes: map<Key, T>, stale: set<Key>, purged: set<Key>, want: Slot, p: Policy, found: Option<Key>)
    requires purged <= stale
    requires if found.Some? then found.value in routes && found.value !in stale && Conflicts(want, found.value.slot)
             else Free(routes, purged, want)
    ensures found.Some? && !p.balance <==> Taken(routes, stale, want, p)
  {}

  lemma FoundIsGiven(
    routes: map<Key, HolderId>, stales: set<Key>, found: Search, purged: set<Key>, scheme: string, h: HolderId)
    requires found.Available? && purged <= stales
    requires found.holder.None? ==> Free(routes, purged, found.slot)
    requires found.holder.Some? ==>
      found.holder.value in routes && found.holder.value !in stales && Conflicts(found.slot, found.holder.value.slot)
    ensures Given(routes, stales,
      if found.holder.None? then Created(purged, Key(scheme, found.slot), h) else Reused(purged, found.slot, found.holder.value),
      found.slot, scheme, h)
  {}

  lemma TwoPurges<T>(routes: map<Key, T>, first: set<Key>, more: set<Key>, want: Slot)
    ensures Free(routes - first, more, want) ==> Free(routes, first + more, want)
  {}

  lemma PurgedNeverStood<T>(routes: map<Key, T>, stale: set<Key>, purged: set<Key>, want: Slot, p: Policy)
    requires purged <= stale
    ensures Taken(routes - purged, stale - purged, want, p) <==> Taken(routes, stale, want, p)
  {}

  /** One more attempt. */
  lemma Searched<T>(
    routes: map<Key, T>, stales: set<Key>, purged: set<Key>, stale: set<Key>, want: Slot, p: Policy, names: seq<string>, t0: Try,
    first: bool, t: Try, out: bool, rounds: nat)
    requires Searching(routes, stales, want, p, names, first, t0, rounds) && t0.taken && !t0.failed && purged <= stales
    requires Checked(routes - purged, stales - purged, stale, want, p, names, t0, first, t, out)
    requires p.force ==> p.insist && !p.random && !p.balance
    ensures out ==> !Grants(routes, stales, want, p) && t.failed == p.insist
    ensures out && !p.insist ==> PassesOver(routes, stales, want, p, names, |names|)
    ensures !out ==> Searching(routes, stales, want, p, names, false, t, rounds + 1)
  {
    PurgedNeverStood(routes, stales, purged, Named(want, t.name), p);
    hide BadName, Taken, Free, Conflicts;
  }

  // ----- the same in the step machine -----

  lemma MayRefuse(s: Sys, kind: Kind, force: bool, purged: set<Key>)
    requires MayPurge(s, kind, purged)
    ensures MayOpen(s, kind, force, Refused(purged))
  {}

  lemma MayRegister(s: Sys, kind: Kind, force: bool, found: Search, purged: set<Key>, scheme: string, h: HolderId)
    requires found.Available? && MayPurge(s, kind, purged) && Fits(kind, Key(scheme, found.slot))
    requires found.holder.None? ==> Free(s.routes, purged, found.slot)
    requires found.holder.Some? ==>
      && !force && found.holder.value in s.routes && found.holder.value !in purged
      && Fits(kind, found.holder.value) && Conflicts(found.slot, found.holder.value.slot)
    ensures MayOpen(s, kind, force,
      if found.holder.None? then Created(purged, Key(scheme, found.slot), h) else Reused(purged, found.slot, found.holder.value))
  {}

  /** Purging keeps the slots distinct, and so does storing one found free. */
  lemma StaysOnePerSlot(routes: map<Key, HolderId>, purged: set<Key>, found: Search, scheme: string, h: HolderId)
    ensures OnePerSlot(routes) ==> OnePerSlot(routes - purged)
    ensures OnePerSlot(routes) && found.Available? && Free(routes, purged, found.slot) ==>
      OnePerSlot((routes - purged)[Key(scheme, found.slot) := h])
  {
    if OnePerSlot(routes) && found.Available? && Free(routes, purged, found.slot) {
      StoreFree(routes, purged, Key(scheme, found.slot), h);
    }
  }

  lemma SameKind(want: Slot, held: Key, kind: Kind)
    requires Conflicts(want, held.slot) && (held.slot.AliasSlot? ==> held.scheme == "")
    requires kind == (if want.HttpSlot? then Http else Alias)
    ensures Fits(kind, held)
  {}

  /** A handler about to open an address of this kind may get this answer. */
  predicate MayOpen(s: Sys, kind: Kind, force: bool, o: Opening) {
    !o.TcpOpened? && OpenMove(s, Thread(Handler(Req(0, Target(kind, "", 0), force), Open(0)), None, None), o).Some?
  }

  /** Of a state, what a registration can change. */
  function TablesOf(s: Sys): Tables {
    Tables(s.routes, s.holders)
  }

  /** f's handler is at pc with no call under way, and the tables are tb. */
  predicate At(s: Sys, t: Tid, r: Req, pc: HandlerPc, f: Fwd, tb: Tables) {
    && t in s.threads && s.threads[t] == Thread(Handler(r, pc), None, None)
    && f in s.fwds && TablesOf(s) == tb
  }

  /** The steps that complete what the method does at once. */
  function OpeningRun(t: Tid, o: Opening): seq<Action> {
    if o.Refused? then [Go(t, Opens(o))] else [Go(t, Opens(o)), Go(t, Usual), Go(t, Usual)]
  }

  lemma StepRefused(s: Sys, t: Tid, r: Req, f: Fwd, o: Opening) returns (s1: Sys)
    requires At(s, t, r, Open(f), f, TablesOf(s)) && o.Refused? && MayOpen(s, r.target.kind, r.force, o)
    ensures Step(s, Go(t, Opens(o))) == Some(s1)
    ensures At(s1, t, r, ReleaseBind(f, false), f, AfterOpening(TablesOf(s), o, f))
  {
    hide CleanMove, CloseMove;
    s1 := Step(s, Go(t, Opens(o))).value;
  }

  lemma StepReused(s: Sys, t: Tid, r: Req, f: Fwd, o: Opening) returns (s1: Sys)
    requires At(s, t, r, Open(f), f, TablesOf(s)) && o.Reused? && MayOpen(s, r.target.kind, r.force, o)
    ensures Step(s, Go(t, Opens(o))) == Some(s1)
    ensures At(s1, t, r, AddConn(f, s.routes[o.key]), f, Tables(s.routes - o.purged, s.holders))
  {
    hide CleanMove, CloseMove;
    s1 := Step(s, Go(t, Opens(o))).value;
  }

  lemma StepCreated(s: Sys, t: Tid, r: Req, f: Fwd, o: Opening) returns (s1: Sys)
    requires At(s, t, r, Open(f), f, TablesOf(s)) && o.Created? && o.h !in s.holders && MayOpen(s, r.target.kind, r.force, o)
    ensures Step(s, Go(t, Opens(o))) == Some(s1)
    ensures At(s1, t, r, AddConn(f, o.h), f, Tables((s.routes - o.purged)[o.key := o.h], s.holders[o.h := Holder(o.key, {}, {})]))
  {
    hide CleanMove, CloseMove;
    s1 := Step(s, Go(t, Opens(o))).value;
  }

  function AddBoth(tb: Tables, h: HolderId, f: Fwd): Tables
    requires h in tb.holders
  {
    var holder := tb.holders[h];
    tb.(holders := tb.holders[h := holder.(conns := holder.conns + {f}, servers := holder.servers + {f})])
  }

  lemma StepConn(s: Sys, t: Tid, r: Req, f: Fwd, h: HolderId, tb: Tables) returns (s1: Sys)
    requires At(s, t, r, AddConn(f, h), f, tb) && h in tb.holders
    ensures Step(s, Go(t, Usual)) == Some(s1)
    ensures At(s1, t, r, AddServer(f, h), f,
      tb.(holders := tb.holders[h := tb.holders[h].(conns := tb.holders[h].conns + {f})]))
  {
    hide CleanMove, CloseMove, OpenMove;
    s1 := Step(s, Go(t, Usual)).value;
  }

  lemma StepServer(s: Sys, t: Tid, r: Req, f: Fwd, h: HolderId, tb: Tables) returns (s1: Sys)
    requires At(s, t, r, AddServer(f, h), f, tb) && h in tb.holders
    ensures Step(s, Go(t, Usual)) == Some(s1)
    ensures At(s1, t, r, ReleaseBind(f, true), f,
      tb.(holders := tb.holders[h := tb.holders[h].(servers := tb.holders[h].servers + {f})]))
  {
    hide CleanMove, CloseMove, OpenMove;
    s1 := Step(s, Go(t, Usual)).value;
  }

  /** One write to the connections and one to the balancer are both. */
  lemma TwoWrites(holders: map<HolderId, Holder>, h: HolderId, f: Fwd)
    requires h in holders
    ensures var m1 := holders[h := holders[h].(conns := holders[h].conns + {f})];
      m1[h := m1[h].(servers := m1[h].servers + {f})]
      == holders[h := holders[h].(conns := holders[h].conns + {f}, servers := holders[h].servers + {f})]
  {}

  lemma StepsJoin(s: Sys, t: Tid, r: Req, f: Fwd, h: HolderId, tb: Tables) returns (s2: Sys)
    requires At(s, t, r, AddConn(f, h), f, tb) && h in tb.holders
    ensures Exec(s, [Go(t, Usual), Go(t, Usual)]) == Some(s2)
    ensures At(s2, t, r, ReleaseBind(f, true), f, AddBoth(tb, h, f))
  {
    hide Step, At;
    var s1 := StepConn(s, t, r, f, h, tb);
    var tb1 := tb.(holders := tb.holders[h := tb.holders[h].(conns := tb.holders[h].conns + {f})]);
    s2 := StepServer(s1, t, r, f, h, tb1);
    TwoWrites(tb.holders, h, f);
    var u := Go(t, Usual);
    ExecFirst(s1, u, []);
    ExecFirst(s, u, [u]);
    assert [u] + [u] == [u, u] && [u] + [] == [u];
    assert Exec(s2, []) == Some(s2);
  }

  lemma AfterReused(tb: Tables, o: Opening, f: Fwd)
    requires o.Reused? && o.key in tb.routes && tb.routes[o.key] in tb.holders
    ensures AfterOpening(tb, o, f) == AddBoth(Tables(tb.routes - o.purged, tb.holders), tb.routes[o.key], f)
  {}

  lemma AfterCreated(tb: Tables, o: Opening, f: Fwd)
    requires o.Created?
    ensures AfterOpening(tb, o, f)
      == AddBoth(Tables((tb.routes - o.purged)[o.key := o.h], tb.holders[o.h := Holder(o.key, {}, {})]), o.h, f)
  {
    Fill(tb.holders, o.h, o.key, f);
    TwoWrites(tb.holders[o.h := Holder(o.key, {}, {})], o.h, f);
  }

  /** The answer takes the handler to where it joins the holder, or gives up. */
  lemma StepOpen(s: Sys, t: Tid, r: Req, f: Fwd, o: Opening) returns (s1: Sys)
    requires At(s, t, r, Open(f), f, TablesOf(s)) && MayOpen(s, r.target.kind, r.force, o)
    requires Keyed(TablesOf(s)) && (o.Created? ==> o.h !in s.holders)
    ensures Step(s, Go(t, Opens(o))) == Some(s1)
    ensures o.Refused? ==> At(s1, t, r, ReleaseBind(f, false), f, AfterOpening(TablesOf(s), o, f))
    ensures !o.Refused? ==>
      exists h, tb {:trigger AddBoth(tb, h, f)} ::
        At(s1, t, r, AddConn(f, h), f, tb) && h in tb.holders && AddBoth(tb, h, f) == AfterOpening(TablesOf(s), o, f)
  {
    hide Step, At, AfterOpening, AddBoth;
    match o
    case Refused(_) => s1 := StepRefused(s, t, r, f, o);
    case Reused(purged, _, key) =>
      s1 := StepReused(s, t, r, f, o);
      ReusedIsThere(s, r, o);
      AfterReused(TablesOf(s), o, f);
      assert AddBoth(Tables(s.routes - purged, s.holders), s.routes[key], f) == AfterOpening(TablesOf(s), o, f);
    case Created(purged, key, h) =>
      s1 := StepCreated(s, t, r, f, o);
      AfterCreated(TablesOf(s), o, f);
      assert AddBoth(Tables((s.routes - purged)[key := h], s.holders[h := Holder(key, {}, {})]), h, f)
        == AfterOpening(TablesOf(s), o, f);
  }

  lemma ReusedIsThere(s: Sys, r: Req, o: Opening)
    requires o.Reused? && MayOpen(s, r.target.kind, r.force, o) && Keyed(TablesOf(s))
    ensures o.key in s.routes && s.routes[o.key] in s.holders
  {}

  /**
   * Whatever the methods answer, the machine can answer: from any state with these
   * tables, a handler of that kind has a run of its own that ends with the same ones.
   */
  lemma OpeningIsARun(s: Sys, t: Tid, r: Req, f: Fwd, o: Opening)
    requires At(s, t, r, Open(f), f, TablesOf(s)) && MayOpen(s, r.target.kind, r.force, o)
    requires Keyed(TablesOf(s)) && (o.Created? ==> o.h !in s.holders)
    ensures Exec(s, OpeningRun(t, o)).Some?
    ensures At(Exec(s, OpeningRun(t, o)).value, t, r, ReleaseBind(f, !o.Refused?), f, AfterOpening(TablesOf(s), o, f))
  {
    hide Step, At, MayOpen, AfterOpening, AddBoth;
    var s1 := StepOpen(s, t, r, f, o);
    var first, u := Go(t, Opens(o)), Go(t, Usual);
    if o.Refused? {
      ExecFirst(s, first, []);
      assert [first] + [] == [first];
      assert Exec(s1, []) == Some(s1);
    } else {
      var h, tb :| At(s1, t, r, AddConn(f, h), f, tb) && h in tb.holders && AddBoth(tb, h, f) == AfterOpening(TablesOf(s), o, f);
      var s3 := StepsJoin(s1, t, r, f, h, tb);
      ExecFirst(s, first, [u, u]);
      assert [first] + [u, u] == OpeningRun(t, o);
    }
  }

  /** A holder that a forced request creates has f as its one backend, and is all that stands at its address. */
  lemma SoleBackend(t: Tables, o: Opening, f: Fwd)
    requires o.Created? && Free(t.routes, o.purged, o.key.slot)
    ensures var t1 := AfterOpening(t, o, f);
      && Serves(t1, o.key, f)
      && t1.holders[t1.routes[o.key]] == Holder(o.key, {f}, {f})
      && forall k <- t1.routes :: Conflicts(o.key.slot, k.slot) ==> k == o.key
  {}
}
