// The index from a backend socket to the forwards it serves, against a scan of all
// holders: buildForwardIndex, forwardsForListeners and finalizeActiveForwardList of
// utils/console.go.

module ForwardIndex {
  import opened Options
  import opened Sorting
  import opened Slots
  import HR = HostRequest

  /** A balancer's server, decoded from its URL; None when it is no base64. */
  type Server = Option<string>

  datatype HttpHolder = HttpHolder(user: string, password: string, host: string, path: string, sockets: set<string>)
  datatype TcpHolder = TcpHolder(sni: bool, balancers: map<string, seq<Server>>)

  datatype State = State(http: map<string, HttpHolder>, tcp: map<string, TcpHolder>, aliases: map<string, seq<Server>>)

  function HttpName(h: HttpHolder): string {
    (if h.user != "" || h.password != "" then h.user + ":" + h.password + "@" else "") + h.host + h.path
  }

  function TcpName(address: string, h: TcpHolder, balancer: string): string {
    if h.sni then address + "-" + balancer else address
  }

  /**
   * The name that an HTTP holder is shown under is a request for that very address, from
   * a server that takes the name as it stands and uses credentials and paths.
   */
  lemma HttpNameComesBack(h: HttpHolder, o: HR.HostOptions)
    requires ':' !in h.user && '@' !in h.user && ':' !in h.password && '@' !in h.password && '@' !in h.host && '/' !in h.host
    requires h.user == "" && h.password == "" ==> '@' !in h.path
    requires h.path == "" || (|h.path| > 1 && h.path[0] == '/')
    requires o.auth && o.path && h.host == HR.Lower(h.host) && h.host != "." + o.domain
    ensures HR.Wanted(HttpName(h), o, true) == HttpSlot(h.host, h.path, h.user, h.password)
  {
    var creds := if h.user != "" || h.password != "" then Some((h.user, h.password)) else None;
    var path := if h.path == "" then None else Some(h.path[1..]);
    assert h.path != "" ==> h.path == "/" + h.path[1..];
    assert HttpName(h) == HR.Request(creds, h.host, path);
    hide HR.Lower, HR.Wanted;
    HR.PartsAreTaken(creds, h.host, path, o, true);
  }

  /** A TCP holder is shown under its address, and each name behind an SNI holder after a dash. */
  lemma TcpNameParts(address: string, h: TcpHolder, balancer: string)
    ensures address <= TcpName(address, h, balancer)
    ensures TcpName(address, h, balancer)[|address|..] == if h.sni then "-" + balancer else ""
  {
    assert (address + "-" + balancer)[|address|..] == "-" + balancer;
  }

  // ----- the scan -----

  predicate HttpServes(s: State, key: string, socket: string, name: string) {
    key in s.http && socket in s.http[key].sockets && name == HttpName(s.http[key])
  }

  predicate TcpServes(s: State, address: string, balancer: string, socket: string, name: string) {
    && address in s.tcp && balancer in s.tcp[address].balancers
    && Some(socket) in s.tcp[address].balancers[balancer] && name == TcpName(address, s.tcp[address], balancer)
  }

  predicate AliasServes(s: State, name: string, socket: string) {
    name in s.aliases && Some(socket) in s.aliases[name]
  }

  /** Some holder, of whatever kind, serves the name through the socket. */
  ghost predicate Serves(s: State, socket: string, name: string) {
    && socket != "" && name != ""
    && ((exists key :: HttpServes(s, key, socket, name))
        || (exists address, balancer :: TcpServes(s, address, balancer, socket, name))
        || AliasServes(s, name, socket))
  }

  // ----- the index -----

  type Index = map<string, seq<string>>

  function At(index: Index, socket: string): seq<string> {
    if socket in index then index[socket] else []
  }

  predicate Has(index: Index, socket: string, name: string) {
    name in At(index, socket)
  }

  function Add(index: Index, socket: string, name: string): Index {
    if socket == "" || name == "" then index else index[socket := At(index, socket) + [name]]
  }

  lemma AddHas(index: Index, socket: string, name: string)
    ensures forall s, n ::
      Has(Add(index, socket, name), s, n) <==> Has(index, s, n) || (socket != "" && name != "" && s == socket && n == name)
  {}

  method DecodeServers(index0: Index, servers: seq<Server>, name: string) returns (index: Index)
    ensures forall s, n :: Has(index, s, n) <==> Has(index0, s, n) || (s != "" && name != "" && Some(s) in servers && n == name)
  {
    index := index0;
    for i := 0 to |servers|
      invariant forall s, n ::
        Has(index, s, n) <==> Has(index0, s, n) || (s != "" && name != "" && Some(s) in servers[..i] && n == name)
    {
      assert servers[..i + 1] == servers[..i] + [servers[i]];
      if servers[i].Some? {
        AddHas(index, servers[i].value, name);
        index := Add(index, servers[i].value, name);
      }
    }
    assert servers[..|servers|] == servers;
  }

  method AddSockets(index0: Index, sockets: set<string>, name: string) returns (index: Index)
    ensures forall s, n :: Has(index, s, n) <==> Has(index0, s, n) || (s != "" && name != "" && s in sockets && n == name)
  {
    index := index0;
    var todo := sockets;
    while todo != {}
      invariant todo <= sockets
      invariant forall s, n ::
        Has(index, s, n) <==> Has(index0, s, n) || (s != "" && name != "" && s in sockets - todo && n == name)
    {
      var socket :| socket in todo;
      todo := todo - {socket};
      AddHas(index, socket, name);
      index := Add(index, socket, name);
    }
  }

  method AddHttp(index0: Index, st: State) returns (index: Index)
    ensures forall s, n ::
      Has(index, s, n) <==> Has(index0, s, n) || (s != "" && n != "" && exists key :: HttpServes(st, key, s, n))
  {
    index := index0;
    var todo := st.http.Keys;
    while todo != {}
      invariant todo <= st.http.Keys
      invariant forall s, n ::
        Has(index, s, n) <==>
        Has(index0, s, n) || (s != "" && n != "" && exists key :: key !in todo && HttpServes(st, key, s, n))
    {
      var key :| key in todo;
      ghost var before, rest := index, todo;
      todo := todo - {key};
      index := AddSockets(index, st.http[key].sockets, HttpName(st.http[key]));
      forall s, n
        ensures Has(index, s, n) <==>
          Has(index0, s, n) || (s != "" && n != "" && exists k :: k !in todo && HttpServes(st, k, s, n))
      {
        assert Has(index, s, n) <==> Has(before, s, n) || (s != "" && n != "" && HttpServes(st, key, s, n));
        if k :| k !in todo && HttpServes(st, k, s, n) {
          assert k == key || (k !in rest && HttpServes(st, k, s, n));
        }
      }
    }
  }

  method AddBalancers(index0: Index, st: State, address: string) returns (index: Index)
    requires address in st.tcp
    ensures forall s, n ::
      Has(index, s, n) <==>
      Has(index0, s, n) || (s != "" && n != "" && exists b :: TcpServes(st, address, b, s, n))
  {
    index := index0;
    var h := st.tcp[address];
    var todo := h.balancers.Keys;
    while todo != {}
      invariant todo <= h.balancers.Keys
      invariant forall s, n ::
        Has(index, s, n) <==>
        Has(index0, s, n) || (s != "" && n != "" && exists b :: b !in todo && TcpServes(st, address, b, s, n))
    {
      var ikey :| ikey in todo;
      ghost var before, rest := index, todo;
      todo := todo - {ikey};
      index := DecodeServers(index, h.balancers[ikey], TcpName(address, h, ikey));
      forall s, n
        ensures Has(index, s, n) <==>
          Has(index0, s, n) || (s != "" && n != "" && exists b :: b !in todo && TcpServes(st, address, b, s, n))
      {
        assert Has(index, s, n) <==> Has(before, s, n) || (s != "" && n != "" && TcpServes(st, address, ikey, s, n));
        if b :| b !in todo && TcpServes(st, address, b, s, n) {
          assert b == ikey || (b !in rest && TcpServes(st, address, b, s, n));
        }
      }
    }
  }

  method AddTcp(index0: Index, st: State) returns (index: Index)
    ensures forall s, n ::
      Has(index, s, n) <==> Has(index0, s, n) || (s != "" && n != "" && exists a, b :: TcpServes(st, a, b, s, n))
  {
    index := index0;
    var todo := st.tcp.Keys;
    while todo != {}
      invariant todo <= st.tcp.Keys
      invariant forall s, n ::
        Has(index, s, n) <==>
        Has(index0, s, n) || (s != "" && n != "" && exists a, b :: a !in todo && TcpServes(st, a, b, s, n))
    {
      var address :| address in todo;
      ghost var before, rest := index, todo;
      todo := todo - {address};
      index := AddBalancers(index, st, address);
      forall s, n
        ensures Has(index, s, n) <==>
          Has(index0, s, n) || (s != "" && n != "" && exists a, b :: a !in todo && TcpServes(st, a, b, s, n))
      {
        assert Has(index, s, n) <==> Has(before, s, n) || (s != "" && n != "" && exists b :: TcpServes(st, address, b, s, n));
        if b :| TcpServes(st, address, b, s, n) {
          assert address !in todo && TcpServes(st, address, b, s, n);
        }
        if a, b :| a !in todo && TcpServes(st, a, b, s, n) {
          assert a == address || (a !in rest && TcpServes(st, a, b, s, n));
        }
      }
    }
  }

  method AddAliases(index0: Index, st: State) returns (index: Index)
    ensures forall s, n :: Has(index, s, n) <==> Has(index0, s, n) || (s != "" && n != "" && AliasServes(st, n, s))
  {
    index := index0;
    var todo := st.aliases.Keys;
    while todo != {}
      invariant todo <= st.aliases.Keys
      invariant forall s, n ::
        Has(index, s, n) <==> Has(index0, s, n) || (s != "" && n != "" && n !in todo && AliasServes(st, n, s))
    {
      var tcpAlias :| tcpAlias in todo;
      todo := todo - {tcpAlias};
      index := DecodeServers(index, st.aliases[tcpAlias], tcpAlias);
    }
  }

  /** The index holds a name under a socket exactly when a scan finds it there. */
  method BuildForwardIndex(st: State) returns (index: Index)
    ensures forall s, n :: Has(index, s, n) <==> Serves(st, s, n)
  {
    index := map[];
    index := AddHttp(index, st);
    index := AddTcp(index, st);
    index := AddAliases(index, st);
  }

  // ----- the list that is shown -----

  /** What the loops of finalizeActiveForwardList keep: trimmed, not empty. */
  ghost predicate Shown(trim: string -> string, names: seq<string>, x: string) {
    x != "" && exists i :: 0 <= i < |names| && trim(names[i]) == x
  }

  method FinalizeActiveForwardList(trim: string -> string, forwards: seq<string>, pending: string) returns (r: seq<string>)
    ensures Sorted(r) && NoDuplicates(r)
    ensures forall x :: x in r <==> Shown(trim, forwards + [pending], x)
  {
    var all := forwards + [pending];
    var unique: seq<string> := [];
    for i := 0 to |all|
      invariant NoDuplicates(unique)
      invariant forall x :: x in unique <==> Shown(trim, all[..i], x)
    {
      ShownSnoc(trim, all, i);
      var trimmed := trim(all[i]);
      if trimmed != "" && trimmed !in unique {
        unique := unique + [trimmed];
      }
    }
    assert all[..|all|] == all;
    SortSorted(unique);
    SortKeepsDistinct(unique);
    r := Sort(unique);
    assert forall x :: x in r <==> x in Elements(r);
    assert forall x :: x in unique <==> x in Elements(unique);
  }

  lemma ShownSnoc(trim: string -> string, names: seq<string>, i: nat)
    requires i < |names|
    ensures forall x :: Shown(trim, names[..i + 1], x) <==> Shown(trim, names[..i], x) || (x != "" && x == trim(names[i]))
  {
    var a, b := names[..i], names[..i + 1];
    assert b[i] == names[i];
    forall x
      ensures Shown(trim, b, x) <==> Shown(trim, a, x) || (x != "" && x == trim(names[i]))
    {
      if Shown(trim, a, x) {
        var j :| 0 <= j < |a| && trim(a[j]) == x;
        assert b[j] == a[j];
      }
      if Shown(trim, b, x) {
        var j :| 0 <= j < |b| && trim(b[j]) == x;
        assert j < i ==> a[j] == b[j];
      }
    }
  }

  /** What a scan of all holders finds for a connection with these sockets. */
  ghost predicate Found(trim: string -> string, st: State, listeners: seq<string>, x: string) {
    x != "" && exists socket, name :: socket in listeners && Serves(st, socket, name) && trim(name) == x
  }

  ghost predicate HasSome(index: Index, listeners: seq<string>, name: string) {
    exists s :: s in listeners && Has(index, s, name)
  }

  lemma HasSomeSnoc(index: Index, listeners: seq<string>, last: string)
    ensures forall n :: HasSome(index, listeners + [last], n) <==> HasSome(index, listeners, n) || Has(index, last, n)
  {
    assert last in listeners + [last];
    forall n
      ensures HasSome(index, listeners + [last], n) <==> HasSome(index, listeners, n) || Has(index, last, n)
    {
      if HasSome(index, listeners, n) {
        var s :| s in listeners && Has(index, s, n);
        assert s in listeners + [last];
      }
    }
  }

  /** For every state and connection, the lookup gives what the scan finds, in order and once each. */
  method ForwardsForListeners(trim: string -> string, st: State, index: Index, listeners: seq<string>) returns (r: seq<string>)
    requires (forall s, n :: Has(index, s, n) <==> Serves(st, s, n)) && trim("") == ""
    ensures Sorted(r) && NoDuplicates(r)
    ensures forall x :: x in r <==> Found(trim, st, listeners, x)
  {
    var forwards: seq<string> := [];
    for i := 0 to |listeners|
      invariant forall n :: n in forwards <==> HasSome(index, listeners[..i], n)
    {
      assert listeners[..i + 1] == listeners[..i] + [listeners[i]];
      HasSomeSnoc(index, listeners[..i], listeners[i]);
      forwards := forwards + At(index, listeners[i]);
    }
    assert listeners[..|listeners|] == listeners;
    r := FinalizeActiveForwardList(trim, forwards, "");
    forall x
      ensures Shown(trim, forwards + [""], x) <==> Found(trim, st, listeners, x)
    {
      FoundIsShown(trim, st, index, listeners, forwards, x);
    }
  }

  lemma FoundIsShown(trim: string -> string, st: State, index: Index, listeners: seq<string>, forwards: seq<string>, x: string)
    requires (forall s, n :: Has(index, s, n) <==> Serves(st, s, n)) && trim("") == ""
    requires forall n :: n in forwards <==> HasSome(index, listeners, n)
    ensures Shown(trim, forwards + [""], x) <==> Found(trim, st, listeners, x)
  {
    var all := forwards + [""];
    if Shown(trim, all, x) {
      var i :| 0 <= i < |all| && trim(all[i]) == x;
      assert i < |forwards| && all[i] in forwards;
      var s :| s in listeners && Has(index, s, all[i]);
      assert Serves(st, s, all[i]);
    }
    if Found(trim, st, listeners, x) {
      var s, n :| s in listeners && Serves(st, s, n) && trim(n) == x;
      assert Has(index, s, n) && HasSome(index, listeners, n) && n in forwards;
      var i :| 0 <= i < |forwards| && forwards[i] == n;
      assert all[i] == n;
    }
  }

  /** There is no other list that is sorted, without duplicates, and has what the scan finds. */
  lemma OneListOnly(trim: string -> string, st: State, listeners: seq<string>, xs: seq<string>, ys: seq<string>)
    requires Sorted(xs) && NoDuplicates(xs) && forall x :: x in xs <==> Found(trim, st, listeners, x)
    requires Sorted(ys) && NoDuplicates(ys) && forall x :: x in ys <==> Found(trim, st, listeners, x)
    ensures xs == ys
  {
    SortedUnique(xs, ys);
  }
}
