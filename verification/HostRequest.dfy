// What an HTTP forward request asks for, from GetOpenHost in utils/utils.go. The
// DNS and configuration tests that allow a request to name a whole host are one
// parameter.

module HostRequest {
  import opened Options
  import opened Slots

  function LowerChar(c: char): char {
    if 'A' <= c <= 'Z' then c - 'A' + 'a' else c
  }

  function Lower(s: string): (r: string)
    ensures |r| == |s| && forall i :: 0 <= i < |s| ==> r[i] == LowerChar(s[i])
  {
    if s == "" then "" else [LowerChar(s[0])] + Lower(s[1..])
  }

  /** Capitals go to the letters 32 further on, and nothing else changes. */
  lemma LowerIs(s: string, i: nat)
    requires i < |s|
    ensures var c := Lower(s)[i];
      !('A' <= c <= 'Z') && (c == s[i] || ('A' <= s[i] <= 'Z' && c as int == s[i] as int + 32))
  {}

  /** What comes before the first c, and what comes after it if there is one. */
  function Cut(s: string, c: char): (r: (string, Option<string>))
    ensures c !in r.0
    ensures s == match r.1 case None => r.0 case Some(tail) => r.0 + [c] + tail
  {
    if s == "" then ("", None)
    else if s[0] == c then ("", Some(s[1..]))
    else
      var (head, tail) := Cut(s[1..], c);
      ([s[0]] + head, tail)
  }

  datatype HostOptions = HostOptions(domain: string, extension: string, auth: bool, path: bool, root: bool)

  /** The request without what precedes its first '@'. */
  function HostAndPath(addr: string): string {
    match Cut(addr, '@').1
    case None => addr
    case Some(rest) => rest
  }

  function HostPart(addr: string): string {
    Cut(HostAndPath(addr), '/').0
  }

  function ProposedHost(addr: string, o: HostOptions, verbatim: bool): string {
    var host := if verbatim then HostPart(addr) else HostPart(addr) + o.extension + "." + o.domain;
    Lower(if (verbatim || o.root) && host == "." + o.domain then o.domain else host)
  }

  function Wanted(addr: string, o: HostOptions, verbatim: bool): Slot {
    var auth := if o.auth && Cut(addr, '@').1.Some? then Cut(addr, '@').0 else "";
    var (user, rest) := Cut(auth, ':');
    var password := if rest.Some? then Cut(rest.value, ':').0 else "";
    var tail := Cut(HostAndPath(addr), '/').1;
    var path := if o.path && tail.Some? && tail.value != "" then "/" + tail.value else "";
    HttpSlot(ProposedHost(addr, o, verbatim), path, user, password)
  }

  // ----- what an insisting request must look like -----

  function CountChar(s: string, c: char): (n: nat)
    ensures n == 0 <==> c !in s
  {
    if s == "" then 0 else CountChar(s[1..], c) + if s[0] == c then 1 else 0
  }

  lemma {:induction false} CountAppend(s: string, t: string, c: char)
    ensures CountChar(s + t, c) == CountChar(s, c) + CountChar(t, c)
  {
    if s == "" {
      assert s + t == t;
    } else {
      assert (s + t)[1..] == s[1..] + t;
      CountAppend(s[1..], t, c);
    }
  }

  lemma {:induction false} CountLower(s: string, c: char)
    requires LowerChar(c) == c && !('a' <= c <= 'z')
    ensures CountChar(Lower(s), c) == CountChar(s, c)
  {
    if s != "" {
      assert Lower(s)[1..] == Lower(s[1..]);
      CountLower(s[1..], c);
    }
  }

  lemma CountPrefix(s: string, t: string, c: char)
    requires s <= t
    ensures CountChar(s, c) <= CountChar(t, c)
  {
    assert t == s + t[|s|..];
    CountAppend(s, t[|s|..], c);
  }

  lemma CountHost(addr: string, o: HostOptions, verbatim: bool, c: char)
    requires c == '@' || c == '/'
    requires c !in o.domain && c !in o.extension
    ensures CountChar(ProposedHost(addr, o, verbatim), c) <= CountChar(HostPart(addr), c)
  {
    var p := HostPart(addr);
    CountAppend(p + o.extension + ".", o.domain, c);
    CountAppend(p + o.extension, ".", c);
    CountAppend(p, o.extension, c);
    CountLower(p, c);
    CountLower(p + o.extension + "." + o.domain, c);
    CountLower(o.domain, c);
  }

  /** No '@' or '/' in what the server adds to a request. */
  predicate Plain(o: HostOptions) {
    '@' !in o.domain && '/' !in o.domain && '@' !in o.extension && '/' !in o.extension
  }

  /** Neither credentials nor a path, and not the root domain asked for by the name that is cut to it. */
  predicate Bare(addr: string, o: HostOptions, verbatim: bool) {
    '@' !in addr && '/' !in addr && !(verbatim && addr == "." + o.domain)
  }

  lemma FrontHasNoAt(addr: string, o: HostOptions, verbatim: bool)
    requires Plain(o) && addr <= ProposedHost(addr, o, verbatim)
    ensures '@' !in addr
  {
    hide ProposedHost;
    CountHost(addr, o, verbatim, '@');
    CountPrefix(addr, ProposedHost(addr, o, verbatim), '@');
    CountPrefix(HostPart(addr), HostAndPath(addr), '@');
    var (head, rest) := Cut(addr, '@');
    if rest.Some? {
      CountAppend(head + ['@'], rest.value, '@');
      CountAppend(head, ['@'], '@');
    }
  }

  lemma FrontHasNoSlash(addr: string, o: HostOptions, verbatim: bool)
    requires Plain(o) && addr <= ProposedHost(addr, o, verbatim)
    ensures '/' !in addr
  {
    hide ProposedHost;
    CountHost(addr, o, verbatim, '/');
    CountPrefix(addr, ProposedHost(addr, o, verbatim), '/');
  }

  lemma {:induction false} NoCut(s: string, c: char)
    requires c !in s
    ensures Cut(s, c) == (s, None)
  {
    if s != "" {
      NoCut(s[1..], c);
    }
  }

  lemma LowerFront(s: string, t: string)
    ensures Lower(s) <= Lower(s + t)
  {
    assert forall i :: 0 <= i < |s| ==> Lower(s)[i] == Lower(s + t)[i];
  }

  lemma LowerTwice(s: string)
    ensures Lower(Lower(s)) == Lower(s)
  {
    var t := Lower(s);
    assert forall i :: 0 <= i < |t| ==> Lower(t)[i] == t[i];
  }

  lemma BareIsFront(addr: string, o: HostOptions, verbatim: bool)
    requires Bare(addr, o, verbatim) && addr == Lower(addr)
    ensures addr <= ProposedHost(addr, o, verbatim)
  {
    hide Lower, Cut;
    NoCut(addr, '@');
    NoCut(addr, '/');
    if !verbatim {
      var rest := o.extension + "." + o.domain;
      assert addr + o.extension + "." + o.domain == addr + rest;
      assert addr != "" ==> |addr + rest| > |"." + o.domain|;
      LowerFront(addr, rest);
    }
  }

  /**
   * The caller compares the host it was given with the whole request, and the two
   * agree exactly when the request is bare: one with credentials or a path never does.
   */
  lemma RequestIsFrontOfHost(addr: string, o: HostOptions, verbatim: bool)
    requires Plain(o) && addr == Lower(addr)
    ensures addr <= ProposedHost(addr, o, verbatim) <==> Bare(addr, o, verbatim)
  {
    if addr <= ProposedHost(addr, o, verbatim) {
      FrontHasNoAt(addr, o, verbatim);
      FrontHasNoSlash(addr, o, verbatim);
      RootIsCut(o);
    } else if Bare(addr, o, verbatim) {
      BareIsFront(addr, o, verbatim);
    }
  }

  /** The root domain asked for with its leading dot loses the dot. */
  lemma RootIsCut(o: HostOptions)
    requires Plain(o)
    ensures |ProposedHost("." + o.domain, o, true)| == |o.domain|
  {
    NoCut("." + o.domain, '@');
    NoCut("." + o.domain, '/');
  }

  lemma {:induction false} CutAt(head: string, tail: string, c: char)
    requires c !in head
    ensures Cut(head + [c] + tail, c) == (head, Some(tail))
  {
    var s := head + [c] + tail;
    if head == "" {
      assert s[1..] == tail;
    } else {
      assert s[1..] == head[1..] + [c] + tail;
      CutAt(head[1..], tail, c);
      assert head == [head[0]] + head[1..];
    }
  }

  /** A request written from its parts; no credentials is None, and so is no path. */
  function Request(creds: Option<(string, string)>, name: string, path: Option<string>): string {
    (if creds.Some? then creds.value.0 + ":" + creds.value.1 + "@" else "") + name
    + (if path.Some? then "/" + path.value else "")
  }

  /** The parts are such that the marks between them are the first of their kind. */
  predicate Apart(creds: Option<(string, string)>, name: string, path: Option<string>) {
    && '/' !in name
    && match creds
       case None => '@' !in name && (path.Some? ==> '@' !in path.value)
       case Some(pair) => ':' !in pair.0 && '@' !in pair.0 && ':' !in pair.1 && '@' !in pair.1
  }

  lemma HostAndPathIs(creds: Option<(string, string)>, name: string, path: Option<string>)
    requires Apart(creds, name, path)
    ensures var addr := Request(creds, name, path);
      && HostAndPath(addr) == name + (if path.Some? then "/" + path.value else "")
      && Cut(addr, '@') == if creds.Some? then (creds.value.0 + ":" + creds.value.1, Some(HostAndPath(addr))) else (addr, None)
  {
    hide Cut;
    var addr := Request(creds, name, path);
    var rest := name + if path.Some? then "/" + path.value else "";
    match creds
    case None =>
      assert addr == rest;
      NoCut(addr, '@');
    case Some(pair) =>
      var front := pair.0 + ":" + pair.1;
      assert addr == front + "@" + rest;
      CutAt(front, rest, '@');
  }

  /**
   * Every part of a request is where it should be in what it asks for: credentials and
   * path if the server uses them, and the name with what the server adds to it.
   */
  lemma PartsAreTaken(creds: Option<(string, string)>, name: string, path: Option<string>, o: HostOptions, verbatim: bool)
    requires Apart(creds, name, path)
    ensures var host := if verbatim then name else name + o.extension + "." + o.domain;
      Wanted(Request(creds, name, path), o, verbatim)
      == HttpSlot(
           Lower(if (verbatim || o.root) && host == "." + o.domain then o.domain else host),
           if o.path && path.Some? && path.value != "" then "/" + path.value else "",
           if o.auth && creds.Some? then creds.value.0 else "",
           if o.auth && creds.Some? then creds.value.1 else "")
  {
    hide Cut, Lower, HostAndPath, Request;
    HostAndPathIs(creds, name, path);
    PathIs(name, path);
    CredsAre(creds);
    var addr := Request(creds, name, path);
    assert HostPart(addr) == name && Cut(HostAndPath(addr), '/').1 == path;
  }

  lemma PathIs(name: string, path: Option<string>)
    requires '/' !in name
    ensures Cut(name + (if path.Some? then "/" + path.value else ""), '/') == (name, path)
  {
    hide Cut;
    if path.Some? {
      CutAt(name, path.value, '/');
      assert name + ("/" + path.value) == name + ['/'] + path.value;
    } else {
      NoCut(name, '/');
      assert name + "" == name;
    }
  }

  lemma CredsAre(creds: Option<(string, string)>)
    requires creds.Some? ==> ':' !in creds.value.0 && ':' !in creds.value.1
    ensures Cut("", ':') == ("", None)
    ensures creds.Some? ==>
      Cut(creds.value.0 + ":" + creds.value.1, ':') == (creds.value.0, Some(creds.value.1))
      && Cut(creds.value.1, ':') == (creds.value.1, None)
  {
    hide Cut;
    NoCut("", ':');
    if creds.Some? {
      CutAt(creds.value.0, creds.value.1, ':');
      NoCut(creds.value.1, ':');
    }
  }

  /** What a request with credentials asks for, and that its host does not begin with it. */
  lemma CredentialsAreTaken(user: string, password: string, name: string, o: HostOptions)
    requires ':' !in user && ':' !in password && '@' !in user && '@' !in password && '/' !in name
    requires Plain(o) && o.auth && !o.root
    ensures var addr := user + ":" + password + "@" + name;
      && Wanted(addr, o, false) == HttpSlot(Lower(name + o.extension + "." + o.domain), "", user, password)
      && !(addr <= ProposedHost(addr, o, false))
  {
    hide Cut, Lower;
    var front := user + ":" + password;
    var addr := front + "@" + name;
    CutAt(front, name, '@');
    CutAt(user, password, ':');
    NoCut(password, ':');
    NoCut(name, '/');
    assert addr[|front|] == '@';
    if addr <= ProposedHost(addr, o, false) {
      FrontHasNoAt(addr, o, false);
    }
  }
}
