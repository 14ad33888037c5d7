// The meaning of a whole WebSocket byte stream (RFC 6455 sections 5.2 to 5.5),
// as wsinspect/parser.go reads it: a recursive parse that looks at one complete
// frame at a time and never at how the bytes arrived.

module Frames {
  import opened Options
  import opened Bytes

  const OP_CONTINUATION := 0
  const OP_TEXT := 1
  const OP_BINARY := 2
  const OP_CLOSE := 8
  const OP_PING := 9
  const OP_PONG := 10

  datatype ProtocolError =
    | ReservedBits
    | ControlTooLong
    | ControlCompressed
    | UnknownControl
    | OrphanContinuation
    | NestedMessage
    | UnknownData

  datatype Header = Header(
    fin: bool, rsv1: bool, reserved: bool, opcode: nat,
    key: Option<seq<Byte>>, length: nat, size: nat)
  {
    predicate Control() { opcode >= 8 }
  }

  /** The message under assembly: everything its finished frames carried, unmasked. */
  datatype MsgState = Idle | Open(opcode: nat, compressed: bool, data: seq<Byte>)

  datatype Event =
    | Control(opcode: nat, payload: seq<Byte>)
    | Data(opcode: nat, compressed: bool, payload: seq<Byte>)

  datatype Outcome = Outcome(events: seq<Event>, st: MsgState, rest: seq<Byte>, err: Option<ProtocolError>)

  // ----- one header -----

  function HeaderSize(b1: Byte): (n: nat)
    ensures 2 <= n <= 14
  {
    2 + (if b1 % 128 == 126 then 2 else if b1 % 128 == 127 then 8 else 0) + (if b1 >= 128 then 4 else 0)
  }

  predicate HasHeader(s: seq<Byte>) {
    |s| >= 2 && |s| >= HeaderSize(s[1])
  }

  function LengthSize(b1: Byte): (n: nat)
    ensures n <= 8
  {
    if b1 % 128 == 126 then 2 else if b1 % 128 == 127 then 8 else 0
  }

  function ReadHeader(s: seq<Byte>): (h: Header)
    requires HasHeader(s)
    ensures h.size == HeaderSize(s[1])
    ensures h.key.Some? ==> |h.key.value| == 4
  {
    var ext := LengthSize(s[1]);
    Header(
      s[0] >= 128,
      (s[0] / 64) % 2 == 1,
      (s[0] / 16) % 4 != 0,
      s[0] % 16,
      if s[1] >= 128 then Some(s[2 + ext..6 + ext]) else None,
      if ext == 0 then s[1] % 128 else BigEndian(s[2..2 + ext]),
      HeaderSize(s[1]))
  }

  /** Which rule a header breaks, in the order the parser checks them. */
  function Check(h: Header, open: bool, deflate: bool): Option<ProtocolError> {
    if h.reserved || (h.rsv1 && !deflate) then Some(ReservedBits)
    else if h.Control() then
      if !h.fin || h.length > 125 then Some(ControlTooLong)
      else if h.rsv1 then Some(ControlCompressed)
      else if h.opcode != OP_CLOSE && h.opcode != OP_PING && h.opcode != OP_PONG then Some(UnknownControl)
      else None
    else if h.opcode == OP_CONTINUATION then
      if !open then Some(OrphanContinuation) else None
    else if h.opcode == OP_TEXT || h.opcode == OP_BINARY then
      if open then Some(NestedMessage) else None
    else Some(UnknownData)
  }

  // ----- one frame -----

  /** The message a data frame with this header adds to. */
  function Begin(h: Header, st: MsgState): MsgState {
    if h.opcode == OP_TEXT || h.opcode == OP_BINARY then Open(h.opcode, h.rsv1, []) else st
  }

  function Grow(st: MsgState, data: seq<Byte>): MsgState {
    if st.Idle? then Idle else st.(data := st.data + data)
  }

  function Finish(h: Header, st: MsgState, payload: seq<Byte>): (r: (MsgState, seq<Event>)) {
    if h.Control() then (st, [Control(h.opcode, payload)])
    else
      var grown := Grow(Begin(h, st), payload);
      if h.fin && grown.Open? then (Idle, [Data(grown.opcode, grown.compressed, grown.data)])
      else (grown, [])
  }

  /** A legal header is a control frame, a continuation of an open message, or the start of one. */
  lemma CheckedHeader(h: Header, open: bool, deflate: bool)
    requires Check(h, open, deflate).None?
    ensures h.rsv1 ==> deflate
    ensures h.Control() || (h.opcode == OP_CONTINUATION && open)
            || ((h.opcode == OP_TEXT || h.opcode == OP_BINARY) && !open)
  {}

  /** A legal frame is a whole control message, the end of a message, or more of one. */
  lemma FinishCases(h: Header, st: MsgState, payload: seq<Byte>, deflate: bool)
    requires Check(h, st.Open?, deflate).None?
    ensures if h.Control() then Finish(h, st, payload) == (st, [Control(h.opcode, payload)])
            else
              var grown := Grow(Begin(h, st), payload);
              && grown.Open?
              && Finish(h, st, payload)
                 == if h.fin then (Idle, [Data(grown.opcode, grown.compressed, grown.data)]) else (grown, [])
  {}

  /** What the front of a stream holds: no complete frame yet, an illegal header, or a frame of size bytes. */
  datatype Front = Stuck | Illegal(err: ProtocolError) | Taken(next: MsgState, events: seq<Event>, size: nat)

  function First(s: seq<Byte>, st: MsgState, deflate: bool): (f: Front)
    ensures f.Taken? ==> 2 <= f.size <= |s|
  {
    if !HasHeader(s) then Stuck
    else
      var h := ReadHeader(s);
      var err := Check(h, st.Open?, deflate);
      if err.Some? then Illegal(err.value)
      else if |s| < h.size + h.length then Stuck
      else
        var (next, events) := Finish(h, st, Mask(h.key, 0, s[h.size..h.size + h.length]));
        Taken(next, events, h.size + h.length)
  }

  // ----- the whole stream -----

  /** The outcome b of a later part, after the events of an earlier one. */
  function After(events: seq<Event>, b: Outcome): Outcome {
    Outcome(events + b.events, b.st, b.rest, b.err)
  }

  function Run(s: seq<Byte>, st: MsgState, deflate: bool): Outcome
    decreases |s|
  {
    match First(s, st, deflate)
    case Stuck => Outcome([], st, s, None)
    case Illegal(err) => Outcome([], st, s, Some(err))
    case Taken(next, events, size) =>
      After(events, Run(s[size..], next, deflate))
  }

  /** More bytes never change a header that is already complete. */
  lemma HeaderPrefix(s: seq<Byte>, t: seq<Byte>)
    requires HasHeader(s)
    ensures HasHeader(s + t) && ReadHeader(s + t) == ReadHeader(s)
  {
    var ext := LengthSize(s[1]);
    assert (s + t)[2..2 + ext] == s[2..2 + ext];
    if s[1] >= 128 {
      assert (s + t)[2 + ext..6 + ext] == s[2 + ext..6 + ext];
    }
  }

  lemma FirstAppend(s: seq<Byte>, t: seq<Byte>, st: MsgState, deflate: bool)
    requires !First(s, st, deflate).Stuck?
    ensures First(s + t, st, deflate) == First(s, st, deflate)
  {
    HeaderPrefix(s, t);
    var h := ReadHeader(s);
    if |s| >= h.size + h.length {
      assert (s + t)[h.size..h.size + h.length] == s[h.size..h.size + h.length];
    }
  }

  lemma RunFront(s: seq<Byte>, st: MsgState, deflate: bool)
    ensures var f := First(s, st, deflate);
            Run(s, st, deflate) ==
            if f.Taken? then After(f.events, Run(s[f.size..], f.next, deflate))
            else Outcome([], st, s, if f.Illegal? then Some(f.err) else None)
  {}

  lemma AfterAfter(e1: seq<Event>, e2: seq<Event>, b: Outcome)
    ensures After(e1, After(e2, b)) == After(e1 + e2, b)
  {
    assert e1 + (e2 + b.events) == e1 + e2 + b.events;
  }

  /** The outcome of a followed by more bytes. */
  function Resume(a: Outcome, t: seq<Byte>, deflate: bool): Outcome {
    if a.err.Some? then a.(rest := a.rest + t) else After(a.events, Run(a.rest + t, a.st, deflate))
  }

  /** A stream can be parsed in two goes: the second starts from what the first left over. */
  lemma {:induction false} RunAppend(s: seq<Byte>, t: seq<Byte>, st: MsgState, deflate: bool)
    ensures Run(s + t, st, deflate) == Resume(Run(s, st, deflate), t, deflate)
    decreases |s|
  {
    var f := First(s, st, deflate);
    RunFront(s, st, deflate);
    match f {
      case Stuck =>
        assert After([], Run(s + t, st, deflate)) == Run(s + t, st, deflate);
      case Illegal(_) =>
        FirstAppend(s, t, st, deflate);
        RunFront(s + t, st, deflate);
      case Taken(next, events, size) =>
        TakenAppend(s, t, st, deflate);
    }
  }

  lemma {:induction false} TakenAppend(s: seq<Byte>, t: seq<Byte>, st: MsgState, deflate: bool)
    requires First(s, st, deflate).Taken?
    ensures Run(s + t, st, deflate) == Resume(Run(s, st, deflate), t, deflate)
    decreases |s|, 0
  {
    var f := First(s, st, deflate);
    FirstAppend(s, t, st, deflate);
    var s1 := s[f.size..];
    assert (s + t)[f.size..] == s1 + t;
    RunAppend(s1, t, f.next, deflate);
    var a := Run(s1, f.next, deflate);
    calc {
      Run(s + t, st, deflate);
      { RunFront(s + t, st, deflate); }
      After(f.events, Run(s1 + t, f.next, deflate));
      After(f.events, Resume(a, t, deflate));
      { AfterAfter(f.events, a.events, Run(a.rest + t, a.st, deflate)); }
      Resume(After(f.events, a), t, deflate);
      { RunFront(s, st, deflate); }
      Resume(Run(s, st, deflate), t, deflate);
    }
  }

  /** What is left over holds no complete frame, so parsing it again yields nothing. */
  lemma {:induction false} RestIsStuck(s: seq<Byte>, st: MsgState, deflate: bool)
    ensures var a := Run(s, st, deflate);
            Run(a.rest, a.st, deflate) == a.(events := [])
    decreases |s|
  {
    var f := First(s, st, deflate);
    if f.Taken? {
      RestIsStuck(s[f.size..], f.next, deflate);
    }
  }
}
