// The sender's side: frames, and whole messages cut into masked fragments with
// control frames between them. Parsing what a sender wrote gives back exactly
// what it meant, and whatever parses without error was written that way.

module Wire {
  import opened Options
  import opened Bytes
  import opened Frames

  /** Which of the three length encodings a frame uses; the shortest is not required. */
  datatype Form = Short | Medium | Long

  datatype RawFrame = Frame(
    fin: bool, rsv1: bool, opcode: nat, key: Option<seq<Byte>>, form: Form, payload: seq<Byte>)
  {
    predicate WellFormed() {
      && opcode < 16
      && (key.Some? ==> |key.value| == 4)
      && match form
         case Short => |payload| <= 125
         case Medium => |payload| < Pow256(2)
         case Long => |payload| < Pow256(8)
    }

    /** The header the parser should see. */
    function Head(): Header
      requires WellFormed()
    {
      Header(fin, rsv1, false, opcode, key, |payload|, 2 + |LengthBytes()| + (if key.Some? then 4 else 0))
    }

    function LengthBytes(): (r: seq<Byte>)
      requires WellFormed()
    {
      match form
      case Short => []
      case Medium => ToBigEndian(|payload|, 2)
      case Long => ToBigEndian(|payload|, 8)
    }

    function HeadBytes(): (r: seq<Byte>)
      requires WellFormed()
    {
      [(if fin then 128 else 0) + (if rsv1 then 64 else 0) + opcode,
       (if key.Some? then 128 else 0) + (match form case Short => |payload| case Medium => 126 case Long => 127)]
      + LengthBytes()
      + (if key.Some? then key.value else [])
    }

    function Encode(): seq<Byte>
      requires WellFormed()
    {
      HeadBytes() + Mask(key, 0, payload)
    }
  }

  type Frame = f: RawFrame | f.WellFormed() witness RawFrame.Frame(true, false, OP_TEXT, None, Short, [])

  lemma FlagBits(fin: bool, rsv1: bool, opcode: nat)
    requires opcode < 16
    ensures var b := (if fin then 128 else 0) + (if rsv1 then 64 else 0) + opcode;
            b < 256 && (b >= 128) == fin && ((b / 64) % 2 == 1) == rsv1 && (b / 16) % 4 == 0 && b % 16 == opcode
  {}

  lemma HeadShape(f: Frame, t: seq<Byte>)
    ensures var s := f.HeadBytes() + t;
            && HasHeader(s)
            && s[..2] == f.HeadBytes()[..2]
            && (s[1] >= 128) == f.key.Some?
            && LengthSize(s[1]) == |f.LengthBytes()|
            && s[2..2 + LengthSize(s[1])] == f.LengthBytes()
            && (f.form.Short? ==> s[1] % 128 == |f.payload|)
            && (f.key.Some? ==> s[2 + LengthSize(s[1])..6 + LengthSize(s[1])] == f.key.value)
            && |f.HeadBytes()| == HeaderSize(s[1])
  {}

  lemma LengthRoundTrip(f: Frame)
    requires !f.form.Short?
    ensures BigEndian(f.LengthBytes()) == |f.payload|
  {
    BigEndianRoundTrip(|f.payload|, if f.form.Medium? then 2 else 8);
  }

  lemma HeadRoundTrip(f: Frame, t: seq<Byte>)
    ensures HasHeader(f.HeadBytes() + t)
    ensures ReadHeader(f.HeadBytes() + t) == f.Head()
    ensures |f.HeadBytes()| == f.Head().size
  {
    HeadShape(f, t);
    FlagBits(f.fin, f.rsv1, f.opcode);
    if !f.form.Short? {
      LengthRoundTrip(f);
    }
  }

  lemma Middle<T>(a: seq<T>, b: seq<T>, c: seq<T>)
    ensures (a + (b + c))[|a|..|a| + |b|] == b && |a + b| == |a| + |b|
  {}

  /** One encoded frame parses to itself, whatever follows it. */
  lemma FrameRoundTrip(f: Frame, t: seq<Byte>, st: MsgState, deflate: bool)
    ensures First(f.Encode() + t, st, deflate) ==
            var err := Check(f.Head(), st.Open?, deflate);
            if err.Some? then Illegal(err.value)
            else
              var (next, events) := Finish(f.Head(), st, f.payload);
              Taken(next, events, |f.Encode()|)
  {
    var h := f.Head();
    var body := Mask(f.key, 0, f.payload);
    var s := f.Encode() + t;
    HeadRoundTrip(f, body + t);
    MaskTwice(f.key, 0, f.payload);
    hide HasHeader, ReadHeader, Check, Finish, Mask, RawFrame.HeadBytes;
    Regroup(f.HeadBytes(), body, t);
    Middle(f.HeadBytes(), body, t);
    assert h.length == |body|;
  }

  // ----- lists of frames -----

  function Encode(frames: seq<Frame>): seq<Byte>
  {
    if frames == [] then [] else frames[0].Encode() + Encode(frames[1..])
  }

  /** What a receiver makes of a list of frames, up to the first illegal one. */
  function Deliver(frames: seq<Frame>, st: MsgState, deflate: bool): Outcome
  {
    if frames == [] then Outcome([], st, [], None)
    else
      var h := frames[0].Head();
      var err := Check(h, st.Open?, deflate);
      if err.Some? then Outcome([], st, Encode(frames), err)
      else
        var (next, events) := Finish(h, st, frames[0].payload);
        After(events, Deliver(frames[1..], next, deflate))
  }

  /** Parsing encoded frames is the same as interpreting the frames themselves. */
  lemma {:induction false} EncodeThenRun(frames: seq<Frame>, st: MsgState, deflate: bool)
    ensures Run(Encode(frames), st, deflate) == Deliver(frames, st, deflate)
  {
    if frames != [] {
      var f, t := frames[0], Encode(frames[1..]);
      FrameRoundTrip(f, t, st, deflate);
      var (next, _) := Finish(f.Head(), st, f.payload);
      assert (f.Encode() + t)[|f.Encode()|..] == t;
      EncodeThenRun(frames[1..], next, deflate);
    }
  }

  // ----- the other direction: a stream that parses was written as frames -----

  /** The frame at the front of a stream. */
  function FrameAt(s: seq<Byte>): RawFrame
    requires HasHeader(s) && ReadHeader(s).size + ReadHeader(s).length <= |s|
  {
    var h := ReadHeader(s);
    var ext := LengthSize(s[1]);
    RawFrame.Frame(h.fin, h.rsv1, h.opcode, h.key,
                   if ext == 0 then Short else if ext == 2 then Medium else Long,
                   Mask(h.key, 0, s[h.size..h.size + h.length]))
  }

  lemma FlagByte(b: Byte)
    requires (b / 16) % 4 == 0
    ensures b == (if b >= 128 then 128 else 0) + (if (b / 64) % 2 == 1 then 64 else 0) + b % 16
  {}

  lemma FrameAtWellFormed(s: seq<Byte>)
    requires HasHeader(s) && ReadHeader(s).size + ReadHeader(s).length <= |s|
    ensures FrameAt(s).WellFormed()
    ensures FrameAt(s).LengthBytes() == s[2..2 + LengthSize(s[1])]
  {
    BigEndianInverse(s[2..2 + LengthSize(s[1])]);
  }

  lemma HeadBytesAre(s: seq<Byte>)
    requires HasHeader(s) && ReadHeader(s).size + ReadHeader(s).length <= |s|
    requires !ReadHeader(s).reserved && FrameAt(s).WellFormed()
    ensures FrameAt(s).HeadBytes()[0] == s[0] && FrameAt(s).HeadBytes()[1] == s[1]
  {
    hide BigEndian, ToBigEndian, Mask;
    FlagByte(s[0]);
  }

  lemma HeadInverse(s: seq<Byte>)
    requires HasHeader(s) && ReadHeader(s).size + ReadHeader(s).length <= |s|
    requires !ReadHeader(s).reserved
    ensures FrameAt(s).WellFormed() && FrameAt(s).HeadBytes() == s[..ReadHeader(s).size]
  {
    hide BigEndian, ToBigEndian, Mask;
    FrameAtWellFormed(s);
    HeadBytesAre(s);
    var f, ext := FrameAt(s), LengthSize(s[1]);
    var key := if f.key.Some? then f.key.value else [];
    assert s[..2 + ext + |key|] == s[..2] + s[2..2 + ext] + s[2 + ext..2 + ext + |key|];
    assert f.HeadBytes() == s[..2] + f.LengthBytes() + key;
  }

  lemma HeadAlone(s: seq<Byte>)
    requires HasHeader(s)
    ensures HasHeader(s[..ReadHeader(s).size]) && ReadHeader(s[..ReadHeader(s).size]) == ReadHeader(s)
  {
    var n := ReadHeader(s).size;
    HeaderPrefix(s[..n], s[n..]);
    assert s[..n] + s[n..] == s;
  }

  lemma EncodeAt(s: seq<Byte>)
    requires HasHeader(s) && ReadHeader(s).size + ReadHeader(s).length <= |s|
    requires FrameAt(s).WellFormed() && FrameAt(s).HeadBytes() == s[..ReadHeader(s).size]
    ensures FrameAt(s).Encode() == s[..ReadHeader(s).size + ReadHeader(s).length]
  {
    hide ReadHeader, Mask;
    var h := ReadHeader(s);
    MaskTwice(h.key, 0, s[h.size..h.size + h.length]);
    assert s[..h.size + h.length] == s[..h.size] + s[h.size..h.size + h.length];
  }

  /** The parser takes a frame only where encoding that frame gives those bytes. */
  lemma FrameInverse(s: seq<Byte>, st: MsgState, deflate: bool)
    requires First(s, st, deflate).Taken?
    ensures FrameAt(s).WellFormed()
    ensures FrameAt(s).Encode() == s[..First(s, st, deflate).size]
    ensures FrameAt(s).Head() == ReadHeader(s)
  {
    hide Mask, BigEndian, ToBigEndian;
    HeadInverse(s);
    EncodeAt(s);
    HeadAlone(s);
    HeadRoundTrip(FrameAt(s), []);
    assert FrameAt(s).HeadBytes() + [] == FrameAt(s).HeadBytes();
  }

  lemma TakenFrame(s: seq<Byte>, st: MsgState, deflate: bool) returns (g: Frame)
    requires First(s, st, deflate).Taken?
    ensures var f := First(s, st, deflate);
            && g == FrameAt(s)
            && g.Encode() + s[f.size..] == s
            && Check(g.Head(), st.Open?, deflate).None?
            && Finish(g.Head(), st, g.payload) == (f.next, f.events)
  {
    FrameInverse(s, st, deflate);
    g := FrameAt(s);
  }

  /** The frames a stream is made of. */
  function FramesAt(s: seq<Byte>, st: MsgState, deflate: bool): seq<Frame>
    decreases |s|
  {
    var f := First(s, st, deflate);
    if f.Taken? then
      FrameInverse(s, st, deflate);
      [FrameAt(s)] + FramesAt(s[f.size..], f.next, deflate)
    else []
  }

  /** The stream is the encoded frames and then the leftover, and the outcome is what the frames mean. */
  predicate Explains(frames: seq<Frame>, s: seq<Byte>, st: MsgState, deflate: bool, r: Outcome) {
    Encode(frames) + r.rest == s && Deliver(frames, st, deflate) == Outcome(r.events, r.st, [], None)
  }

  lemma ExplainsFront(g: Frame, tail: seq<Frame>, s1: seq<Byte>, st: MsgState, deflate: bool, r: Outcome)
    requires Check(g.Head(), st.Open?, deflate).None?
    requires Explains(tail, s1, Finish(g.Head(), st, g.payload).0, deflate, r)
    ensures Explains([g] + tail, g.Encode() + s1, st, deflate, After(Finish(g.Head(), st, g.payload).1, r))
  {
    DeliverFront(g, tail, st, deflate);
    Regroup(g.Encode(), Encode(tail), r.rest);
    hide Check, Finish, Encode, Deliver, RawFrame.Encode, RawFrame.Head;
  }

  /** Every stream is a list of encoded frames and a leftover, and parsing it gives what those frames mean. */
  lemma {:induction false} RunThenEncode(s: seq<Byte>, st: MsgState, deflate: bool)
    ensures Explains(FramesAt(s, st, deflate), s, st, deflate, Run(s, st, deflate))
    decreases |s|
  {
    var f := First(s, st, deflate);
    RunFront(s, st, deflate);
    if f.Taken? {
      var g := TakenFrame(s, st, deflate);
      RunThenEncode(s[f.size..], f.next, deflate);
      ExplainsFront(g, FramesAt(s[f.size..], f.next, deflate), s[f.size..], st, deflate, Run(s[f.size..], f.next, deflate));
    }
  }

  lemma DeliverFront(f: Frame, tail: seq<Frame>, st: MsgState, deflate: bool)
    requires Check(f.Head(), st.Open?, deflate).None?
    ensures var (next, events) := Finish(f.Head(), st, f.payload);
            Deliver([f] + tail, st, deflate) == After(events, Deliver(tail, next, deflate))
    ensures Encode([f] + tail) == f.Encode() + Encode(tail)
  {
    assert ([f] + tail)[1..] == tail;
  }

  // ----- whole messages -----

  predicate LegalControl(f: RawFrame) {
    && f.WellFormed() && f.fin && !f.rsv1 && |f.payload| <= 125
    && (f.opcode == OP_CLOSE || f.opcode == OP_PING || f.opcode == OP_PONG)
  }

  type ControlFrame = f: RawFrame | LegalControl(f) witness RawFrame.Frame(true, false, OP_PING, None, Short, [])

  /** A fragment of a message, with the control frames sent just before it. */
  datatype Piece = Piece(controls: seq<ControlFrame>, key: Option<seq<Byte>>, form: Form, payload: seq<Byte>)
  {
    function Body(fin: bool, rsv1: bool, opcode: nat): RawFrame {
      RawFrame.Frame(fin, rsv1, opcode, key, form, payload)
    }
  }

  type LegalPiece = p: Piece | p.Body(true, false, OP_TEXT).WellFormed() witness Piece([], None, Short, [])

  /** compressed says that the pieces together are a compressed message, whose first frame has the bit for it. */
  datatype WireMessage = WireMessage(text: bool, compressed: bool, first: LegalPiece, others: seq<LegalPiece>)
  {
    function Opcode(): nat { if text then OP_TEXT else OP_BINARY }
    function Pieces(): seq<LegalPiece> { [first] + others }
  }

  function PieceFrames(pieces: seq<LegalPiece>, rsv1: bool, opcode: nat): seq<Frame>
    requires opcode < 16
  {
    if pieces == [] then []
    else
      var body: Frame := pieces[0].Body(|pieces| == 1, rsv1, opcode);
      pieces[0].controls + ([body] + PieceFrames(pieces[1..], false, OP_CONTINUATION))
  }

  function ControlEvents(controls: seq<ControlFrame>): seq<Event> {
    if controls == [] then []
    else [Control(controls[0].opcode, controls[0].payload)] + ControlEvents(controls[1..])
  }

  function PieceEvents(pieces: seq<LegalPiece>): seq<Event> {
    if pieces == [] then [] else ControlEvents(pieces[0].controls) + PieceEvents(pieces[1..])
  }

  function Content(pieces: seq<LegalPiece>): seq<Byte> {
    if pieces == [] then [] else pieces[0].payload + Content(pieces[1..])
  }

  function MessageFrames(ms: seq<WireMessage>): seq<Frame> {
    if ms == [] then [] else PieceFrames(ms[0].Pieces(), ms[0].compressed, ms[0].Opcode()) + MessageFrames(ms[1..])
  }

  /** What the messages mean: their control frames where they were sent, then each message whole. */
  function Meaning(ms: seq<WireMessage>): seq<Event> {
    if ms == [] then []
    else
      PieceEvents(ms[0].Pieces()) + [Data(ms[0].Opcode(), ms[0].compressed, Content(ms[0].Pieces()))] + Meaning(ms[1..])
  }

  lemma {:induction false} DeliverAppend(a: seq<Frame>, b: seq<Frame>, st: MsgState, deflate: bool)
    requires Deliver(a, st, deflate).err.None?
    ensures var x := Deliver(a, st, deflate);
            Deliver(a + b, st, deflate) == After(x.events, Deliver(b, x.st, deflate))
  {
    if a == [] {
      assert a + b == b;
    } else {
      assert a == [a[0]] + a[1..] && a + b == [a[0]] + (a[1..] + b);
      var (next, events) := Finish(a[0].Head(), st, a[0].payload);
      DeliverFront(a[0], a[1..], st, deflate);
      DeliverFront(a[0], a[1..] + b, st, deflate);
      DeliverAppend(a[1..], b, next, deflate);
      var x := Deliver(a[1..], next, deflate);
      AfterAfter(events, x.events, Deliver(b, x.st, deflate));
    }
  }

  lemma {:induction false} DeliverControls(controls: seq<ControlFrame>, st: MsgState, deflate: bool)
    ensures Deliver(controls, st, deflate) == Outcome(ControlEvents(controls), st, [], None)
  {
    if controls != [] {
      DeliverControls(controls[1..], st, deflate);
      var cs: seq<Frame> := controls;
      assert cs == [cs[0]] + cs[1..];
      DeliverFront(cs[0], cs[1..], st, deflate);
    }
  }

  /** The pieces left of a message deliver its controls and then the whole message, begun or not. */
  function Completed(pieces: seq<LegalPiece>, opcode: nat, compressed: bool, data: seq<Byte>): Outcome {
    Outcome(PieceEvents(pieces) + [Data(opcode, compressed, data + Content(pieces))], Idle, [], None)
  }

  /** A fragment that begins a message, or goes on with the one that is open. */
  predicate Fits(rsv1: bool, opcode: nat, st: MsgState, deflate: bool) {
    if st.Idle? then (opcode == OP_TEXT || opcode == OP_BINARY) && (rsv1 ==> deflate)
    else opcode == OP_CONTINUATION && !rsv1
  }

  /** The message that such a fragment is part of. */
  function Joining(rsv1: bool, opcode: nat, st: MsgState): MsgState {
    if st.Idle? then Open(opcode, rsv1, []) else st
  }

  /** One fragment either ends its message or extends it. */
  lemma FinishBody(p: LegalPiece, last: bool, rsv1: bool, opcode: nat, st: MsgState, deflate: bool)
    requires Fits(rsv1, opcode, st, deflate)
    ensures var m := Joining(rsv1, opcode, st);
            var body: Frame := p.Body(last, rsv1, opcode);
            && Check(body.Head(), st.Open?, deflate).None?
            && Finish(body.Head(), st, body.payload)
               == if last then (Idle, [Data(m.opcode, m.compressed, m.data + p.payload)])
                  else (Open(m.opcode, m.compressed, m.data + p.payload), [])
  {
    var none: seq<Byte> := [];
    assert none + p.payload == p.payload;
  }

  lemma CompletedFront(p: LegalPiece, others: seq<LegalPiece>, opcode: nat, compressed: bool, data: seq<Byte>)
    ensures Completed([p] + others, opcode, compressed, data)
            == After(ControlEvents(p.controls), Completed(others, opcode, compressed, data + p.payload))
  {
    assert ([p] + others)[1..] == others;
    Regroup(data, p.payload, Content(others));
    Regroup(ControlEvents(p.controls), PieceEvents(others), [Data(opcode, compressed, data + p.payload + Content(others))]);
  }

  lemma DeliverPiece(p: LegalPiece, tail: seq<Frame>, last: bool, rsv1: bool, opcode: nat, st: MsgState, deflate: bool)
    requires Fits(rsv1, opcode, st, deflate)
    ensures var body: Frame := p.Body(last, rsv1, opcode);
            var (next, events) := Finish(body.Head(), st, body.payload);
            Deliver(p.controls + ([body] + tail), st, deflate)
            == After(ControlEvents(p.controls), After(events, Deliver(tail, next, deflate)))
  {
    var body: Frame := p.Body(last, rsv1, opcode);
    FinishBody(p, last, rsv1, opcode, st, deflate);
    DeliverControls(p.controls, st, deflate);
    DeliverAppend(p.controls, [body] + tail, st, deflate);
    DeliverFront(body, tail, st, deflate);
  }

  lemma {:induction false} DeliverPieces(pieces: seq<LegalPiece>, rsv1: bool, opcode: nat, st: MsgState, deflate: bool)
    requires pieces != [] && Fits(rsv1, opcode, st, deflate)
    ensures var m := Joining(rsv1, opcode, st);
            Deliver(PieceFrames(pieces, rsv1, opcode), st, deflate) == Completed(pieces, m.opcode, m.compressed, m.data)
  {
    var p, others := pieces[0], pieces[1..];
    var m := Joining(rsv1, opcode, st);
    var last := |pieces| == 1;
    DeliverPiece(p, PieceFrames(others, false, OP_CONTINUATION), last, rsv1, opcode, st, deflate);
    FinishBody(p, last, rsv1, opcode, st, deflate);
    CompletedFront(p, others, m.opcode, m.compressed, m.data);
    assert pieces == [p] + others;
    if last {
      assert (m.data + p.payload) + Content(others) == m.data + p.payload;
      assert Completed(others, m.opcode, m.compressed, m.data + p.payload)
        == Outcome([Data(m.opcode, m.compressed, m.data + p.payload)], Idle, [], None);
    } else {
      DeliverPieces(others, false, OP_CONTINUATION, Open(m.opcode, m.compressed, m.data + p.payload), deflate);
      var rest := Completed(others, m.opcode, m.compressed, m.data + p.payload);
      assert After([], rest) == rest;
    }
  }

  predicate MayCompress(ms: seq<WireMessage>, deflate: bool) {
    forall m <- ms :: m.compressed ==> deflate
  }

  lemma {:induction false} DeliverMessages(ms: seq<WireMessage>, deflate: bool)
    requires MayCompress(ms, deflate)
    ensures Deliver(MessageFrames(ms), Idle, deflate) == Outcome(Meaning(ms), Idle, [], None)
  {
    if ms != [] {
      var m := ms[0];
      var fs := PieceFrames(m.Pieces(), m.compressed, m.Opcode());
      DeliverPieces(m.Pieces(), m.compressed, m.Opcode(), Idle, deflate);
      DeliverMessages(ms[1..], deflate);
      DeliverAppend(fs, MessageFrames(ms[1..]), Idle, deflate);
      assert [] + Content(m.Pieces()) == Content(m.Pieces());
    }
  }

  /**
   * Messages, compressed or not, survive any fragmentation, masking, choice of
   * length encoding and control frames in between.
   */
  lemma MessagesRoundTrip(ms: seq<WireMessage>, deflate: bool)
    requires MayCompress(ms, deflate)
    ensures Run(Encode(MessageFrames(ms)), Idle, deflate) == Outcome(Meaning(ms), Idle, [], None)
  {
    EncodeThenRun(MessageFrames(ms), Idle, deflate);
    DeliverMessages(ms, deflate);
  }

  // ----- which streams are accepted -----

  /** A frame that is legal wherever it may come, by sections 5.2 and 5.5 of RFC 6455. */
  predicate LegalFrame(f: Frame, deflate: bool) {
    if f.opcode >= 8 then f.opcode in {8, 9, 10} && f.fin && !f.rsv1 && |f.payload| <= 125
    else f.opcode in {0, 1, 2} && (f.rsv1 ==> deflate)
  }

  predicate Controls(frames: seq<Frame>, a: nat, b: nat)
    requires b <= |frames|
  {
    forall k :: a <= k < b ==> frames[k].opcode >= 8
  }

  /** The last data frame before the i-th was not a final one; open says so of what came before all of them. */
  ghost predicate OpenBefore(frames: seq<Frame>, i: nat, open: bool)
    requires i <= |frames|
  {
    || (open && Controls(frames, 0, i))
    || exists j :: 0 <= j < i && frames[j].opcode < 8 && !frames[j].fin && Controls(frames, j + 1, i)
  }

  /** Every frame is legal, and a data frame goes on with a message exactly if one is open. */
  ghost predicate Accepted(frames: seq<Frame>, open: bool, deflate: bool) {
    forall i :: 0 <= i < |frames| ==>
      LegalFrame(frames[i], deflate) && (frames[i].opcode < 8 ==> (frames[i].opcode == 0 <==> OpenBefore(frames, i, open)))
  }

  lemma OpenTail(frames: seq<Frame>, i: nat, open: bool)
    requires 1 <= i <= |frames|
    ensures OpenBefore(frames, i, open)
      <==> OpenBefore(frames[1..], i - 1, if frames[0].opcode >= 8 then open else !frames[0].fin)
  {
    var rest := frames[1..];
    assert forall k :: 0 <= k < i - 1 ==> rest[k] == frames[k + 1];
    assert forall k :: 1 <= k < i ==> frames[k] == rest[k - 1];
    if j :| 0 <= j < i && frames[j].opcode < 8 && !frames[j].fin && Controls(frames, j + 1, i) {
      assert Controls(rest, j, i - 1);
      if j > 0 {
        assert rest[j - 1].opcode < 8 && Controls(rest, j - 1 + 1, i - 1);
      }
    }
    if j :| 0 <= j < i - 1 && rest[j].opcode < 8 && !rest[j].fin && Controls(rest, j + 1, i - 1) {
      assert frames[j + 1].opcode < 8 && Controls(frames, j + 2, i);
    }
    if Controls(rest, 0, i - 1) {
      assert Controls(frames, 1, i);
    }
  }

  lemma AcceptedFront(frames: seq<Frame>, open: bool, deflate: bool)
    requires frames != []
    ensures Accepted(frames, open, deflate) <==>
      && LegalFrame(frames[0], deflate) && (frames[0].opcode < 8 ==> (frames[0].opcode == 0 <==> open))
      && Accepted(frames[1..], if frames[0].opcode >= 8 then open else !frames[0].fin, deflate)
  {
    hide LegalFrame;
    var rest := frames[1..];
    assert OpenBefore(frames, 0, open) <==> open;
    forall i | 1 <= i < |frames|
      ensures OpenBefore(frames, i, open) <==> OpenBefore(rest, i - 1, if frames[0].opcode >= 8 then open else !frames[0].fin)
    {
      OpenTail(frames, i, open);
    }
    hide OpenBefore;
    assert forall i :: 1 <= i < |frames| ==> frames[i] == rest[i - 1];
    assert forall i :: 0 <= i < |rest| ==> rest[i] == frames[i + 1];
  }

  lemma LegalHead(f: Frame, st: MsgState, deflate: bool)
    ensures Check(f.Head(), st.Open?, deflate).None?
      <==> LegalFrame(f, deflate) && (f.opcode < 8 ==> (f.opcode == 0 <==> st.Open?))
    ensures Check(f.Head(), st.Open?, deflate).None? ==>
      Finish(f.Head(), st, f.payload).0.Open? == if f.opcode >= 8 then st.Open? else !f.fin
  {}

  lemma {:induction false} DeliveredIff(frames: seq<Frame>, st: MsgState, deflate: bool)
    ensures Deliver(frames, st, deflate).err.None? <==> Accepted(frames, st.Open?, deflate)
  {
    if frames != [] {
      LegalHead(frames[0], st, deflate);
      AcceptedFront(frames, st.Open?, deflate);
      hide Check, Finish, RawFrame.Head, RawFrame.Encode, Encode, LegalFrame, Accepted;
      DeliveredIff(frames[1..], Finish(frames[0].Head(), st, frames[0].payload).0, deflate);
    }
  }

  /** The parser accepts a stream of frames exactly if the standard does. */
  lemma AcceptedIff(frames: seq<Frame>, deflate: bool)
    ensures Run(Encode(frames), Idle, deflate).err.None? <==> Accepted(frames, false, deflate)
  {
    EncodeThenRun(frames, Idle, deflate);
    DeliveredIff(frames, Idle, deflate);
  }

  /** Which rule a frame is refused for: the first that it breaks, in this order. */
  lemma FirstRuleBroken(f: Frame, st: MsgState, deflate: bool)
    ensures Check(f.Head(), st.Open?, deflate) ==
      if f.rsv1 && !deflate then Some(ReservedBits)
      else if f.opcode >= 8 && (!f.fin || |f.payload| > 125) then Some(ControlTooLong)
      else if f.opcode >= 8 && f.rsv1 then Some(ControlCompressed)
      else if f.opcode >= 11 then Some(UnknownControl)
      else if f.opcode == 0 && st.Idle? then Some(OrphanContinuation)
      else if f.opcode in {1, 2} && st.Open? then Some(NestedMessage)
      else if 3 <= f.opcode <= 7 then Some(UnknownData)
      else None
  {}

  /** The two bits that no extension here uses. */
  lemma ReservedIsRefused(s: seq<Byte>, st: MsgState, deflate: bool)
    requires HasHeader(s) && (s[0] / 16) % 4 != 0
    ensures Run(s, st, deflate) == Outcome([], st, s, Some(ReservedBits))
  {}

  // ----- the examples of section 5.7 of RFC 6455, for any payload -----

  lemma LoneFrame(s: seq<Byte>, st: MsgState, deflate: bool, next: MsgState, events: seq<Event>)
    requires First(s, st, deflate) == Taken(next, events, |s|)
    ensures Run(s, st, deflate) == Outcome(events, next, [], None)
  {
    assert s[|s|..] == [];
    assert Run([], next, deflate) == Outcome([], next, [], None);
  }

  /** What the head of a frame holds when its payload and nothing else follows. */
  lemma FirstOf(head: seq<Byte>, payload: seq<Byte>, st: MsgState, deflate: bool)
    requires HasHeader(head) && ReadHeader(head).size == |head| && ReadHeader(head).length == |payload|
    requires Check(ReadHeader(head), st.Open?, deflate).None?
    ensures var h := ReadHeader(head); var (next, events) := Finish(h, st, Mask(h.key, 0, payload));
      First(head + payload, st, deflate) == Taken(next, events, |head + payload|)
  {
    hide Mask, Finish, Check;
    HeaderPrefix(head, payload);
    assert (head + payload)[|head|..|head| + |payload|] == payload;
  }

  /** A short text, ping or compressed text. */
  lemma ShortExamples(p: seq<Byte>, deflate: bool)
    requires |p| <= 125
    ensures Run([0x81, |p|] + p, Idle, deflate) == Outcome([Data(1, false, p)], Idle, [], None)
    ensures Run([0x89, |p|] + p, Idle, deflate) == Outcome([Control(9, p)], Idle, [], None)
    ensures Run([0xc1, |p|] + p, Idle, true) == Outcome([Data(1, true, p)], Idle, [], None)
  {
    var none: seq<Byte> := [];
    assert none + p == p;
    FirstOf([0x81, |p|], p, Idle, deflate);
    FirstOf([0x89, |p|], p, Idle, deflate);
    FirstOf([0xc1, |p|], p, Idle, true);
    hide First;
    LoneFrame([0x81, |p|] + p, Idle, deflate, Idle, [Data(1, false, p)]);
    LoneFrame([0x89, |p|] + p, Idle, deflate, Idle, [Control(9, p)]);
    LoneFrame([0xc1, |p|] + p, Idle, true, Idle, [Data(1, true, p)]);
  }

  /** A text in two fragments. */
  lemma FragmentExample(p: seq<Byte>, q: seq<Byte>, deflate: bool)
    requires |p| <= 125 && |q| <= 125
    ensures Run([0x01, |p|] + p + ([0x80, |q|] + q), Idle, deflate) == Outcome([Data(1, false, p + q)], Idle, [], None)
  {
    var none: seq<Byte> := [];
    assert none + p == p;
    FirstOf([0x01, |p|], p, Idle, deflate);
    FirstOf([0x80, |q|], q, Open(1, false, p), deflate);
    hide First;
    var a, b := [0x01, |p|] + p, [0x80, |q|] + q;
    LoneFrame(a, Idle, deflate, Open(1, false, p), []);
    LoneFrame(b, Open(1, false, p), deflate, Idle, [Data(1, false, p + q)]);
    RunAppend(a, b, Idle, deflate);
    assert [] + b == b;
  }

  /** The two longer forms of the length, and a masked text. */
  lemma LongExamples(p: seq<Byte>, key: seq<Byte>, deflate: bool)
    requires |key| == 4
    ensures |p| < 0x1_0000 ==>
      Run([0x82, 0x7e, |p| / 0x100, |p| % 0x100] + p, Idle, deflate) == Outcome([Data(2, false, p)], Idle, [], None)
    ensures |p| < 0x1_0000 ==>
      Run([0x82, 0x7f, 0, 0, 0, 0, 0, 0, |p| / 0x100, |p| % 0x100] + p, Idle, deflate) == Outcome([Data(2, false, p)], Idle, [], None)
    ensures |p| <= 125 ==>
      Run([0x81, 0x80 + |p|] + key + p, Idle, deflate) == Outcome([Data(1, false, Mask(Some(key), 0, p))], Idle, [], None)
  {
    if |p| < 0x1_0000 {
      MediumExample(p, deflate);
      LongExample(p, deflate);
    }
    if |p| <= 125 {
      MaskedExample(p, key, deflate);
    }
  }

  lemma MediumExample(p: seq<Byte>, deflate: bool)
    requires |p| < 0x1_0000
    ensures Run([0x82, 0x7e, |p| / 0x100, |p| % 0x100] + p, Idle, deflate) == Outcome([Data(2, false, p)], Idle, [], None)
  {
    var none: seq<Byte> := [];
    assert none + p == p;
    var head := [0x82, 0x7e, |p| / 0x100, |p| % 0x100];
    assert head[2..4] == [|p| / 0x100, |p| % 0x100];
    TwoBytes(|p| / 0x100, |p| % 0x100);
    hide BigEndian;
    FirstOf(head, p, Idle, deflate);
    hide First;
    LoneFrame(head + p, Idle, deflate, Idle, [Data(2, false, p)]);
  }

  lemma LongExample(p: seq<Byte>, deflate: bool)
    requires |p| < 0x1_0000
    ensures Run([0x82, 0x7f, 0, 0, 0, 0, 0, 0, |p| / 0x100, |p| % 0x100] + p, Idle, deflate)
      == Outcome([Data(2, false, p)], Idle, [], None)
  {
    var none: seq<Byte> := [];
    assert none + p == p;
    var head := [0x82, 0x7f, 0, 0, 0, 0, 0, 0, |p| / 0x100, |p| % 0x100];
    var low := [|p| / 0x100, |p| % 0x100];
    TwoBytes(|p| / 0x100, |p| % 0x100);
    ZerosFirst(low, 6);
    assert head[2..10] == seq(6, _ => 0) + low;
    hide BigEndian;
    FirstOf(head, p, Idle, deflate);
    hide First;
    LoneFrame(head + p, Idle, deflate, Idle, [Data(2, false, p)]);
  }

  lemma {:induction false} ZerosFirst(s: seq<Byte>, n: nat)
    ensures BigEndian(seq(n, _ => 0) + s) == BigEndian(s)
  {
    if n == 0 {
      assert seq(0, _ => 0) + s == s;
    } else {
      ZerosFirst(s, n - 1);
      BigEndianFront(0, seq(n - 1, _ => 0) + s);
      assert seq(n, _ => 0) + s == [0] + (seq(n - 1, _ => 0) + s);
    }
  }

  lemma MaskedExample(p: seq<Byte>, key: seq<Byte>, deflate: bool)
    requires |key| == 4 && |p| <= 125
    ensures Run([0x81, 0x80 + |p|] + key + p, Idle, deflate) == Outcome([Data(1, false, Mask(Some(key), 0, p))], Idle, [], None)
  {
    var head := [0x81, 0x80 + |p|] + key;
    var text := Mask(Some(key), 0, p);
    var none: seq<Byte> := [];
    assert none + text == text;
    assert head[2..6] == key;
    hide Mask;
    FirstOf(head, p, Idle, deflate);
    hide First;
    LoneFrame(head + p, Idle, deflate, Idle, [Data(1, false, text)]);
  }
}
