// From frame events to the messages the service console shows: truncation to
// the limit, close codes, and decompression of compressed messages.

module Messages {
  import opened Options
  import opened Bytes
  import opened Frames
  import opened Inflate

  const MAX_COMPRESSED: nat := 0x80_0000

  datatype Message = Message(
    opcode: nat, payload: seq<Byte>, size: nat, truncated: bool, compressed: bool, undecoded: bool,
    closeCode: nat, closeReason: seq<Byte>)

  /** A fully determined message, or a compressed one too large to buffer, whose size is how much was. */
  datatype Shown = Exact(message: Message) | Overflowed(opcode: nat)

  predicate Shows(m: Message, x: Shown) {
    match x
    case Exact(message) => m == message
    case Overflowed(op) => m == Message(op, [], m.size, false, true, true, 0, []) && m.size <= MAX_COMPRESSED
  }

  predicate AllShow(ms: seq<Message>, xs: seq<Shown>) {
    |ms| == |xs| && forall i :: 0 <= i < |ms| ==> Shows(ms[i], xs[i])
  }

  function ControlMessage(opcode: nat, payload: seq<Byte>): Message {
    var close := opcode == OP_CLOSE && |payload| >= 2;
    Message(opcode, payload, |payload|, false, false, false,
            if close then BigEndian(payload[..2]) else 0, if close then payload[2..] else [])
  }

  function Trimmed(opcode: nat, data: seq<Byte>, limit: int, compressed: bool): Message {
    Message(opcode, Prefix(data, limit), |data|, limit >= 0 && |data| > limit, compressed, false, 0, [])
  }

  /** The message an event becomes, and the decoder after it. */
  function Show(e: Event, limit: int, flate: Flate, d: Decoder): (Shown, Decoder) {
    match e
    case Control(op, payload) => (Exact(ControlMessage(op, payload)), d)
    case Data(op, compressed, data) =>
      if !compressed then (Exact(Trimmed(op, data, limit, false)), d)
      else if |data| > MAX_COMPRESSED then (Overflowed(op), d.Fail())
      else
        var (d1, out) := Decode(flate, d, data);
        (Exact(if out.Some? then Trimmed(op, out.value, limit, true)
               else Message(op, [], |data|, false, true, true, 0, [])), d1)
  }

  lemma ShowControl(opcode: nat, payload: seq<Byte>, limit: int, flate: Flate, d: Decoder)
    ensures Show(Control(opcode, payload), limit, flate, d) == (Exact(ControlMessage(opcode, payload)), d)
  {}

  function ShowAll(events: seq<Event>, limit: int, flate: Flate, d: Decoder): (r: (seq<Shown>, Decoder))
    ensures |r.0| == |events|
    decreases |events|
  {
    if events == [] then ([], d)
    else
      var before := ShowAll(events[..|events| - 1], limit, flate, d);
      var (x, d1) := Show(events[|events| - 1], limit, flate, before.1);
      (before.0 + [x], d1)
  }

  lemma ShowSnoc(events: seq<Event>, e: Event, limit: int, flate: Flate, d: Decoder)
    ensures var (xs, d1) := ShowAll(events, limit, flate, d);
            var (x, d2) := Show(e, limit, flate, d1);
            ShowAll(events + [e], limit, flate, d) == (xs + [x], d2)
  {
    assert (events + [e])[..|events|] == events;
  }

  lemma AllShowSnoc(ms: seq<Message>, xs: seq<Shown>, m: Message, x: Shown)
    requires AllShow(ms, xs) && Shows(m, x)
    ensures AllShow(ms + [m], xs + [x])
  {}

  /** Two lists shown by the same events differ at most in the size of overflowed messages. */
  lemma OnlySizeDiffers(a: seq<Message>, b: seq<Message>, xs: seq<Shown>)
    requires AllShow(a, xs) && AllShow(b, xs)
    ensures |a| == |b|
    ensures forall i :: 0 <= i < |a| ==> a[i] == b[i] || (xs[i].Overflowed? && a[i] == b[i].(size := a[i].size))
  {
    forall i | 0 <= i < |a|
      ensures a[i] == b[i] || (xs[i].Overflowed? && a[i] == b[i].(size := a[i].size))
    {
      assert Shows(a[i], xs[i]) && Shows(b[i], xs[i]);
    }
  }

  // ----- buffering of compressed payloads -----

  /** How much of a compressed message is kept: a chunk that would pass the bound is dropped whole. */
  function Buffered(kept: seq<Byte>, chunk: seq<Byte>): seq<Byte> {
    if |kept| + |chunk| > MAX_COMPRESSED then kept else kept + chunk
  }

  // ----- compressed messages in a stream -----

  predicate Compressed(e: Event) {
    e.Data? && e.compressed
  }

  /** Shown without its content: too large to buffer, or not decoded. */
  predicate Lost(x: Shown) {
    x.Overflowed? || x.message.undecoded
  }

  /** What comes before an event decides how it is shown. */
  lemma {:induction false} ShownAt(events: seq<Event>, k: nat, limit: int, flate: Flate, d: Decoder)
    requires k < |events|
    ensures var before := ShowAll(events[..k], limit, flate, d).1;
      && ShowAll(events, limit, flate, d).0[k] == Show(events[k], limit, flate, before).0
      && ShowAll(events[..k + 1], limit, flate, d).1 == Show(events[k], limit, flate, before).1
    decreases |events|
  {
    hide Show;
    var n := |events| - 1;
    assert events[..k + 1][..k] == events[..k];
    if k < n {
      assert events[..n][..k] == events[..k];
      assert events[..n][..k + 1] == events[..k + 1];
      ShownAt(events[..n], k, limit, flate, d);
    } else {
      assert events[..k + 1] == events;
    }
  }

  /** One event never mends a decoder, and under takeover a lost message breaks it. */
  lemma ShowBreaks(e: Event, limit: int, flate: Flate, d: Decoder)
    requires d.takeover
    ensures var (x, d1) := Show(e, limit, flate, d);
      && d1.takeover && (d.broken ==> d1.broken)
      && (Compressed(e) ==> (Lost(x) <==> d1.broken))
      && (!Compressed(e) ==> x.Exact? && !x.message.undecoded)
  {}

  lemma {:induction false} StaysBroken(events: seq<Event>, i: nat, j: nat, limit: int, flate: Flate, d: Decoder)
    requires d.takeover && i <= j <= |events|
    ensures ShowAll(events[..j], limit, flate, d).1.takeover
    ensures ShowAll(events[..i], limit, flate, d).1.broken ==> ShowAll(events[..j], limit, flate, d).1.broken
    decreases j
  {
    hide Show;
    if j > 0 {
      StaysBroken(events, if i < j then i else i - 1, j - 1, limit, flate, d);
      ShownAt(events, j - 1, limit, flate, d);
      ShowBreaks(events[j - 1], limit, flate, ShowAll(events[..j - 1], limit, flate, d).1);
    }
  }

  /**
   * Under context takeover, once one compressed message is lost, by failing to
   * decode or by overflowing the buffer, every later one is, whatever control and
   * plain messages come between.
   */
  lemma LostForever(events: seq<Event>, i: nat, j: nat, limit: int, flate: Flate, d: Decoder)
    requires d.takeover && i < j < |events| && Compressed(events[i]) && Compressed(events[j])
    requires Lost(ShowAll(events, limit, flate, d).0[i])
    ensures Lost(ShowAll(events, limit, flate, d).0[j])
  {
    hide Show;
    StaysBroken(events, 0, i, limit, flate, d);
    ShownAt(events, i, limit, flate, d);
    ShowBreaks(events[i], limit, flate, ShowAll(events[..i], limit, flate, d).1);
    StaysBroken(events, i + 1, j, limit, flate, d);
    ShownAt(events, j, limit, flate, d);
    ShowBreaks(events[j], limit, flate, ShowAll(events[..j], limit, flate, d).1);
  }

  /** The same of the messages that the events are shown as. */
  lemma UndecodedForever(events: seq<Event>, ms: seq<Message>, i: nat, j: nat, limit: int, flate: Flate, d: Decoder)
    requires d.takeover && i < j < |ms| && AllShow(ms, ShowAll(events, limit, flate, d).0)
    requires ms[i].undecoded && ms[j].compressed
    ensures ms[j].undecoded
  {
    var xs := ShowAll(events, limit, flate, d).0;
    assert Shows(ms[i], xs[i]) && Shows(ms[j], xs[j]);
    ShownAt(events, i, limit, flate, d);
    ShownAt(events, j, limit, flate, d);
    StaysBroken(events, 0, i, limit, flate, d);
    ShowBreaks(events[i], limit, flate, ShowAll(events[..i], limit, flate, d).1);
    LostForever(events, i, j, limit, flate, d);
  }

  // ----- the decoder behind a stream -----

  function Payloads(events: seq<Event>): seq<seq<Byte>> {
    if events == [] then []
    else
      var e := events[|events| - 1];
      Payloads(events[..|events| - 1]) + if Compressed(e) then [e.payload] else []
  }

  predicate NoOverflow(events: seq<Event>) {
    forall i :: 0 <= i < |events| && Compressed(events[i]) ==> |events[i].payload| <= MAX_COMPRESSED
  }

  lemma {:induction false} DecodeSnoc(flate: Flate, d: Decoder, payloads: seq<seq<Byte>>, p: seq<Byte>)
    ensures DecodeAll(flate, d, payloads + [p]).0 == Decode(flate, DecodeAll(flate, d, payloads).0, p).0
    decreases |payloads|
  {
    hide Decode;
    if payloads == [] {
      assert [] + [p] == [p];
      DecodeFirst(flate, d, [p]);
    } else {
      assert (payloads + [p])[1..] == payloads[1..] + [p];
      DecodeFirst(flate, d, payloads + [p]);
      DecodeFirst(flate, d, payloads);
      DecodeSnoc(flate, Decode(flate, d, payloads[0]).0, payloads[1..], p);
    }
  }

  /**
   * While nothing overflows, the decoder after a stream is that of its compressed
   * payloads decoded in order, so its history is all that they decoded to.
   */
  lemma {:induction false} StreamDecodesInOrder(events: seq<Event>, limit: int, flate: Flate, d: Decoder)
    requires NoOverflow(events)
    ensures ShowAll(events, limit, flate, d).1 == DecodeAll(flate, d, Payloads(events)).0
    ensures d.takeover ==>
      ShowAll(events, limit, flate, d).1.history == d.history + Outputs(DecodeAll(flate, d, Payloads(events)).1)
    decreases |events|
  {
    hide Decode;
    if events != [] {
      var n := |events| - 1;
      StreamDecodesInOrder(events[..n], limit, flate, d);
      if Compressed(events[n]) {
        DecodeSnoc(flate, d, Payloads(events[..n]), events[n].payload);
      } else {
        assert Payloads(events) == Payloads(events[..n]);
      }
    }
    if d.takeover {
      HistoryIsAllOutput(flate, d, Payloads(events));
    }
  }
}
