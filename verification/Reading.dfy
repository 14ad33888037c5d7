// What each message of a connection says, written out from section 7.2 of RFC 7692
// and without the decoder's state: a compressed message is inflated from the last
// 32 KiB of what the compressed messages before it said. Every event is shown as a
// message that says exactly that.

module Reading {
  import opened Options
  import opened Bytes
  import opened Frames
  import opened Inflate
  import opened Messages

  /** What the compressed messages said, put together. */
  function Said(events: seq<Event>, texts: seq<Option<seq<Byte>>>): seq<Byte>
    requires |texts| == |events|
  {
    if events == [] then []
    else
      var n := |events| - 1;
      Said(events[..n], texts[..n]) + if Compressed(events[n]) && texts[n].Some? then texts[n].value else []
  }

  /** text is what payload inflates to, if it does within the bounds. */
  predicate Inflates(flate: Flate, window: seq<Byte>, payload: seq<Byte>, text: Option<seq<Byte>>) {
    var f := flate(window, payload + [0x00, 0x00, 0xff, 0xff]);
    text == if |payload| <= 0x80_0000 && !f.failed && |Flatten(f.writes)| <= 0x400_0000 then Some(Flatten(f.writes)) else None
  }

  /** A compressed message before the i-th was lost. */
  ghost predicate LostBefore(events: seq<Event>, texts: seq<Option<seq<Byte>>>, i: nat)
    requires |texts| == |events| && i <= |events|
  {
    exists j :: 0 <= j < i && Compressed(events[j]) && texts[j].None?
  }

  /** What the i-th event says: under context takeover nothing after a message was lost. */
  ghost predicate TextAt(events: seq<Event>, texts: seq<Option<seq<Byte>>>, i: nat, takeover: bool, flate: Flate)
    requires |texts| == |events| && i < |events|
  {
    if !Compressed(events[i]) then texts[i] == Some(events[i].payload)
    else if takeover && LostBefore(events, texts, i) then texts[i] == None
    else
      var said := Said(events[..i], texts[..i]);
      var window := if !takeover then [] else if |said| <= 0x8000 then said else said[|said| - 0x8000..];
      Inflates(flate, window, events[i].payload, texts[i])
  }

  ghost predicate Texts(events: seq<Event>, texts: seq<Option<seq<Byte>>>, takeover: bool, flate: Flate) {
    |texts| == |events| && forall i :: 0 <= i < |events| ==> TextAt(events, texts, i, takeover, flate)
  }

  /** No connection has two readings. */
  lemma {:induction false} OneReading(
    events: seq<Event>, a: seq<Option<seq<Byte>>>, b: seq<Option<seq<Byte>>>, takeover: bool, flate: Flate)
    requires Texts(events, a, takeover, flate) && Texts(events, b, takeover, flate)
    ensures a == b
  {
    hide Said, Inflates;
    if a != b {
      var i :| 0 <= i < |events| && a[i] != b[i] && a[..i] == b[..i] by { FirstDifference(a, b); }
      assert TextAt(events, a, i, takeover, flate) && TextAt(events, b, i, takeover, flate);
      assert forall j :: 0 <= j < i ==> a[j] == a[..i][j] && b[j] == b[..i][j];
      assert LostBefore(events, a, i) <==> LostBefore(events, b, i);
      InflatesOnce(flate, events[i].payload);
    }
  }

  lemma InflatesOnce(flate: Flate, payload: seq<Byte>)
    ensures forall window, x, y :: Inflates(flate, window, payload, x) && Inflates(flate, window, payload, y) ==> x == y
  {}

  lemma {:induction false} FirstDifference<T>(a: seq<T>, b: seq<T>)
    requires |a| == |b| && a != b
    ensures exists i :: 0 <= i < |a| && a[i] != b[i] && a[..i] == b[..i]
  {
    var i := 0;
    while a[i] == b[i]
      invariant 0 <= i < |a| && a[..i] == b[..i]
      invariant exists j :: i <= j < |a| && a[j] != b[j]
      decreases |a| - i
    {
      i := i + 1;
    }
  }

  // ----- a message against what it should say -----

  /** A close code is the first two bytes of a close frame, and its reason the rest. */
  predicate ReadsControl(m: Message, opcode: nat, payload: seq<Byte>) {
    && m.opcode == opcode && m.payload == payload && m.size == |payload|
    && !m.truncated && !m.compressed && !m.undecoded
    && if opcode == 8 && |payload| >= 2 then
         m.closeCode / 256 == payload[0] && m.closeCode % 256 == payload[1] && m.closeReason == payload[2..]
       else m.closeCode == 0 && m.closeReason == []
  }

  /** A text is cut to the limit, if there is one; its size is counted before. */
  predicate ReadsText(m: Message, opcode: nat, compressed: bool, text: seq<Byte>, limit: int) {
    && m.opcode == opcode && m.compressed == compressed && !m.undecoded
    && m.size == |text| && m.truncated == (0 <= limit < |text|)
    && m.payload == (if 0 <= limit < |text| then text[..limit] else text)
    && m.closeCode == 0 && m.closeReason == []
  }

  /** A message that could not be read has its size before decoding, or less if it was too large to buffer. */
  predicate ReadsNothing(m: Message, opcode: nat, payload: seq<Byte>) {
    && m.opcode == opcode && m.compressed && m.undecoded && m.payload == [] && !m.truncated
    && (if |payload| <= 0x80_0000 then m.size == |payload| else m.size <= 0x80_0000)
    && m.closeCode == 0 && m.closeReason == []
  }

  predicate Reads(m: Message, e: Event, text: Option<seq<Byte>>, limit: int) {
    match e
    case Control(opcode, payload) => ReadsControl(m, opcode, payload)
    case Data(opcode, compressed, payload) =>
      if text.Some? then ReadsText(m, opcode, compressed, text.value, limit) else compressed && ReadsNothing(m, opcode, payload)
  }

  lemma ControlReads(opcode: nat, payload: seq<Byte>)
    ensures ReadsControl(ControlMessage(opcode, payload), opcode, payload)
  {
    if |payload| >= 2 {
      assert payload[..2] == [payload[0], payload[1]];
      TwoBytes(payload[0], payload[1]);
    }
  }

  /** The decoder that a reading of the events so far leaves behind. */
  ghost function DecoderAfter(events: seq<Event>, texts: seq<Option<seq<Byte>>>, takeover: bool): Decoder
    requires |texts| == |events|
  {
    Decoder(takeover, if takeover then Said(events, texts) else [], takeover && LostBefore(events, texts, |events|))
  }

  /** One more event is read with the decoder that those before it leave. */
  lemma ReadNext(
    events: seq<Event>, texts: seq<Option<seq<Byte>>>, e: Event, takeover: bool, flate: Flate, limit: int)
    returns (text: Option<seq<Byte>>)
    requires |texts| == |events|
    ensures TextAt(events + [e], texts + [text], |events|, takeover, flate)
    ensures var (x, d) := Show(e, limit, flate, DecoderAfter(events, texts, takeover));
      && (forall m :: Shows(m, x) ==> Reads(m, e, text, limit))
      && d == DecoderAfter(events + [e], texts + [text], takeover)
  {
    var d := DecoderAfter(events, texts, takeover);
    var all := events + [e];
    assert all[..|events|] == events;
    if !Compressed(e) {
      text := Some(e.payload);
      if e.Control? {
        ControlReads(e.opcode, e.payload);
      }
    } else if |e.payload| > MAX_COMPRESSED {
      text := None;
    } else {
      text := Decode(flate, d, e.payload).1;
    }
    assert (texts + [text])[..|texts|] == texts;
    LostSnoc(events, texts, e, text);
  }

  lemma LostSnoc(events: seq<Event>, texts: seq<Option<seq<Byte>>>, e: Event, text: Option<seq<Byte>>)
    requires |texts| == |events|
    ensures LostBefore(events + [e], texts + [text], |events|) <==> LostBefore(events, texts, |events|)
    ensures LostBefore(events + [e], texts + [text], |events| + 1) <==>
      LostBefore(events, texts, |events|) || (Compressed(e) && text.None?)
  {
    var all, says := events + [e], texts + [text];
    assert forall j :: 0 <= j < |events| ==> all[j] == events[j] && says[j] == texts[j];
    assert all[|events|] == e && says[|events|] == text;
  }

  lemma TextsSnoc(
    events: seq<Event>, texts: seq<Option<seq<Byte>>>, e: Event, text: Option<seq<Byte>>, takeover: bool, flate: Flate)
    requires Texts(events, texts, takeover, flate) && TextAt(events + [e], texts + [text], |events|, takeover, flate)
    ensures Texts(events + [e], texts + [text], takeover, flate)
  {
    var all, says := events + [e], texts + [text];
    hide Said, Inflates;
    forall i | 0 <= i < |events|
      ensures TextAt(all, says, i, takeover, flate)
    {
      assert TextAt(events, texts, i, takeover, flate);
      assert all[..i] == events[..i] && says[..i] == texts[..i];
      assert forall j :: 0 <= j < i ==> all[j] == events[j] && says[j] == texts[j];
    }
  }

  ghost predicate ReadsAll(ms: seq<Message>, events: seq<Event>, texts: seq<Option<seq<Byte>>>, limit: int) {
    |ms| == |events| == |texts| && forall i :: 0 <= i < |ms| ==> Reads(ms[i], events[i], texts[i], limit)
  }

  /** Every connection has a reading, and the messages shown for its events say what it does. */
  lemma {:induction false} EveryMessageReads(events: seq<Event>, takeover: bool, flate: Flate, limit: int)
    returns (texts: seq<Option<seq<Byte>>>)
    ensures |texts| == |events| && Texts(events, texts, takeover, flate)
    ensures var (xs, d) := ShowAll(events, limit, flate, Decoder(takeover, [], false));
      && d == DecoderAfter(events, texts, takeover)
      && forall ms :: AllShow(ms, xs) ==> ReadsAll(ms, events, texts, limit)
    decreases |events|
  {
    hide TextAt, Said, Reads, Shows, Show, ShowAll, AllShow, ReadsAll, Texts, DecoderAfter;
    if events == [] {
      texts := [];
      NothingReads(takeover, flate, limit);
      return;
    }
    var n := |events| - 1;
    var front, e := events[..n], events[n];
    var before := EveryMessageReads(front, takeover, flate, limit);
    var text := ReadNext(front, before, e, takeover, flate, limit);
    texts := before + [text];
    assert events == front + [e];
    TextsSnoc(front, before, e, text, takeover, flate);
    var d0 := Decoder(takeover, [], false);
    ShowSnoc(front, e, limit, flate, d0);
    var (xs, d) := ShowAll(front, limit, flate, d0);
    ReadsSnoc(xs, Show(e, limit, flate, d).0, front, before, e, text, limit);
  }

  lemma NothingReads(takeover: bool, flate: Flate, limit: int)
    ensures Texts([], [], takeover, flate) && (forall ms :: AllShow(ms, []) ==> ReadsAll(ms, [], [], limit))
    ensures ShowAll([], limit, flate, Decoder(takeover, [], false)) == ([], DecoderAfter([], [], takeover))
  {}

  lemma ReadsSnoc(
    xs: seq<Shown>, x: Shown, events: seq<Event>, texts: seq<Option<seq<Byte>>>, e: Event, text: Option<seq<Byte>>, limit: int)
    requires |xs| == |events| == |texts|
    requires forall ms :: AllShow(ms, xs) ==> ReadsAll(ms, events, texts, limit)
    requires forall m :: Shows(m, x) ==> Reads(m, e, text, limit)
    ensures forall ms :: AllShow(ms, xs + [x]) ==> ReadsAll(ms, events + [e], texts + [text], limit)
  {
    hide Reads, Shows;
    var n := |xs|;
    forall ms | AllShow(ms, xs + [x])
      ensures ReadsAll(ms, events + [e], texts + [text], limit)
    {
      assert Shows(ms[n], (xs + [x])[n]);
      forall i | 0 <= i < n
        ensures Shows(ms[i], xs[i])
      {
        assert Shows(ms[i], (xs + [x])[i]);
      }
      var front := ms[..n];
      assert AllShow(front, xs);
      forall i | 0 <= i < n
        ensures Reads(ms[i], events[i], texts[i], limit)
      {
        assert Reads(front[i], events[i], texts[i], limit);
      }
    }
  }

  lemma NoneToInflate(events: seq<Event>, texts: seq<Option<seq<Byte>>>, takeover: bool, a: Flate, b: Flate)
    requires Texts(events, texts, takeover, a) && forall i :: 0 <= i < |events| ==> !Compressed(events[i])
    ensures Texts(events, texts, takeover, b)
  {
    forall i | 0 <= i < |events|
      ensures TextAt(events, texts, i, takeover, b)
    {
      assert TextAt(events, texts, i, takeover, a);
    }
  }

  /** Without the extension no message is compressed. */
  lemma {:induction false} NeverCompressed(s: seq<Byte>, st: MsgState)
    requires st.Open? ==> !st.compressed
    ensures var events := Run(s, st, false).events; forall i :: 0 <= i < |events| ==> !Compressed(events[i])
    decreases |s|
  {
    hide ReadHeader, HasHeader, Run;
    RunFront(s, st, false);
    var f := First(s, st, false);
    if f.Taken? {
      NeverCompressed(s[f.size..], f.next);
    }
  }
}
