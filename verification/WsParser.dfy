// The incremental parser of wsinspect/parser.go, and the proof that it refines
// the whole-stream parse: whatever chunks the bytes arrive in, the messages and
// the error are those of Frames.Run followed by Messages.ShowAll.

module WsParser {
  import opened Options
  import opened Bytes
  import opened Frames
  import opened Inflate
  import opened Messages
  import opened Wire
  import opened Cuts
  import opened Reading

  function NoFlate(): Flate {
    (_, _) => Flated([], true)
  }

  class Parser {
    const limit: int
    const inflater: Inflater?

    const header: array<Byte>
    var headerLen: nat

    var inFrame: bool
    var remaining: nat
    var opcode: nat
    var fin: bool
    var masked: bool
    const mask: array<Byte>
    var maskPos: nat

    var control: seq<Byte>

    var inMessage: bool
    var msgOpcode: nat
    var compressed: bool
    var payload: seq<Byte>
    var size: nat
    var truncated: bool
    var overflow: bool

    var err: Option<ProtocolError>

    // fed is every byte so far: done, made of complete frames, then rest.
    ghost var fed: seq<Byte>
    ghost var done: seq<Byte>
    ghost var rest: seq<Byte>
    ghost var events: seq<Event>
    ghost var st: MsgState
    ghost var emitted: seq<Message>
    // Where chunks began, and what was kept of the messages in done.
    ghost var cuts: set<nat>
    ghost var measure: Measure

    ghost function Footprint(): set<object> {
      {this, header, mask} + (if inflater != null then {inflater} else {})
    }

    ghost function Deflate(): bool { inflater != null }

    ghost function TheFlate(): Flate {
      if inflater != null then inflater.flate else NoFlate()
    }

    ghost function FreshDecoder(): Decoder {
      if inflater != null then Decoder(inflater.takeover, [], false) else Decoder(false, [], false)
    }

    /** What the fields say about the payload of the message under assembly. */
    ghost predicate Assembled(s: MsgState)
      requires s.Open?
      reads `msgOpcode, `compressed, `payload, `size, `truncated, `overflow
    {
      && msgOpcode == s.opcode
      && compressed == s.compressed
      && (s.compressed ==>
            && Deflate()
            && |payload| <= MAX_COMPRESSED
            && overflow == (|s.data| > MAX_COMPRESSED)
            && (!overflow ==> payload == s.data))
      && (!s.compressed ==>
            && payload == Prefix(s.data, limit)
            && size == |s.data|
            && truncated == (limit >= 0 && |s.data| > limit))
    }

    ghost predicate Assembling(s: MsgState)
      reads `inMessage, `msgOpcode, `compressed, `payload, `size, `truncated, `overflow
    {
      inMessage == s.Open? && (s.Open? ==> Assembled(s))
    }

    /** The fields describe header h. */
    ghost predicate Describes(h: Header)
      reads `opcode, `fin, `masked, mask
    {
      && opcode == h.opcode
      && fin == h.fin
      && masked == h.key.Some?
      && (h.key.Some? ==> mask[..] == h.key.value)
    }

    /** A legal header has been read, got is what has been consumed of its payload and left what has not. */
    ghost predicate InPayload(h: Header, got: seq<Byte>, left: nat)
      requires h.key.Some? ==> |h.key.value| == 4
      reads `st, `opcode, `fin, `masked, `maskPos, `control
      reads `inMessage, `msgOpcode, `compressed, `payload, `size, `truncated, `overflow, mask
    {
      && Describes(h)
      && Check(h, st.Open?, Deflate()).None?
      && |got| + left == h.length
      && (masked ==> maskPos == |got|)
      && (if h.Control() then control == Mask(h.key, 0, got) && Assembling(st)
          else Assembling(Grow(Begin(h, st), Mask(h.key, 0, got))))
    }

    /** The current frame carries compressed data. */
    ghost predicate Buffering()
      reads `opcode, `compressed
    {
      opcode < 8 && compressed
    }

    ghost predicate InHeader()
      requires Shape()
      reads `rest, `st, `headerLen, header
      reads `inMessage, `msgOpcode, `compressed, `payload, `size, `truncated, `overflow
    {
      headerLen == |rest| && headerLen <= 14 && header[..headerLen] == rest && !HasHeader(rest) && Assembling(st)
    }

    /** rest is a legal header and part of its payload, with left bytes still to come. */
    ghost predicate InFrame(left: nat)
      reads `rest, `headerLen, `st, `opcode, `fin, `masked, `maskPos, `control
      reads `inMessage, `msgOpcode, `compressed, `payload, `size, `truncated, `overflow, mask
    {
      && HasHeader(rest)
      && headerLen == 0
      && var h := ReadHeader(rest);
         h.size <= |rest| && InPayload(h, rest[h.size..], left)
    }

    /** What has been emitted, and the decoder, are what the events so far are shown as. */
    ghost predicate ShownSoFar()
      reads `events, `emitted, inflater
    {
      var shown := ShowAll(events, limit, TheFlate(), FreshDecoder());
      && AllShow(emitted, shown.0)
      && (inflater != null ==> inflater.Valid() && inflater.decoder == shown.1)
    }

    /** The part of the invariant about the past: complete frames and what they were shown as. */
    ghost predicate Past()
      reads `done, `events, `st, `emitted, inflater
    {
      Run(done, Idle, Deflate()) == Outcome(events, st, [], None) && ShownSoFar()
    }

    ghost predicate Shape()
    {
      header.Length == 14 && mask.Length == 4 && header != mask
    }

    ghost predicate Valid()
      reads Footprint()
    {
      && Shape()
      && Past()
      && fed == done + rest
      && if err.Some? then First(rest, st, Deflate()) == Illegal(err.value)
         else if inFrame then InFrame(remaining) && remaining > 0
         else InHeader()
    }

    /**
     * The books on what is kept: of the messages emitted, and of the open one in the
     * payload buffer.
     */
    ghost predicate Tallied()
      reads `fed, `done, `rest, `st, `emitted, `cuts, `measure, `err, `inFrame, `opcode, `compressed, `payload
    {
      && TalliedPast()
      && (forall c <- cuts :: c <= |fed|)
      && (err.None? && inFrame ==> HasHeader(rest) && Holds(ReadHeader(rest), st, measure, |done|, |fed|, cuts, compressed, |payload|))
      && (err.None? && !inFrame ==> HoldsBetween(st, measure, |payload|))
    }

    ghost predicate TalliedPast()
      reads `done, `emitted, `cuts, `measure
    {
      Measured(done, 0, Idle, NOTHING, Deflate(), cuts) == measure && SizesAre(emitted, measure.sizes)
    }

    /** In a frame, what comes next follows a cut or the header. */
    ghost predicate AtCut()
      reads `fed, `done, `rest, `cuts, `inFrame
    {
      inFrame ==> HasHeader(rest) && (|fed| in cuts || |fed| == |done| + ReadHeader(rest).size)
    }

    constructor (limit: int, inflater: Inflater?)
      requires inflater != null ==> inflater.Valid() && inflater.decoder == Decoder(inflater.takeover, [], false)
      ensures Valid() && fresh(Footprint() - {inflater}) && this.limit == limit && this.inflater == inflater
      ensures fed == [] && emitted == [] && err.None? && cuts == {} && Tallied()
    {
      this.limit, this.inflater := limit, inflater;
      header, mask := new Byte[14], new Byte[4];
      headerLen, inFrame, remaining, opcode, fin, masked, maskPos, control := 0, false, 0, 0, false, false, 0, [];
      inMessage, msgOpcode, compressed, payload, size, truncated, overflow := false, 0, false, [], 0, false, false;
      err := None;
      fed, done, rest, events, st, emitted := [], [], [], [], Idle, [];
      cuts, measure := {}, NOTHING;
      new;
      hide Valid, Tallied, ShownSoFar;
      Begins();
    }

    lemma Begins()
      requires Shape() && headerLen == 0 && !inFrame && !inMessage && err.None?
      requires fed == done == rest == [] && events == [] && st == Idle && emitted == [] && cuts == {} && measure == NOTHING
      requires inflater != null ==> inflater.Valid() && inflater.decoder == Decoder(inflater.takeover, [], false)
      ensures Valid() && Tallied()
    {
      hide Run, ShowAll, AllShow, Measured, Holds, First, ReadHeader, InFrame, Assembled;
      EmptyRun(Idle);
      NothingShown();
    }

    lemma NothingShown()
      ensures ShowAll([], limit, TheFlate(), FreshDecoder()) == ([], FreshDecoder()) && AllShow([], [])
      ensures Measured([], 0, Idle, NOTHING, Deflate(), {}) == NOTHING
    {}

    /** The fields hold exactly the outcome of parsing everything fed so far in one go. */
    lemma Meaning()
      requires Valid()
      ensures var r := Run(fed, Idle, Deflate());
              && r.err == err
              && r == Outcome(events, st, rest, err)
              && AllShow(emitted, ShowAll(r.events, limit, TheFlate(), FreshDecoder()).0)
    {
      RunAppend(done, rest, Idle, Deflate());
      RunFront(rest, st, Deflate());
      var none: seq<Byte> := [];
      assert none + rest == rest;
      NothingTaken();
      assert events + [] == events;
    }

    /** And the books those of everything fed so far. */
    lemma Books()
      requires Valid() && Tallied()
      ensures SizesAre(emitted, KeptSizes(fed, Deflate(), cuts))
    {
      Meaning();
      hide Run, First, InFrame, InHeader, ShownSoFar, Measured, SizesAre, Holds, HoldsBetween;
      MeasuredAppend(done, rest, 0, Idle, NOTHING, Deflate(), cuts);
      MeasuredFront(rest, |done|, st, measure, Deflate(), cuts);
      NothingTaken();
    }

    lemma NothingTaken()
      requires Valid()
      ensures !First(rest, st, Deflate()).Taken?
    {
      if err.None? && inFrame {
        var h := ReadHeader(rest);
        assert |rest| < h.size + h.length;
      }
    }

    /** Ends inside a legal frame, with the header that breaks a rule, or with all of b and no whole header yet. */
    method ReadFrameHeader(b: seq<Byte>) returns (left: seq<Byte>)
      requires Valid() && err.None? && !inFrame && b != []
      modifies this`headerLen, this`rest, this`fed, this`fin, this`opcode, this`masked, this`maskPos, this`err, this`control,
               this`inFrame, this`remaining, this`inMessage, this`msgOpcode, this`compressed, this`payload, this`size,
               this`truncated, this`overflow, header, mask
      ensures Past() && fed == done + rest
      ensures err.Some? ==> !inFrame
      ensures err.None? ==> if inFrame then PayloadStarts(old(|payload|)) else payload == old(payload)
      ensures |left| < |b| && b == b[..|b| - |left|] + left && fed == old(fed) + b[..|b| - |left|]
      ensures if err.Some? then First(rest, st, Deflate()) == Illegal(err.value)
              else if inFrame then InFrame(remaining)
              else left == [] && InHeader()
    {
      hide ReadHeader, First, Run, Check, ShowAll, AllShow, ShownSoFar, InPayload, Assembling, Describes;
      var complete;
      left, complete := GatherHeader(b);
      if complete {
        InterpretHeader();
      }
    }

    /** A frame has just begun: a new message has nothing in the buffer, any other frame leaves it alone. */
    ghost predicate PayloadStarts(was: nat)
      reads `rest, `opcode, `payload
    {
      && HasHeader(rest) && |rest| == ReadHeader(rest).size
      && |payload| == if opcode == OP_TEXT || opcode == OP_BINARY then 0 else was
    }

    method GatherHeader(b: seq<Byte>) returns (left: seq<Byte>, complete: bool)
      requires Shape() && InHeader() && fed == done + rest && b != []
      modifies this`headerLen, this`rest, this`fed, header
      ensures fed == done + rest
      ensures |left| < |b| && b == b[..|b| - |left|] + left && fed == old(fed) + b[..|b| - |left|]
      ensures headerLen == |rest| <= 14 && header[..headerLen] == rest
      ensures complete ==> HasHeader(rest) && |rest| == HeaderSize(rest[1])
      ensures !complete ==> left == [] && InHeader()
    {
      hide ReadHeader, Assembling;
      left, complete := FillHeader(b, rest);
      ghost var used := b[..|b| - |left|];
      assert fed + used == done + (rest + used);
      rest, fed := rest + used, fed + used;
    }

    /** Moves bytes into the header buffer until it holds a whole header or they run out. */
    method FillHeader(b: seq<Byte>, ghost had: seq<Byte>) returns (left: seq<Byte>, complete: bool)
      requires Shape() && headerLen == |had| <= 14 && header[..headerLen] == had && !HasHeader(had) && b != []
      modifies this`headerLen, header
      ensures |left| < |b| && b == b[..|b| - |left|] + left
      ensures var now := had + b[..|b| - |left|];
              && headerLen == |now| <= 14 && header[..headerLen] == now
              && complete == HasHeader(now)
              && (complete ==> |now| == HeaderSize(now[1]))
              && (!complete ==> left == [])
    {
      hide HeaderSize;
      var need := 2;
      if headerLen >= 2 {
        assert header[1] == had[1];
        need := HeaderSize(header[1]);
      }
      left := b;
      while headerLen < need && left != []
        invariant left == b[|b| - |left|..] && |left| <= |b|
        invariant headerLen == |had| + (|b| - |left|) <= need <= 14 && (left == b ==> headerLen < need)
        invariant forall i :: 0 <= i < |had| ==> header[i] == had[i]
        invariant forall i :: |had| <= i < headerLen ==> header[i] == b[i - |had|]
        invariant need == if headerLen >= 2 then HeaderSize(header[1]) else 2
        decreases |left|
      {
        header[headerLen] := left[0];
        headerLen := headerLen + 1;
        left := left[1..];
        if headerLen == 2 {
          need := HeaderSize(header[1]);
        }
      }
      assert header[..headerLen] == had + b[..|b| - |left|];
      complete := headerLen >= need;
    }

    /** Decodes the gathered header and starts the frame it announces, or fails. */
    method InterpretHeader()
      requires Shape() && Assembling(st) && err.None? && !inFrame
      requires headerLen == |rest| <= 14 && header[..headerLen] == rest
      requires HasHeader(rest) && |rest| == HeaderSize(rest[1])
      modifies this`headerLen, this`fin, this`opcode, this`masked, this`maskPos, this`err, this`control, this`inFrame,
               this`remaining, this`inMessage, this`msgOpcode, this`compressed, this`payload, this`size,
               this`truncated, this`overflow, mask
      ensures if err.Some? then First(rest, st, Deflate()) == Illegal(err.value)
              else inFrame && InFrame(remaining) && PayloadStarts(old(|payload|))
      ensures err.Some? ==> !inFrame
    {
      hide Run, ReadHeader, Check, Assembling, Describes;
      ghost var hd := ReadHeader(rest);
      var reserved, rsv1, length := DecodeHeader();
      headerLen := 0;
      err := CheckHeader(reserved, rsv1, length, hd);
      if err.Some? {
        return;
      }
      StartFrame(rsv1, length, hd);
    }

    /** A legal header has just been decoded: its frame begins. */
    method StartFrame(rsv1: bool, length: nat, ghost hd: Header)
      requires HasHeader(rest) && hd == ReadHeader(rest) && |rest| == hd.size && headerLen == 0 && maskPos == 0
      requires Shape() && Describes(hd) && Assembling(st) && Check(hd, st.Open?, Deflate()).None?
      requires rsv1 == hd.rsv1 && length == hd.length
      modifies this`control, this`inFrame, this`remaining, this`inMessage, this`msgOpcode, this`compressed,
               this`payload, this`size, this`truncated, this`overflow
      ensures inFrame && InFrame(remaining) && PayloadStarts(old(|payload|))
    {
      hide ReadHeader, HasHeader, Check, InFrame, Assembling, Begin;
      OpenFrame(rsv1, hd);
      inFrame := true;
      remaining := length;
      FrameBegins(hd);
    }

    /** The buffer that the frame's payload goes to is ready for it. */
    method OpenFrame(rsv1: bool, ghost hd: Header)
      requires Describes(hd) && Assembling(st) && Check(hd, st.Open?, Deflate()).None? && rsv1 == hd.rsv1
      modifies this`control, this`inMessage, this`msgOpcode, this`compressed, this`payload, this`size, this`truncated,
               this`overflow
      ensures if hd.Control() then control == [] && Assembling(st) else Assembling(Begin(hd, st))
      ensures |payload| == if opcode == OP_TEXT || opcode == OP_BINARY then 0 else old(|payload|)
    {
      CheckedHeader(hd, st.Open?, Deflate());
      hide Check, Assembling;
      if opcode >= 8 {
        control := [];
      } else if opcode != OP_CONTINUATION {
        StartMessage(opcode, rsv1);
      }
    }

    lemma FrameBegins(hd: Header)
      requires HasHeader(rest) && hd == ReadHeader(rest) && |rest| == hd.size && headerLen == 0 && maskPos == 0
      requires Describes(hd) && Check(hd, st.Open?, Deflate()).None?
      requires if hd.Control() then control == [] && Assembling(st) else Assembling(Begin(hd, st))
      ensures InFrame(hd.length)
    {
      hide ReadHeader, Check, InPayload, Describes, Assembling, Begin;
      assert rest[hd.size..] == [];
      PayloadBegins(hd);
    }

    lemma PayloadBegins(hd: Header)
      requires (hd.key.Some? ==> |hd.key.value| == 4) && Describes(hd) && Check(hd, st.Open?, Deflate()).None? && maskPos == 0
      requires if hd.Control() then control == [] && Assembling(st) else Assembling(Begin(hd, st))
      ensures InPayload(hd, [], hd.length)
    {
      hide Check, Assembling, Begin;
      GrowNothing(Begin(hd, st), hd.key);
    }

    method DecodeHeader() returns (reserved: bool, rsv1: bool, length: nat)
      requires Shape()
      requires headerLen == |rest| <= 14 && header[..headerLen] == rest
      requires HasHeader(rest) && |rest| == HeaderSize(rest[1])
      modifies this`fin, this`opcode, this`masked, this`maskPos, mask
      ensures maskPos == 0 && Describes(ReadHeader(rest))
      ensures var h := ReadHeader(rest); reserved == h.reserved && rsv1 == h.rsv1 && length == h.length
    {
      var h := header[..headerLen];
      fin := h[0] >= 128;
      rsv1 := (h[0] / 64) % 2 == 1;
      opcode := h[0] % 16;
      masked := h[1] >= 128;
      maskPos := 0;
      length := h[1] % 128;
      var pos := 2;
      if length == 126 {
        length := BigEndian(h[2..4]);
        pos := 4;
      } else if length == 127 {
        length := BigEndian(h[2..10]);
        pos := 10;
      }
      if masked {
        forall i | 0 <= i < 4 {
          mask[i] := h[pos + i];
        }
        assert mask[..] == h[pos..pos + 4];
      }
      reserved := (h[0] / 16) % 4 != 0;
    }

    method CheckHeader(reserved: bool, rsv1: bool, length: nat, ghost hd: Header) returns (e: Option<ProtocolError>)
      requires Assembling(st) && Describes(hd)
      requires reserved == hd.reserved && rsv1 == hd.rsv1 && length == hd.length
      ensures e == Check(hd, st.Open?, Deflate())
    {
      if reserved || (rsv1 && inflater == null) {
        return Some(ReservedBits);
      }
      var isControl := opcode >= 8;
      if isControl && (!fin || length > 125) {
        return Some(ControlTooLong);
      } else if isControl && rsv1 {
        return Some(ControlCompressed);
      } else if isControl {
        if opcode != OP_CLOSE && opcode != OP_PING && opcode != OP_PONG {
          return Some(UnknownControl);
        }
      } else if opcode == OP_CONTINUATION {
        if !inMessage {
          return Some(OrphanContinuation);
        }
      } else if opcode == OP_TEXT || opcode == OP_BINARY {
        if inMessage {
          return Some(NestedMessage);
        }
      } else {
        return Some(UnknownData);
      }
      return None;
    }

    lemma GrowNothing(s: MsgState, key: Option<seq<Byte>>)
      requires key.Some? ==> |key.value| == 4
      ensures Grow(s, Mask(key, 0, [])) == s
    {
      if s.Open? {
        assert s.data + [] == s.data;
      }
    }

    method StartMessage(op: nat, isCompressed: bool)
      requires isCompressed ==> inflater != null
      modifies this`inMessage, this`msgOpcode, this`compressed, this`payload, this`size, this`truncated, this`overflow
      ensures Assembling(Open(op, isCompressed, [])) && payload == []
    {
      inMessage, msgOpcode, compressed := true, op, isCompressed;
      payload, size, truncated, overflow := [], 0, false, false;
    }

    /** The payload read so far grows by chunk; the invariant says what the buffers hold of it. */
    method Consume(chunk: seq<Byte>)
      requires Shape() && InFrame(remaining + |chunk|) && fed == done + rest
      modifies this`control, this`overflow, this`payload, this`size, this`truncated, this`maskPos, this`rest, this`fed
      ensures InFrame(remaining) && fed == old(fed) + chunk && fed == done + rest
      ensures old(HasHeader(rest)) && HasHeader(rest) && ReadHeader(rest) == old(ReadHeader(rest))
      ensures Buffering() ==> |payload| == BufferedSize(old(|payload|), |chunk|)
      ensures opcode >= 8 ==> payload == old(payload)
    {
      hide ReadHeader, InPayload;
      ghost var h := ReadHeader(rest);
      ghost var got := rest[h.size..];
      ConsumePayload(chunk, h, got);
      HeaderPrefix(rest, chunk);
      assert (rest + chunk)[h.size..] == got + chunk;
      assert fed + chunk == done + (rest + chunk);
      rest, fed := rest + chunk, fed + chunk;
    }

    lemma GrowMore(s: MsgState, key: Option<seq<Byte>>, got: seq<Byte>, chunk: seq<Byte>)
      requires key.Some? ==> |key.value| == 4
      ensures Grow(s, Mask(key, 0, got + chunk)) == Grow(Grow(s, Mask(key, 0, got)), Mask(key, |got|, chunk))
    {
      hide Mask;
      MaskAppend(key, 0, got, chunk);
      var a, b := Mask(key, 0, got), Mask(key, |got|, chunk);
      if s.Open? {
        assert s.data + (a + b) == (s.data + a) + b;
      }
    }

    /** The payload of a data frame goes to an open message, compressed as the fields say. */
    lemma MessageIsOpen(h: Header, got: seq<Byte>, left: nat)
      requires (h.key.Some? ==> |h.key.value| == 4) && InPayload(h, got, left) && opcode < 8
      ensures var s := Grow(Begin(h, st), Mask(h.key, 0, got)); s.Open? && s.compressed == compressed && Assembling(s)
    {
      hide Mask;
    }

    method ConsumePayload(chunk: seq<Byte>, ghost h: Header, ghost got: seq<Byte>)
      requires Shape() && (h.key.Some? ==> |h.key.value| == 4) && InPayload(h, got, remaining + |chunk|)
      modifies this`control, this`overflow, this`payload, this`size, this`truncated, this`maskPos
      ensures InPayload(h, got + chunk, remaining)
      ensures Buffering() ==> |payload| == BufferedSize(old(|payload|), |chunk|)
      ensures opcode >= 8 ==> payload == old(payload)
    {
      hide Check, Buffered, BufferedSize, Prefix, Assembled;
      if opcode >= 8 {
        MaskAppend(h.key, 0, got, chunk);
        hide Mask;
        var dst := AppendUnmasked(control, chunk, h);
        control := dst;
        return;
      }
      ghost var s := Grow(Begin(h, st), Mask(h.key, 0, got));
      GrowMore(Begin(h, st), h.key, got, chunk);
      MessageIsOpen(h, got, remaining + |chunk|);
      hide Mask, Grow, Begin;
      if compressed {
        BufferedLength(payload, Mask(h.key, maskPos, chunk));
        ConsumeCompressed(chunk, h, s);
      } else {
        ConsumePlain(chunk, h, s);
      }
    }

    method ConsumeCompressed(chunk: seq<Byte>, ghost h: Header, ghost s: MsgState)
      requires Shape() && Describes(h) && (h.key.Some? ==> |h.key.value| == 4)
      requires s.Open? && s.compressed && Assembling(s)
      modifies this`overflow, this`payload, this`maskPos
      ensures Assembling(Grow(s, Mask(h.key, old(maskPos), chunk)))
      ensures payload == Buffered(old(payload), Mask(h.key, old(maskPos), chunk))
      ensures masked ==> maskPos == old(maskPos) + |chunk|
    {
      if |payload| + |chunk| > MAX_COMPRESSED {
        overflow := true;
        maskPos := maskPos + |chunk|;
        return;
      }
      var dst := AppendUnmasked(payload, chunk, h);
      payload := dst;
    }

    method ConsumePlain(chunk: seq<Byte>, ghost h: Header, ghost s: MsgState)
      requires Shape() && Describes(h) && (h.key.Some? ==> |h.key.value| == 4)
      requires s.Open? && !s.compressed && Assembling(s)
      modifies this`size, this`truncated, this`payload, this`maskPos
      ensures Assembling(Grow(s, Mask(h.key, old(maskPos), chunk)))
      ensures masked ==> maskPos == old(maskPos) + |chunk|
    {
      hide Mask, Prefix;
      size := size + |chunk|;
      var keep := |chunk|;
      if limit >= 0 && |payload| + keep > limit {
        keep := limit - |payload|;
        truncated := true;
      }
      PlainKept(s.data, h.key, maskPos, chunk, limit);
      var dst := AppendUnmasked(payload, chunk[..keep], h);
      payload := dst;
      maskPos := maskPos + (|chunk| - keep);
    }

    method AppendUnmasked(dst: seq<Byte>, chunk: seq<Byte>, ghost h: Header) returns (r: seq<Byte>)
      requires Shape() && Describes(h) && (h.key.Some? ==> |h.key.value| == 4)
      modifies this`maskPos
      ensures r == dst + Mask(h.key, old(maskPos), chunk)
      ensures maskPos == old(maskPos) + (if masked then |chunk| else 0)
    {
      hide Xor;
      r := dst + chunk;
      if masked {
        var i := |dst|;
        ghost var target := dst + Mask(h.key, maskPos, chunk);
        while i < |r|
          invariant |dst| <= i <= |r| == |target|
          invariant maskPos == old(maskPos) + (i - |dst|)
          invariant forall k :: 0 <= k < i ==> r[k] == target[k]
          invariant forall k :: i <= k < |r| ==> r[k] == chunk[k - |dst|]
        {
          r := r[i := Xor(r[i], mask[maskPos % 4])];
          maskPos := maskPos + 1;
          i := i + 1;
        }
      }
    }

    /** A frame whose payload is all in is what the rest begins and ends with. */
    lemma RestIsFrame()
      requires Shape() && InFrame(0)
      ensures var h := ReadHeader(rest);
              var (next, evs) := Finish(h, st, Mask(h.key, 0, rest[h.size..]));
              First(rest, st, Deflate()) == Taken(next, evs, |rest|)
    {
      hide ReadHeader, Mask, Finish, Assembling, Describes;
      var h := ReadHeader(rest);
      assert rest[h.size..h.size + h.length] == rest[h.size..];
    }

    /** A frame whose payload is all in completes the stream so far. */
    lemma Completes()
      requires Shape() && Past() && InFrame(0)
      ensures var h := ReadHeader(rest);
              var (next, evs) := Finish(h, st, Mask(h.key, 0, rest[h.size..]));
              Run(done + rest, Idle, Deflate()) == Outcome(events + evs, next, [], None)
    {
      RestIsFrame();
      hide ReadHeader, Mask, Finish, First, Run, InFrame, ShownSoFar;
      var h := ReadHeader(rest);
      var (next, evs) := Finish(h, st, Mask(h.key, 0, rest[h.size..]));
      RunAppend(done, rest, Idle, Deflate());
      EmptyFirst(rest);
      RunFront(rest, st, Deflate());
      assert rest[|rest|..] == [];
      EmptyRun(next);
    }

    lemma EmptyRun(s: MsgState)
      ensures Run([], s, Deflate()) == Outcome([], s, [], None)
    {}

    /** What is known of a frame whose payload is all in. */
    lemma FrameFacts()
      requires Shape() && InFrame(0)
      ensures HasHeader(rest) && ReadHeader(rest).size <= |rest|
      ensures var h := ReadHeader(rest); var data := Mask(h.key, 0, rest[h.size..]);
        && headerLen == 0 && Describes(h) && Check(h, st.Open?, Deflate()).None?
        && if h.Control() then control == data && Assembling(st) else Assembling(Grow(Begin(h, st), data))
    {
      hide ReadHeader, Check, Mask, Assembling, Grow, Begin, Describes;
    }

    /** With all its payload in, the frame becomes part of the past, and out is what its event is shown as. */
    method EndFrame() returns (out: seq<Message>)
      requires Shape() && Past() && InFrame(0) && err.None? && fed == done + rest
      modifies this`inFrame, this`inMessage, this`events, this`st, this`done, this`rest, this`emitted, inflater
      ensures Valid() && err.None? && !inFrame
      ensures emitted == old(emitted) + out
      ensures |out| == (if opcode >= 8 || fin then 1 else 0) && LostSize(out, Buffering(), |payload|)
      ensures done == old(fed) && rest == []
      ensures old(HasHeader(rest) && ReadHeader(rest).size <= |rest|)
      ensures var h := old(ReadHeader(rest)); st == Finish(h, old(st), Mask(h.key, 0, old(rest)[h.size..])).0
    {
      hide Run, First, ReadHeader, Check, Finish, Mask, ShownSoFar, Assembling, Grow, Begin, Describes, InFrame,
           LostSize, Buffering, Valid, InHeader;
      FrameFacts();
      ghost var h := ReadHeader(rest);
      ghost var data := Mask(h.key, 0, rest[h.size..]);
      Completes();
      inFrame := false;
      out := EmitEvents(h, data);
      done, rest, st := done + rest, [], Finish(h, st, data).0;
      hide Past, InFrame;
      BetweenFrames();
    }

    lemma BetweenFrames()
      requires Shape() && Past() && fed == done && rest == [] && err.None? && !inFrame && headerLen == 0 && Assembling(st)
      ensures Valid()
    {
      hide Past, InFrame, Assembling, First;
      assert done + [] == done;
    }

    method EmitEvents(ghost h: Header, ghost data: seq<Byte>) returns (out: seq<Message>)
      requires Shape() && ShownSoFar() && Describes(h) && Check(h, st.Open?, Deflate()).None?
      requires if h.Control() then control == data && Assembling(st) else Assembling(Grow(Begin(h, st), data))
      modifies this`inMessage, this`events, this`emitted, inflater
      ensures ShownSoFar() && Assembling(Finish(h, st, data).0)
      ensures events == old(events) + Finish(h, st, data).1 && emitted == old(emitted) + out
      ensures |out| == (if opcode >= 8 || fin then 1 else 0) && LostSize(out, Buffering(), |payload|)
    {
      hide Run, ShowAll, AllShow, Show, Check, ControlMessage, Finish;
      FinishCases(h, st, data, Deflate());
      ghost var d := ShowAll(events, limit, TheFlate(), FreshDecoder()).1;
      out := [];
      if opcode >= 8 {
        var msg := EndControl();
        out := [msg];
        ShowControl(h.opcode, data, limit, TheFlate(), d);
        Record(Control(h.opcode, data), msg, d);
      } else if fin {
        ghost var grown := Grow(Begin(h, st), data);
        var msg := EndMessage(grown, d);
        inMessage := false;
        out := [msg];
        Record(Data(grown.opcode, grown.compressed, grown.data), msg, d);
      } else {
        assert events + [] == events && emitted + out == emitted;
      }
    }

    /** One more event has been shown as msg. */
    ghost method Record(e: Event, msg: Message, d: Decoder)
      requires AllShow(emitted, ShowAll(events, limit, TheFlate(), FreshDecoder()).0)
      requires d == ShowAll(events, limit, TheFlate(), FreshDecoder()).1
      requires Shows(msg, Show(e, limit, TheFlate(), d).0)
      modifies this`events, this`emitted
      ensures events == old(events) + [e] && emitted == old(emitted) + [msg]
      ensures var shown := ShowAll(events, limit, TheFlate(), FreshDecoder());
              AllShow(emitted, shown.0) && shown.1 == Show(e, limit, TheFlate(), d).1
    {
      ShowSnoc(events, e, limit, TheFlate(), FreshDecoder());
      AllShowSnoc(emitted, ShowAll(events, limit, TheFlate(), FreshDecoder()).0, msg, Show(e, limit, TheFlate(), d).0);
      events, emitted := events + [e], emitted + [msg];
    }

    method EndControl() returns (msg: Message)
      ensures msg == ControlMessage(opcode, control) && !msg.undecoded
    {
      msg := Message(opcode, control, |control|, false, false, false, 0, []);
      if opcode == OP_CLOSE && |control| >= 2 {
        msg := msg.(closeCode := BigEndian(control[..2]), closeReason := control[2..]);
      }
    }

    /** The message that the finished payload makes, decompressed if it must be. */
    method EndMessage(ghost grown: MsgState, ghost d: Decoder) returns (msg: Message)
      requires grown.Open? && Assembled(grown)
      requires inflater != null ==> inflater.Valid() && inflater.decoder == d
      modifies inflater
      ensures var (x, d1) := Show(Data(grown.opcode, grown.compressed, grown.data), limit, TheFlate(), d);
              && Shows(msg, x)
              && (inflater != null ==> inflater.Valid() && inflater.decoder == d1)
      ensures msg.undecoded ==> compressed && msg.size == |payload|
    {
      if !compressed {
        return Message(msgOpcode, payload, size, truncated, false, false, 0, []);
      }
      if overflow {
        inflater.Fail();
        return Message(msgOpcode, [], |payload|, false, true, true, 0, []);
      }
      var r := inflater.Inflate(payload, limit);
      if r.None? {
        return Message(msgOpcode, [], |payload|, false, true, true, 0, []);
      }
      var (decoded, full) := r.value;
      return Message(msgOpcode, decoded, full, limit >= 0 && full > limit, true, false, 0, []);
    }

    /** What the invariant says of the frame that the parser is in. */
    lemma FrameNow(left: nat)
      requires Shape() && InFrame(left)
      ensures HasHeader(rest) && ReadHeader(rest).size <= |rest|
      ensures var h := ReadHeader(rest);
        && opcode == h.opcode && fin == h.fin
        && (opcode < 8 ==> Begin(h, st).Open? && Begin(h, st).compressed == compressed)
    {
      hide ReadHeader, Mask, Check;
      var h := ReadHeader(rest);
      if opcode < 8 {
        MessageIsOpen(h, rest[h.size..], left);
      }
    }

    /** A chunk begins here. */
    ghost method BeginChunk()
      requires Valid() && Tallied()
      modifies this`cuts
      ensures Valid() && Tallied() && (err.None? ==> AtCut()) && cuts == old(cuts) + {|fed|}
    {
      hide Run, First, ReadHeader, HasHeader, ShownSoFar, Measured, Holds, InPayload;
      var more := cuts + {|fed|};
      MeasuredInside(done, 0, Idle, NOTHING, Deflate(), cuts, more);
      if inFrame && err.None? {
        HoldsInside(ReadHeader(rest), st, measure, |done|, |fed|, cuts, more, compressed, |payload|);
      }
      cuts := more;
    }

    /** After any b the fields and what has been emitted are those of the whole stream up to here. */
    method Feed(b: seq<Byte>) returns (out: seq<Message>)
      requires Valid() && Tallied()
      modifies Footprint()
      ensures Valid() && Tallied() && cuts == old(cuts) + {old(|fed|)}
      ensures fed == old(fed) + b && emitted == old(emitted) + out
    {
      hide Valid, Tallied, AtCut;
      BeginChunk();
      out := [];
      var left := b;
      ghost var used: seq<Byte> := [];
      while left != [] && err.None?
        invariant Valid() && Tallied() && (left != [] && err.None? ==> AtCut()) && cuts == old(cuts) + {old(|fed|)}
        invariant b == used + left && fed == old(fed) + used
        invariant emitted == old(emitted) + out
        decreases |left|
      {
        ghost var before := left;
        var msgs;
        left, msgs := FeedSome(left);
        ghost var taken := before[..|before| - |left|];
        Regroup(used, taken, left);
        Regroup(old(fed), used, taken);
        Regroup(old(emitted), out, msgs);
        out := out + msgs;
        used := used + taken;
      }
      // After an error the remaining input is ignored.
      Ignore(left);
    }

    /** One turn of the loop: the rest of a header or of a payload, as far as the bytes go. */
    method FeedSome(b: seq<Byte>) returns (left: seq<Byte>, out: seq<Message>)
      requires Valid() && Tallied() && AtCut() && err.None? && b != []
      modifies Footprint()
      ensures Valid() && Tallied() && (left != [] && err.None? ==> AtCut())
      ensures cuts == old(cuts) && emitted == old(emitted) + out
      ensures |left| < |b| && b == b[..|b| - |left|] + left && fed == old(fed) + b[..|b| - |left|]
    {
      hide First, Past, InFrame, InHeader, Tallied, AtCut;
      out := [];
      if !inFrame {
        left := HeaderSome(b);
        if err.Some? || !inFrame {
          return;
        }
      } else {
        left := PayloadSome(b);
      }
      if remaining == 0 {
        out := EndSome();
      }
      assert !inFrame ==> AtCut() by { OutsideIsAtCut(); }
    }

    lemma OutsideIsAtCut()
      ensures !inFrame ==> AtCut()
    {}

    /** Reading a header keeps the books: nothing has come of the payload yet. */
    method HeaderSome(b: seq<Byte>) returns (left: seq<Byte>)
      requires Valid() && Tallied() && err.None? && !inFrame && b != []
      modifies this`headerLen, this`rest, this`fed, this`fin, this`opcode, this`masked, this`maskPos, this`err, this`control,
               this`inFrame, this`remaining, this`inMessage, this`msgOpcode, this`compressed, this`payload, this`size,
               this`truncated, this`overflow, header, mask
      ensures Shape() && Past() && fed == done + rest && Tallied()
      ensures |left| < |b| && b == b[..|b| - |left|] + left && fed == old(fed) + b[..|b| - |left|]
      ensures if err.Some? then First(rest, st, Deflate()) == Illegal(err.value) && !inFrame
              else if inFrame then InFrame(remaining) && AtCut()
              else left == [] && InHeader()
    {
      hide Run, First, ReadHeader, HasHeader, Check, Begin, Past, InFrame, InHeader, Measured, Holds, SizesAre;
      left := ReadFrameHeader(b);
      if err.None? && inFrame {
        FrameNow(remaining);
        HoldsAtStart(ReadHeader(rest), st, measure, |done|, cuts, compressed, old(|payload|));
      }
    }

    /** A part of a payload is kept or dropped as the books say. */
    method PayloadSome(b: seq<Byte>) returns (left: seq<Byte>)
      requires Valid() && Tallied() && AtCut() && err.None? && inFrame && b != []
      modifies this`control, this`overflow, this`payload, this`size, this`truncated, this`maskPos, this`rest, this`fed, this`remaining
      ensures Shape() && Past() && fed == done + rest && Tallied() && InFrame(remaining)
      ensures |left| < |b| && b == b[..|b| - |left|] + left && fed == old(fed) + b[..|b| - |left|]
      ensures left != [] ==> remaining == 0
    {
      hide Run, First, ReadHeader, HasHeader, Check, Begin, Past, InHeader, InPayload, Measured, Holds, SizesAre, BufferedSize;
      var n := if |b| > remaining then remaining else |b|;
      left := b[n..];
      FrameNow(remaining);
      remaining := remaining - n;
      Consume(b[..n]);
      HoldsAfter(ReadHeader(rest), st, measure, |done|, old(|fed|), n, cuts, compressed, old(|payload|), |payload|);
    }

    /** A frame at its end is entered in the books. */
    method EndSome() returns (out: seq<Message>)
      requires Shape() && Past() && InFrame(0) && inFrame && err.None? && fed == done + rest && Tallied()
      modifies this`inFrame, this`inMessage, this`events, this`st, this`done, this`rest, this`emitted, this`measure, inflater
      ensures Valid() && Tallied() && err.None? && !inFrame
      ensures emitted == old(emitted) + out
    {
      hide Run, First, ReadHeader, HasHeader, Check, Begin, Finish, Mask, Past, InFrame, Measured, Holds, HoldsBetween, SizesAre,
           MeasureFrame, Valid;
      FrameNow(0);
      EndsMeasure();
      ghost var h := ReadHeader(rest);
      ghost var data := Mask(h.key, 0, rest[h.size..]);
      HoldsNext(h, st, measure, |done|, |fed|, cuts, compressed, |payload|, data);
      measure := MeasureFrame(h, st, measure, |done| + h.size, |fed|, cuts);
      out := EndFrame();
      SizesEntered(old(emitted), old(measure), out, h, old(st), |old(done)|, |fed|, cuts, compressed, |payload|);
    }

    /** The whole of done and this frame measures what the frame adds to the measure of done. */
    lemma EndsMeasure()
      requires Shape() && Past() && InFrame(0) && TalliedPast()
      ensures HasHeader(rest)
      ensures var h := ReadHeader(rest);
        Measured(done + rest, 0, Idle, NOTHING, Deflate(), cuts)
        == MeasureFrame(h, st, measure, |done| + h.size, |done| + |rest|, cuts)
    {
      hide ReadHeader, HasHeader, First, Run, InFrame, ShownSoFar, Measured, MeasureFrame, Finish, Mask;
      FrameNow(0);
      RestIsFrame();
      MeasuredAppend(done, rest, 0, Idle, NOTHING, Deflate(), cuts);
      OneFrame(rest, |done|, st, measure, Deflate(), cuts);
    }

    /** Input after an error changes nothing but what has been fed. */
    ghost method Ignore(left: seq<Byte>)
      requires Valid() && Tallied() && (left == [] || err.Some?)
      modifies this`fed, this`rest
      ensures Valid() && Tallied() && fed == old(fed) + left
    {
      hide First, Run, ReadHeader, ShownSoFar, Measured, Holds;
      if err.None? {
        return;
      }
      FirstAppend(rest, left, st, Deflate());
      assert done + (rest + left) == done + rest + left;
      fed, rest := fed + left, rest + left;
    }
  }

  /** What a chunk adds to the kept part of a message cut at limit. */
  lemma PlainKept(data: seq<Byte>, key: Option<seq<Byte>>, pos: nat, chunk: seq<Byte>, limit: int)
    requires key.Some? ==> |key.value| == 4
    ensures limit >= 0 ==> |Prefix(data, limit)| <= limit
    ensures limit >= 0 ==>
      (|data| + |chunk| > limit <==> |data| > limit || |Prefix(data, limit)| + |chunk| > limit)
    ensures var n := |Prefix(data, limit)|;
      var keep := if limit >= 0 && n + |chunk| > limit then limit - n else |chunk|;
      0 <= keep <= |chunk|
      && Prefix(data, limit) + Mask(key, pos, chunk[..keep]) == Prefix(data + Mask(key, pos, chunk), limit)
  {
    hide Mask;
    var n := |Prefix(data, limit)|;
    var keep := if limit >= 0 && n + |chunk| > limit then limit - n else |chunk|;
    MaskAppend(key, pos, chunk[..keep], chunk[keep..]);
    assert chunk == chunk[..keep] + chunk[keep..];
    var m := Mask(key, pos, chunk);
    assert m[..keep] == Mask(key, pos, chunk[..keep]);
    PrefixAppend(data, m, limit);
  }

  /** Messages that were not decoded were buffered, and report this size. */
  predicate LostSize(ms: seq<Message>, buffering: bool, n: nat) {
    forall i :: 0 <= i < |ms| && ms[i].undecoded ==> buffering && ms[i].size == n
  }

  // ----- whole connections -----

  function DecoderFor(deflate: Option<bool>): Decoder {
    Decoder(deflate.Some? && deflate.value, [], false)
  }

  function FlateFor(deflate: Option<bool>, flate: Flate): Flate {
    if deflate.Some? then flate else NoFlate()
  }

  /** What a connection carrying stream should be shown as; deflate says whether windows are kept. */
  function Expected(stream: seq<Byte>, limit: int, deflate: Option<bool>, flate: Flate): seq<Shown> {
    ShowAll(Run(stream, Idle, deflate.Some?).events, limit, FlateFor(deflate, flate), DecoderFor(deflate)).0
  }

  /** What is kept of each message of a stream whose chunks begin at cuts, if it is compressed. */
  function KeptSizes(stream: seq<Byte>, deflate: bool, cuts: set<nat>): seq<nat> {
    Measured(stream, 0, Idle, NOTHING, deflate, cuts).sizes
  }

  /**
   * Feeding a stream in any chunks gives the error of parsing it whole, and its
   * messages, each saying what its event says; only the size of those too large to
   * buffer depends on the chunks, and is what was kept of them.
   */
  method ParseChunks(limit: int, deflate: Option<bool>, flate: Flate, chunks: seq<seq<Byte>>)
    returns (out: seq<Message>, err: Option<ProtocolError>, ghost texts: seq<Option<seq<Byte>>>)
    ensures var events := Run(Flatten(chunks), Idle, deflate.Some?).events;
      Texts(events, texts, deflate == Some(true), flate) && ReadsAll(out, events, texts, limit)
    ensures AllShow(out, Expected(Flatten(chunks), limit, deflate, flate))
    ensures AreFilled(out, Expected(Flatten(chunks), limit, deflate, flate), KeptSizes(Flatten(chunks), deflate.Some?, CutsOf(chunks)))
    ensures err == Run(Flatten(chunks), Idle, deflate.Some?).err
    ensures deflate == Some(true) ==>
      forall i, j :: 0 <= i < j < |out| && out[i].undecoded && out[j].compressed ==> out[j].undecoded
  {
    hide Run, ShowAll, AllShow, AreFilled, Texts, ReadsAll, Parser.Valid, Parser.Tallied, CutsOf, Measured;
    var inflater: Inflater? := null;
    if deflate.Some? {
      inflater := new Inflater(deflate.value, flate);
    }
    var p := new Parser(limit, inflater);
    out := [];
    var i := 0;
    assert p.cuts == CutsOf(chunks[..0]) by { CutsOfNone(); }
    while i < |chunks|
      invariant 0 <= i <= |chunks|
      invariant p.Valid() && fresh(p.Footprint()) && p.limit == limit && p.inflater == inflater
      invariant p.fed == Flatten(chunks[..i]) && p.emitted == out
      invariant p.Tallied() && p.cuts == CutsOf(chunks[..i])
    {
      FlattenSnoc(chunks[..i], chunks[i]);
      CutsSnoc(chunks[..i], chunks[i]);
      assert chunks[..i + 1] == chunks[..i] + [chunks[i]];
      var msgs := p.Feed(chunks[i]);
      out := out + msgs;
      i := i + 1;
    }
    assert chunks[..i] == chunks;
    p.Meaning();
    p.Books();
    err := p.err;
    texts := StreamReads(Flatten(chunks), limit, deflate, flate);
    FillIn(out, Expected(Flatten(chunks), limit, deflate, flate), KeptSizes(Flatten(chunks), deflate.Some?, CutsOf(chunks)));
    if deflate == Some(true) {
      forall i, j | 0 <= i < j < |out| && out[i].undecoded && out[j].compressed
        ensures out[j].undecoded
      {
        UndecodedForever(Run(Flatten(chunks), Idle, true).events, out, i, j, limit, FlateFor(deflate, flate), DecoderFor(deflate));
      }
    }
  }

  /** What a whole stream says, and that its messages say it. */
  lemma StreamReads(stream: seq<Byte>, limit: int, deflate: Option<bool>, flate: Flate) returns (texts: seq<Option<seq<Byte>>>)
    ensures var events := Run(stream, Idle, deflate.Some?).events;
      && Texts(events, texts, deflate == Some(true), flate)
      && forall ms :: AllShow(ms, Expected(stream, limit, deflate, flate)) ==> ReadsAll(ms, events, texts, limit)
  {
    hide Run, ShowAll, AllShow, ReadsAll, Texts, DecoderAfter;
    var events := Run(stream, Idle, deflate.Some?).events;
    texts := EveryMessageReads(events, deflate == Some(true), FlateFor(deflate, flate), limit);
    if deflate.None? {
      NeverCompressed(stream, Idle);
      assert events == Run(stream, Idle, false).events;
      NoneToInflate(events, texts, false, NoFlate(), flate);
    }
  }

  /** Two ways of cutting up one stream agree, except on the size of messages too large to buffer. */
  method ParseTwice(limit: int, deflate: Option<bool>, flate: Flate, a: seq<seq<Byte>>, b: seq<seq<Byte>>)
    returns (x: seq<Message>, y: seq<Message>, errA: Option<ProtocolError>, errB: Option<ProtocolError>)
    requires Flatten(a) == Flatten(b)
    ensures errA == errB && |x| == |y| == |Expected(Flatten(a), limit, deflate, flate)|
    ensures forall i :: 0 <= i < |x| ==>
              || x[i] == y[i]
              || (Expected(Flatten(a), limit, deflate, flate)[i].Overflowed? && x[i] == y[i].(size := x[i].size))
  {
    ghost var says;
    x, errA, says := ParseChunks(limit, deflate, flate, a);
    y, errB, says := ParseChunks(limit, deflate, flate, b);
    var xs := Expected(Flatten(a), limit, deflate, flate);
    OnlySizeDiffers(x, y, xs);
    assert forall i :: 0 <= i < |x| ==> Shows(x[i], xs[i]);
  }

  /**
   * Messages sent in any fragments, masks, length encodings and chunks, compressed or
   * not, with control frames in between, come out in order, each saying what was sent:
   * a text is cut to the limit, a compressed one after being inflated with the window
   * that the texts before it leave, and a close frame gives its code and reason.
   */
  method Transmit(limit: int, deflate: Option<bool>, flate: Flate, ms: seq<WireMessage>, chunks: seq<seq<Byte>>)
    returns (out: seq<Message>, err: Option<ProtocolError>, ghost texts: seq<Option<seq<Byte>>>)
    requires Flatten(chunks) == Encode(MessageFrames(ms)) && MayCompress(ms, deflate.Some?)
    ensures err.None?
    ensures Texts(Meaning(ms), texts, deflate == Some(true), flate) && ReadsAll(out, Meaning(ms), texts, limit)
  {
    hide Run, AllShow, AreFilled, Texts, ReadsAll, Encode, MessageFrames;
    out, err, texts := ParseChunks(limit, deflate, flate, chunks);
    MessagesRoundTrip(ms, deflate.Some?);
  }

  // ----- a message too large to buffer -----

  /** A whole message of compressed data, more than will be buffered, in one frame. */
  predicate Oversized(f: Frame) {
    && f.fin && f.rsv1 && (f.opcode == OP_TEXT || f.opcode == OP_BINARY)
    && |f.payload| > MAX_COMPRESSED
  }

  lemma OversizedFront(f: Frame)
    requires Oversized(f)
    ensures var s := f.Encode();
      && First(s, Idle, true) == Taken(Idle, [Data(f.opcode, true, f.payload)], |s|)
      && HasHeader(s) && ReadHeader(s) == f.Head() && f.Head().size == |f.HeadBytes()|
  {
    var s, h := f.Encode(), f.Head();
    FrameRoundTrip(f, [], Idle, true);
    HeadRoundTrip(f, Mask(f.key, 0, f.payload));
    assert s + [] == s;
    assert [] + f.payload == f.payload;
    assert Check(h, false, true).None?;
    assert Finish(h, Idle, f.payload) == (Idle, [Data(f.opcode, true, f.payload)]);
    hide First, Check, Finish, Mask, RawFrame.HeadBytes;
  }

  lemma OversizedWhole(f: Frame)
    requires Oversized(f)
    ensures Run(f.Encode(), Idle, true) == Outcome([Data(f.opcode, true, f.payload)], Idle, [], None)
  {
    var s := f.Encode();
    OversizedFront(f);
    hide First, ReadHeader, HasHeader, RawFrame.Encode, RawFrame.Head, Run;
    RunFront(s, Idle, true);
    assert s[|s|..] == [];
    NothingRuns();
  }

  lemma NothingRuns()
    ensures Run([], Idle, true) == Outcome([], Idle, [], None)
  {}

  lemma OversizedKept(f: Frame, cuts: set<nat>)
    requires Oversized(f)
    ensures KeptSizes(f.Encode(), true, cuts) == [KeptOver(0, |f.HeadBytes()|, |f.Encode()|, cuts)]
  {
    OversizedFront(f);
    hide First, ReadHeader, HasHeader, RawFrame.Encode, RawFrame.HeadBytes, Measured, KeptOver;
    OneFrame(f.Encode(), 0, Idle, NOTHING, true, cuts);
  }

  /**
   * The size that such a message reports is not its own: whatever chunks it comes in,
   * it is the sum of what each brought of the payload, but for those that did not fit
   * when they came.
   */
  method ParseOversized(limit: int, takeover: bool, flate: Flate, f: Frame, chunks: seq<seq<Byte>>)
    returns (out: seq<Message>)
    requires Oversized(f) && Flatten(chunks) == f.Encode()
    ensures out == [Message(f.opcode, [], KeptOfChunks(chunks, |f.HeadBytes()|), false, true, true, 0, [])]
  {
    hide Run, ShowAll, AllShow, KeptOver, KeptOfChunks, KeptSizes, CutsOf, RawFrame.HeadBytes, RawFrame.Encode;
    var err;
    ghost var says;
    out, err, says := ParseChunks(limit, Some(takeover), flate, chunks);
    OversizedWhole(f);
    OversizedKept(f, CutsOf(chunks));
    KeptChunkByChunk(chunks, |f.HeadBytes()|);
    OverflowedAlone(f, limit, flate, Decoder(takeover, [], false));
  }

  lemma OverflowedAlone(f: Frame, limit: int, flate: Flate, d: Decoder)
    requires Oversized(f)
    ensures ShowAll([Data(f.opcode, true, f.payload)], limit, flate, d).0 == [Overflowed(f.opcode)]
  {
    var e := Data(f.opcode, true, f.payload);
    EmptyFirst([e]);
    ShowSnoc([], e, limit, flate, d);
  }

  lemma EmptyFirst<T>(a: seq<T>)
    ensures [] + a == a
  {}
}
