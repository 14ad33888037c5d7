// The one thing that depends on where a stream is cut into chunks: how much of a
// compressed message is kept, and so the size that one too large to buffer reports. A
// part of a payload that arrives in one chunk is kept if it still fits, and dropped
// whole if it does not; a later part that fits is kept again.

module Cuts {
  import opened Bytes
  import opened Frames
  import opened Messages

  function BufferedSize(n: nat, more: nat): nat {
    if n + more > MAX_COMPRESSED then n else n + more
  }

  lemma BufferedLength(kept: seq<Byte>, chunk: seq<Byte>)
    ensures |Buffered(kept, chunk)| == BufferedSize(|kept|, |chunk|)
  {}

  // ----- one payload -----

  /** The last cut strictly between begin and end, or begin if there is none. */
  function LastCut(begin: nat, end: nat, cuts: set<nat>): (c: nat)
    requires begin < end
    ensures begin <= c < end && (c != begin ==> c in cuts)
    ensures forall d :: c < d < end ==> d !in cuts
    decreases end
  {
    if end - 1 == begin then begin
    else if end - 1 in cuts then end - 1
    else LastCut(begin, end - 1, cuts)
  }

  /** What is kept after the bytes of a payload from one position to another, having kept n before. */
  function KeptOver(n: nat, begin: nat, end: nat, cuts: set<nat>): nat
    decreases end
  {
    if end <= begin then n
    else
      var c := LastCut(begin, end, cuts);
      BufferedSize(KeptOver(n, begin, c, cuts), end - c)
  }

  lemma LastCutIs(begin: nat, c: nat, end: nat, cuts: set<nat>)
    requires begin <= c < end && (c == begin || c in cuts) && forall d :: c < d < end ==> d !in cuts
    ensures LastCut(begin, end, cuts) == c
  {}

  /** The part that arrives last, whole. */
  lemma KeptPart(n: nat, begin: nat, c: nat, end: nat, cuts: set<nat>)
    requires begin <= c < end && (c == begin || c in cuts) && forall d :: c < d < end ==> d !in cuts
    ensures KeptOver(n, begin, end, cuts) == BufferedSize(KeptOver(n, begin, c, cuts), end - c)
  {
    LastCutIs(begin, c, end, cuts);
  }

  /** Only cuts inside count. */
  lemma {:induction false} KeptInside(n: nat, begin: nat, end: nat, a: set<nat>, b: set<nat>)
    requires forall d :: begin < d < end ==> (d in a <==> d in b)
    ensures KeptOver(n, begin, end, a) == KeptOver(n, begin, end, b)
    decreases end
  {
    if end > begin {
      var c := LastCut(begin, end, a);
      LastCutIs(begin, c, end, b);
      KeptInside(n, begin, c, a, b);
    }
  }

  // ----- a stream -----

  /** For each message so far what was kept of it, and what is kept of the open one. */
  datatype Measure = Measure(sizes: seq<nat>, kept: nat)

  const NOTHING := Measure([], 0)

  /** What is kept of the message when one of its frames begins. */
  function Before(h: Header, m: Measure): nat {
    if h.opcode == OP_TEXT || h.opcode == OP_BINARY then 0 else m.kept
  }

  /** One frame with its payload between two positions of the stream; what a message keeps matters only if it is compressed. */
  function MeasureFrame(h: Header, st: MsgState, m: Measure, begin: nat, end: nat, cuts: set<nat>): Measure {
    if h.Control() then m.(sizes := m.sizes + [0])
    else
      var s := Begin(h, st);
      var kept := if s.Open? && s.compressed then KeptOver(Before(h, m), begin, end, cuts) else 0;
      if h.fin then Measure(m.sizes + [kept], 0) else Measure(m.sizes, kept)
  }

  /** The measure of a stream s whose first byte is at position pos. */
  function Measured(s: seq<Byte>, pos: nat, st: MsgState, m: Measure, deflate: bool, cuts: set<nat>): Measure
    decreases |s|
  {
    match First(s, st, deflate)
    case Taken(next, _, size) =>
      var h := ReadHeader(s);
      Measured(s[size..], pos + size, next, MeasureFrame(h, st, m, pos + h.size, pos + size, cuts), deflate, cuts)
    case _ => m
  }

  /** The measure of what follows the frame at the front, given what is known of that frame. */
  function Rest(s: seq<Byte>, pos: nat, st: MsgState, m: Measure, deflate: bool, cuts: set<nat>): Measure
    requires First(s, st, deflate).Taken?
  {
    var f, h := First(s, st, deflate), ReadHeader(s);
    Measured(s[f.size..], pos + f.size, f.next, MeasureFrame(h, st, m, pos + h.size, pos + f.size, cuts), deflate, cuts)
  }

  lemma MeasuredFront(s: seq<Byte>, pos: nat, st: MsgState, m: Measure, deflate: bool, cuts: set<nat>)
    ensures Measured(s, pos, st, m, deflate, cuts) == if First(s, st, deflate).Taken? then Rest(s, pos, st, m, deflate, cuts) else m
  {
    hide MeasureFrame;
  }

  lemma TakenFront(s: seq<Byte>, t: seq<Byte>, st: MsgState, deflate: bool)
    requires First(s, st, deflate).Taken?
    ensures var f := First(s, st, deflate);
            && First(s + t, st, deflate) == f && HasHeader(s) && HasHeader(s + t) && ReadHeader(s + t) == ReadHeader(s)
            && (s + t)[f.size..] == s[f.size..] + t
            && var a, b := Run(s, st, deflate), Run(s[f.size..], f.next, deflate); a.rest == b.rest && a.st == b.st && a.err == b.err
  {
    hide ReadHeader, Check, Finish, Run;
    FirstAppend(s, t, st, deflate);
    HeaderPrefix(s, t);
    RunFront(s, st, deflate);
  }

  lemma NotTaken(s: seq<Byte>, st: MsgState, deflate: bool)
    requires !First(s, st, deflate).Taken?
    ensures Run(s, st, deflate).rest == s && Run(s, st, deflate).st == st
  {}

  /** Past a part that holds only whole frames the measure goes on from what it was. */
  lemma {:induction false} MeasuredAppend(
    s: seq<Byte>, t: seq<Byte>, pos: nat, st: MsgState, m: Measure, deflate: bool, cuts: set<nat>)
    requires Run(s, st, deflate).rest == [] && Run(s, st, deflate).err.None?
    ensures Measured(s + t, pos, st, m, deflate, cuts)
            == Measured(t, pos + |s|, Run(s, st, deflate).st, Measured(s, pos, st, m, deflate, cuts), deflate, cuts)
    decreases |s|
  {
    hide First, Run, ReadHeader, HasHeader, MeasureFrame, Measured;
    MeasuredFront(s, pos, st, m, deflate, cuts);
    var f := First(s, st, deflate);
    if f.Taken? {
      TakenFront(s, t, st, deflate);
      var h := ReadHeader(s);
      MeasuredFront(s + t, pos, st, m, deflate, cuts);
      MeasuredAppend(s[f.size..], t, pos + f.size, f.next, MeasureFrame(h, st, m, pos + h.size, pos + f.size, cuts), deflate, cuts);
    } else {
      NotTaken(s, st, deflate);
      assert s + t == t;
    }
  }

  /** Cuts at or after the end of the stream do not count. */
  lemma {:induction false} MeasuredInside(
    s: seq<Byte>, pos: nat, st: MsgState, m: Measure, deflate: bool, a: set<nat>, b: set<nat>)
    requires forall d :: d < pos + |s| ==> (d in a <==> d in b)
    ensures Measured(s, pos, st, m, deflate, a) == Measured(s, pos, st, m, deflate, b)
    decreases |s|
  {
    hide First, ReadHeader, HasHeader, MeasureFrame, Measured;
    MeasuredFront(s, pos, st, m, deflate, a);
    MeasuredFront(s, pos, st, m, deflate, b);
    var f := First(s, st, deflate);
    if f.Taken? {
      TakenFront(s, [], st, deflate);
      var h := ReadHeader(s);
      FrameInside(h, st, m, pos + h.size, pos + f.size, a, b);
      MeasuredInside(s[f.size..], pos + f.size, f.next, MeasureFrame(h, st, m, pos + h.size, pos + f.size, a), deflate, a, b);
    }
  }

  lemma FrameInside(h: Header, st: MsgState, m: Measure, begin: nat, end: nat, a: set<nat>, b: set<nat>)
    requires forall d :: d < end ==> (d in a <==> d in b)
    ensures MeasureFrame(h, st, m, begin, end, a) == MeasureFrame(h, st, m, begin, end, b)
  {
    KeptInside(0, begin, end, a, b);
    KeptInside(m.kept, begin, end, a, b);
  }

  lemma OneFrame(s: seq<Byte>, pos: nat, st: MsgState, m: Measure, deflate: bool, cuts: set<nat>)
    requires HasHeader(s) && First(s, st, deflate).Taken? && First(s, st, deflate).size == |s|
    ensures var h := ReadHeader(s);
            Measured(s, pos, st, m, deflate, cuts) == MeasureFrame(h, st, m, pos + h.size, pos + |s|, cuts)
  {
    hide First, ReadHeader, MeasureFrame, Measured;
    MeasuredFront(s, pos, st, m, deflate, cuts);
    assert s[|s|..] == [];
    NothingMeasures(pos + |s|, First(s, st, deflate).next,
      MeasureFrame(ReadHeader(s), st, m, pos + ReadHeader(s).size, pos + |s|, cuts), deflate, cuts);
  }

  lemma NothingMeasures(pos: nat, st: MsgState, m: Measure, deflate: bool, cuts: set<nat>)
    ensures Measured([], pos, st, m, deflate, cuts) == m
  {}

  // ----- the buffer against the measure -----

  /**
   * In a frame with header h that began after done bytes, with now bytes come so far:
   * n, what is in the buffer, is what is kept of the open message if it is compressed.
   */
  predicate Holds(h: Header, st: MsgState, m: Measure, done: nat, now: nat, cuts: set<nat>, compressed: bool, n: nat) {
    if h.Control() then HoldsBetween(st, m, n) else compressed ==> n == KeptOver(Before(h, m), done + h.size, now, cuts)
  }

  /** Between frames. */
  predicate HoldsBetween(st: MsgState, m: Measure, n: nat) {
    st.Open? && st.compressed ==> n == m.kept
  }

  lemma HoldsInside(
    h: Header, st: MsgState, m: Measure, done: nat, now: nat, a: set<nat>, b: set<nat>, compressed: bool, n: nat)
    requires Holds(h, st, m, done, now, a, compressed, n) && forall d :: d < now ==> (d in a <==> d in b)
    ensures Holds(h, st, m, done, now, b, compressed, n)
  {
    KeptInside(Before(h, m), done + h.size, now, a, b);
  }

  lemma HoldsAtStart(h: Header, st: MsgState, m: Measure, done: nat, cuts: set<nat>, compressed: bool, n: nat)
    requires HoldsBetween(st, m, n)
    requires !h.Control() ==> Begin(h, st).Open? && Begin(h, st).compressed == compressed
    ensures Holds(h, st, m, done, done + h.size, cuts, compressed, if h.opcode == OP_TEXT || h.opcode == OP_BINARY then 0 else n)
  {}

  lemma HoldsAfter(
    h: Header, st: MsgState, m: Measure, done: nat, now: nat, more: nat, cuts: set<nat>, compressed: bool, n: nat, n1: nat)
    requires Holds(h, st, m, done, now, cuts, compressed, n) && more > 0 && done + h.size <= now
    requires (now in cuts || now == done + h.size) && forall c <- cuts :: c <= now
    requires if h.Control() then n1 == n else compressed ==> n1 == BufferedSize(n, more)
    ensures Holds(h, st, m, done, now + more, cuts, compressed, n1)
  {
    hide KeptOver, Before, BufferedSize;
    if !h.Control() && compressed {
      KeptPart(Before(h, m), done + h.size, now, now + more, cuts);
    }
  }

  /** At the end of the frame the buffer is what the measure goes on from. */
  lemma HoldsNext(
    h: Header, st: MsgState, m: Measure, done: nat, now: nat, cuts: set<nat>, compressed: bool, n: nat, data: seq<Byte>)
    requires Holds(h, st, m, done, now, cuts, compressed, n)
    requires !h.Control() ==> Begin(h, st).Open? && Begin(h, st).compressed == compressed
    ensures HoldsBetween(Finish(h, st, data).0, MeasureFrame(h, st, m, done + h.size, now, cuts), n)
  {}

  // ----- the messages -----

  /** A message that was not decoded reports what was kept of it. */
  predicate SizesAre(ms: seq<Message>, sizes: seq<nat>) {
    |ms| == |sizes| && forall i :: 0 <= i < |ms| && ms[i].undecoded ==> ms[i].size == sizes[i]
  }

  /** The frame's message, if it ends one, enters with what the buffer holds. */
  lemma SizesEntered(
    ms: seq<Message>, m: Measure, out: seq<Message>, h: Header, st: MsgState, done: nat, now: nat, cuts: set<nat>,
    compressed: bool, n: nat)
    requires SizesAre(ms, m.sizes) && Holds(h, st, m, done, now, cuts, compressed, n)
    requires !h.Control() ==> Begin(h, st).Open? && Begin(h, st).compressed == compressed
    requires |out| == if h.Control() || h.fin then 1 else 0
    requires forall i :: 0 <= i < |out| && out[i].undecoded ==> !h.Control() && compressed && out[i].size == n
    ensures SizesAre(ms + out, MeasureFrame(h, st, m, done + h.size, now, cuts).sizes)
  {
    hide KeptOver;
    assert ms + [] == ms;
  }

  /** Where chunks begin. */
  function CutsOf(chunks: seq<seq<Byte>>): set<nat> {
    if chunks == [] then {}
    else
      var front := chunks[..|chunks| - 1];
      CutsOf(front) + {|Flatten(front)|}
  }

  /** What is kept of a payload that begins after begin bytes of the stream, chunk by chunk. */
  function KeptOfChunks(chunks: seq<seq<Byte>>, begin: nat): nat {
    if chunks == [] then 0
    else
      var front := chunks[..|chunks| - 1];
      var came := |Flatten(front)| + |chunks[|chunks| - 1]|;
      if came <= begin then 0
      else BufferedSize(KeptOfChunks(front, begin), came - (if |Flatten(front)| < begin then begin else |Flatten(front)|))
  }

  lemma {:induction false} CutsBefore(chunks: seq<seq<Byte>>)
    ensures forall c <- CutsOf(chunks) :: c <= |Flatten(chunks)|
  {
    if chunks != [] {
      var front, last := chunks[..|chunks| - 1], chunks[|chunks| - 1];
      CutsBefore(front);
      FlattenSnoc(front, last);
      assert chunks == front + [last];
    }
  }

  /** One more chunk, from one position to another, brings what it has of the payload. */
  lemma MoreKept(begin: nat, at: nat, end: nat, a: set<nat>)
    requires at <= end && forall c <- a :: c <= at
    ensures KeptOver(0, begin, end, a + {at})
            == if end <= begin then 0 else BufferedSize(KeptOver(0, begin, at, a), end - (if at < begin then begin else at))
  {
    var cuts := a + {at};
    KeptInside(0, begin, at, cuts, a);
    if at <= begin < end {
      KeptPart(0, begin, begin, end, cuts);
    } else if begin < at < end {
      KeptPart(0, begin, at, end, cuts);
    }
  }

  /** Chunk by chunk and by cuts it is the same. */
  lemma {:induction false} KeptChunkByChunk(chunks: seq<seq<Byte>>, begin: nat)
    ensures KeptOver(0, begin, |Flatten(chunks)|, CutsOf(chunks)) == KeptOfChunks(chunks, begin)
  {
    hide KeptOver;
    if chunks == [] {
      NothingKept(begin);
    } else {
      hide Flatten;
      var front, last := chunks[..|chunks| - 1], chunks[|chunks| - 1];
      KeptChunkByChunk(front, begin);
      CutsBefore(front);
      assert chunks == front + [last];
      FlattenSnoc(front, last);
      MoreKept(begin, |Flatten(front)|, |Flatten(chunks)|, CutsOf(front));
    }
  }

  lemma NothingKept(begin: nat)
    ensures KeptOver(0, begin, 0, {}) == 0
  {}

  /** A message shown, with the size that was kept of it where nothing else says its size. */
  function Filled(x: Shown, size: nat): Message {
    match x
    case Exact(message) => message
    case Overflowed(op) => Message(op, [], size, false, true, true, 0, [])
  }

  predicate AreFilled(out: seq<Message>, xs: seq<Shown>, sizes: seq<nat>) {
    |out| == |xs| == |sizes| && forall i :: 0 <= i < |out| ==> out[i] == Filled(xs[i], sizes[i])
  }

  lemma FillIn(out: seq<Message>, xs: seq<Shown>, sizes: seq<nat>)
    requires AllShow(out, xs) && SizesAre(out, sizes)
    ensures AreFilled(out, xs, sizes)
  {}

  lemma CutsSnoc(front: seq<seq<Byte>>, last: seq<Byte>)
    ensures CutsOf(front + [last]) == CutsOf(front) + {|Flatten(front)|}
  {
    assert (front + [last])[..|front|] == front;
  }

  lemma CutsOfNone()
    ensures CutsOf([]) == {}
  {}

  // ----- what the size may be -----

  /** In one part a message too large for the buffer leaves nothing behind. */
  lemma UncutKeepsNothing(begin: nat, end: nat, cuts: set<nat>)
    requires end > begin + MAX_COMPRESSED && forall d :: begin < d < end ==> d !in cuts
    ensures KeptOver(0, begin, end, cuts) == 0
  {
    KeptPart(0, begin, begin, end, cuts);
  }

  /**
   * With one cut it keeps the part before, or the part after, whichever fits and
   * comes first, or neither: so the size reported does depend on the cut.
   */
  lemma OneCutKeepsOnePart(begin: nat, cut: nat, end: nat)
    requires begin < cut < end && end > begin + MAX_COMPRESSED
    ensures KeptOver(0, begin, end, {cut})
            == if cut - begin <= MAX_COMPRESSED then cut - begin else if end - cut <= MAX_COMPRESSED then end - cut else 0
  {
    KeptPart(0, begin, cut, end, {cut});
    KeptPart(0, begin, begin, cut, {cut});
  }

  /** A buffer that is full stays as it is, however the rest is cut. */
  lemma {:induction false} FullStaysFull(begin: nat, end: nat, cuts: set<nat>)
    ensures KeptOver(MAX_COMPRESSED, begin, end, cuts) == MAX_COMPRESSED
    decreases end
  {
    if end > begin {
      FullStaysFull(begin, LastCut(begin, end, cuts), cuts);
    }
  }

  /** Of what fits nothing is lost, however it is cut. */
  lemma {:induction false} WhatFitsIsKept(n: nat, begin: nat, end: nat, cuts: set<nat>)
    requires begin <= end && n + (end - begin) <= MAX_COMPRESSED
    ensures KeptOver(n, begin, end, cuts) == n + (end - begin)
    decreases end
  {
    if end > begin {
      WhatFitsIsKept(n, begin, LastCut(begin, end, cuts), cuts);
    }
  }
}
