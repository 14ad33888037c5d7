// Decoding of permessage-deflate messages (RFC 7692), from wsinspect/deflate.go.
// The DEFLATE decoder itself is a parameter: any function from a dictionary and
// an input to the chunks it writes and whether it then fails.

module Inflate {
  import opened Options
  import opened Bytes

  const MAX_WINDOW: nat := 0x8000
  const MAX_INFLATED: nat := 0x400_0000
  const DEFLATE_TAIL: seq<Byte> := [0x00, 0x00, 0xff, 0xff]

  /** The decoder's writes in order; failed is any error but running out of input. */
  datatype Flated = Flated(writes: seq<seq<Byte>>, failed: bool)

  /** From a dictionary (empty for none) and a compressed input. */
  type Flate = (seq<Byte>, seq<Byte>) -> Flated

  // ----- specification -----

  /** One direction's decoder: history is all it has output, kept only under context takeover. */
  datatype Decoder = Decoder(takeover: bool, history: seq<Byte>, broken: bool)
  {
    function Fail(): Decoder {
      if takeover then this.(broken := true) else this
    }

    function Dictionary(): seq<Byte> {
      if takeover then Last(history, MAX_WINDOW) else []
    }
  }

  /** The next decoder state and the whole output of one message, if it decodes. */
  function Decode(flate: Flate, d: Decoder, payload: seq<Byte>): (Decoder, Option<seq<Byte>>) {
    if d.broken then (d, None)
    else
      var f := flate(d.Dictionary(), payload + DEFLATE_TAIL);
      var out := Flatten(f.writes);
      if f.failed || |out| > MAX_INFLATED then (d.Fail(), None)
      else (if d.takeover then d.(history := d.history + out) else d, Some(out))
  }

  /** Decode a list of messages in order. */
  function DecodeAll(flate: Flate, d: Decoder, payloads: seq<seq<Byte>>): (r: (Decoder, seq<Option<seq<Byte>>>))
    ensures |r.1| == |payloads|
    decreases |payloads|
  {
    if payloads == [] then (d, [])
    else
      var (d1, out) := Decode(flate, d, payloads[0]);
      var (d2, outs) := DecodeAll(flate, d1, payloads[1..]);
      (d2, [out] + outs)
  }

  function Outputs(outs: seq<Option<seq<Byte>>>): seq<Byte> {
    if outs == [] then [] else (if outs[0].Some? then outs[0].value else []) + Outputs(outs[1..])
  }

  lemma DecodeFirst(flate: Flate, d: Decoder, payloads: seq<seq<Byte>>)
    requires payloads != []
    ensures var (d1, out) := Decode(flate, d, payloads[0]);
            var (e, outs) := DecodeAll(flate, d1, payloads[1..]);
            DecodeAll(flate, d, payloads) == (e, [out] + outs)
  {}

  lemma DecodeOne(flate: Flate, d: Decoder, payload: seq<Byte>)
    requires d.takeover
    ensures var (e, out) := Decode(flate, d, payload);
            e.takeover && e.history == d.history + Outputs([out]) && e.broken == out.None? && (d.broken ==> e.broken)
  {
    assert forall x: Option<seq<Byte>> :: [x][1..] == [];
  }

  /**
   * Under context takeover the history, whose last 32 KiB is the next
   * dictionary, is the concatenated output of every message so far.
   */
  lemma {:induction false} HistoryIsAllOutput(flate: Flate, d: Decoder, payloads: seq<seq<Byte>>)
    requires d.takeover
    ensures var (e, outs) := DecodeAll(flate, d, payloads);
            e.takeover && e.history == d.history + Outputs(outs)
    decreases |payloads|
  {
    hide Decode;
    if payloads != [] {
      var (d1, out) := Decode(flate, d, payloads[0]);
      DecodeOne(flate, d, payloads[0]);
      DecodeFirst(flate, d, payloads);
      HistoryIsAllOutput(flate, d1, payloads[1..]);
      var (e, outs) := DecodeAll(flate, d1, payloads[1..]);
      assert ([out] + outs)[1..] == outs;
      assert Outputs([out] + outs) == Outputs([out]) + Outputs(outs) by {
        assert [out][1..] == [];
      }
      assert d.history + Outputs([out]) + Outputs(outs) == d.history + (Outputs([out]) + Outputs(outs));
    }
  }

  /** Under context takeover, once one message fails to decode no later one does. */
  lemma {:induction false} BrokenForever(flate: Flate, d: Decoder, payloads: seq<seq<Byte>>, i: nat, j: nat)
    requires d.takeover && i < j < |payloads|
    requires d.broken || DecodeAll(flate, d, payloads).1[i].None?
    ensures DecodeAll(flate, d, payloads).1[j].None?
    decreases |payloads|
  {
    hide Decode;
    var (d1, out) := Decode(flate, d, payloads[0]);
    DecodeOne(flate, d, payloads[0]);
    DecodeFirst(flate, d, payloads);
    if j == 1 {
      assert d1.broken;
      DecodeFirst(flate, d1, payloads[1..]);
      DecodeOne(flate, d1, payloads[1]);
    } else {
      BrokenForever(flate, d1, payloads[1..], if i > 0 then i - 1 else 0, j - 1);
    }
  }

  /** What comes before a message decides how it decodes. */
  lemma {:induction false} DecodeAllAt(flate: Flate, d: Decoder, payloads: seq<seq<Byte>>, i: nat)
    requires i < |payloads|
    ensures DecodeAll(flate, d, payloads).1[..i] == DecodeAll(flate, d, payloads[..i]).1
    ensures DecodeAll(flate, d, payloads).1[i] == Decode(flate, DecodeAll(flate, d, payloads[..i]).0, payloads[i]).1
    decreases |payloads|
  {
    hide Decode;
    DecodeFirst(flate, d, payloads);
    if i > 0 {
      var d1 := Decode(flate, d, payloads[0]).0;
      assert payloads[..i][0] == payloads[0] && payloads[..i][1..] == payloads[1..][..i - 1];
      DecodeFirst(flate, d, payloads[..i]);
      DecodeAllAt(flate, d1, payloads[1..], i - 1);
    }
  }

  /** Under takeover a decoder is broken once a message failed; without, it is always the first one. */
  lemma {:induction false} BrokenIff(flate: Flate, d: Decoder, payloads: seq<seq<Byte>>)
    requires d.takeover || !d.broken
    ensures var (e, outs) := DecodeAll(flate, d, payloads);
      if d.takeover then e.takeover && (e.broken <==> d.broken || FailedBefore(outs, |outs|)) else e == d
    decreases |payloads|
  {
    hide FailedBefore;
    FailedFirst();
    if payloads != [] {
      var (d1, out) := Decode(flate, d, payloads[0]);
      if d.takeover {
        DecodeOne(flate, d, payloads[0]);
      }
      hide Decode;
      DecodeFirst(flate, d, payloads);
      BrokenIff(flate, d1, payloads[1..]);
      FailedMore(out, DecodeAll(flate, d1, payloads[1..]).1);
    }
  }

  /** One of the first n messages did not decode. */
  ghost predicate FailedBefore(outs: seq<Option<seq<Byte>>>, n: nat)
    requires n <= |outs|
  {
    exists j :: 0 <= j < n && outs[j].None?
  }

  lemma FailedFirst()
    ensures !FailedBefore([], 0)
  {}

  lemma FailedMore(out: Option<seq<Byte>>, outs: seq<Option<seq<Byte>>>)
    ensures FailedBefore([out] + outs, |outs| + 1) <==> out.None? || FailedBefore(outs, |outs|)
  {
    var all := [out] + outs;
    assert all[0] == out;
    assert forall j :: 0 <= j < |outs| ==> all[j + 1] == outs[j];
  }

  /**
   * How each of a list of messages decodes, by section 7.2.2 of RFC 7692: with the last
   * 32 KiB of what those before it decoded to as the window, if windows are kept, and
   * with none otherwise. Nothing does once one failed and windows are kept.
   */
  lemma DecodedFromWindow(flate: Flate, takeover: bool, payloads: seq<seq<Byte>>, i: nat)
    requires i < |payloads|
    ensures var e := DecodeAll(flate, Decoder(takeover, [], false), payloads).1;
      if takeover && FailedBefore(e, i) then e[i].None?
      else
        var before := Outputs(e[..i]);
        var window := if !takeover then [] else if |before| <= 0x8000 then before else before[|before| - 0x8000..];
        var f := flate(window, payloads[i] + [0x00, 0x00, 0xff, 0xff]);
        e[i] == if !f.failed && |Flatten(f.writes)| <= 0x400_0000 then Some(Flatten(f.writes)) else None
  {
    hide DecodeAll, Outputs;
    var d := Decoder(takeover, [], false);
    var e := DecodeAll(flate, d, payloads).1;
    DecodeAllAt(flate, d, payloads, i);
    BrokenIff(flate, d, payloads[..i]);
    if takeover {
      HistoryIsAllOutput(flate, d, payloads[..i]);
      assert [] + Outputs(e[..i]) == Outputs(e[..i]);
      assert forall j :: 0 <= j < i ==> e[..i][j] == e[j];
    }
  }

  // ----- the code -----

  lemma LastIs<T>(s: seq<T>, n: nat)
    ensures Last(s, n) == if |s| > n then s[|s| - n..] else s
  {}

  /** written is all output so far; kept, size and window are what the code has of it, and Valid says exactly what. */
  class InflateOutput {
    const limit: int
    const track: bool
    var kept: seq<Byte>
    var size: nat
    var window: seq<Byte>
    ghost const start: seq<Byte>
    ghost var written: seq<Byte>

    ghost predicate Valid()
      reads this
    {
      && kept == Prefix(written, limit)
      && size == |written|
      && window == if track then Last(start + written, MAX_WINDOW) else []
    }

    constructor (limit: int, track: bool, window: seq<Byte>)
      requires |window| <= MAX_WINDOW
      requires !track ==> window == []
      ensures Valid() && written == []
      ensures this.limit == limit && this.track == track && start == window
    {
      this.limit, this.track, this.window := limit, track, window;
      kept, size := [], 0;
      start, written := window, [];
      new;
      assert start + written == start;
    }

    method Write(b: seq<Byte>)
      requires Valid()
      modifies this
      ensures Valid() && written == old(written) + b
    {
      PrefixAppend(written, b, limit);
      LastAppend(start + written, b, MAX_WINDOW);
      Regroup(start, written, b);
      hide Last;
      LastIs(window + b, MAX_WINDOW);
      size := size + |b|;
      if limit < 0 || |kept| < limit {
        var keep := b;
        if limit >= 0 && |kept| + |keep| > limit {
          keep := keep[..limit - |kept|];
        }
        kept := kept + keep;
      }
      written := written + b;
      if !track {
        return;
      }
      window := window + b;
      if |window| > MAX_WINDOW {
        window := window[|window| - MAX_WINDOW..];
      }
    }
  }

  class Inflater {
    const takeover: bool
    const flate: Flate
    var window: seq<Byte>
    var broken: bool
    ghost var decoder: Decoder

    ghost predicate Valid()
      reads this
    {
      && decoder.takeover == takeover
      && decoder.broken == broken
      && (!takeover ==> !broken)
      && window == decoder.Dictionary()
    }

    constructor (takeover: bool, flate: Flate)
      ensures Valid()
      ensures decoder == Decoder(takeover, [], false) && this.flate == flate
    {
      this.takeover, this.flate := takeover, flate;
      window, broken := [], false;
      decoder := Decoder(takeover, [], false);
    }

    method Fail()
      requires Valid()
      modifies this
      ensures Valid() && decoder == old(decoder).Fail()
    {
      if takeover {
        broken := true;
      }
      decoder := decoder.Fail();
    }

    /** Takes the decoder one message further; the caller gets the output cut to limit, with its size before the cut. */
    method Inflate(payload: seq<Byte>, limit: int) returns (r: Option<(seq<Byte>, nat)>)
      requires Valid()
      modifies this
      ensures Valid()
      ensures var (d, out) := Decode(flate, old(decoder), payload);
              && decoder == d
              && r == if out.None? then None else Some((Prefix(out.value, limit), |out.value|))
    {
      if broken {
        return None;
      }
      var f := flate(window, payload + DEFLATE_TAIL);
      var out := new InflateOutput(limit, takeover, if takeover then window else []);
      var more := CopyLimited(f.writes, out);
      ghost var all := Flatten(f.writes);
      if (more && f.failed) || out.size > MAX_INFLATED {
        Fail();
        return None;
      }
      assert out.written == all;
      LastAppend(decoder.history, all, MAX_WINDOW);
      if takeover {
        window := out.window;
        decoder := decoder.(history := decoder.history + all);
      }
      return Some((out.kept, out.size));
    }
  }

  /**
   * Writes at most one byte more than a message may have; more is whether all
   * the decoder wrote went through, so that its own ending was seen.
   */
  method CopyLimited(writes: seq<seq<Byte>>, out: InflateOutput) returns (more: bool)
    requires out.Valid() && out.written == []
    modifies out
    ensures out.Valid() && out.written == Prefix(Flatten(writes), MAX_INFLATED + 1)
    ensures more <==> |Flatten(writes)| <= MAX_INFLATED
  {
    hide InflateOutput.Valid;
    var left := MAX_INFLATED + 1;
    var i := 0;
    while i < |writes| && left > 0
      invariant 0 <= i <= |writes| && out.Valid()
      invariant out.written == Prefix(Flatten(writes[..i]), MAX_INFLATED + 1)
      invariant left == MAX_INFLATED + 1 - |out.written|
    {
      FlattenSnoc(writes[..i], writes[i]);
      assert writes[..i + 1] == writes[..i] + [writes[i]];
      var chunk := Prefix(writes[i], left);
      out.Write(chunk);
      left := left - |chunk|;
      i := i + 1;
    }
    FlattenAppend(writes[..i], writes[i..]);
    assert writes == writes[..i] + writes[i..];
    more := left > 0;
  }
}
