// Bytes, masking, big-endian numbers and the sequence helpers shared by the
// WebSocket modules.

module Bytes {
  import opened Options

  type Byte = b: int | 0 <= b < 256

  /** Bit by bit: the sum of two bits without the carry. */
  function XorBits(a: nat, b: nat, bits: nat): nat {
    if bits == 0 then 0 else (a + b) % 2 + 2 * XorBits(a / 2, b / 2, bits - 1)
  }

  function Xor(a: Byte, b: Byte): Byte {
    XorBound(a, b, 8);
    XorBits(a, b, 8)
  }

  function Pow2(n: nat): nat {
    if n == 0 then 1 else 2 * Pow2(n - 1)
  }

  lemma {:induction false} XorBound(a: nat, b: nat, bits: nat)
    ensures XorBits(a, b, bits) < Pow2(bits)
    ensures Pow2(8) == 256
  {
    if bits > 0 {
      XorBound(a / 2, b / 2, bits - 1);
    }
    assert Pow2(8) == 2 * Pow2(7) && Pow2(7) == 2 * Pow2(6) && Pow2(6) == 2 * Pow2(5) && Pow2(5) == 2 * Pow2(4);
  }

  lemma Halves(r: nat, y: nat)
    requires r < 2
    ensures (r + 2 * y) / 2 == y && (r + 2 * y) % 2 == r
  {}

  lemma Parity(a: nat, b: nat, y: nat)
    ensures ((a + b) % 2 + 2 * y + b) % 2 == a % 2
  {}

  lemma HalfBound(a: nat, n: nat)
    requires a < 2 * n
    ensures a / 2 < n
  {}

  lemma XorStep(a: nat, b: nat, bits: nat)
    requires bits > 0
    ensures XorBits(a, b, bits) == (a + b) % 2 + 2 * XorBits(a / 2, b / 2, bits - 1)
  {}

  lemma Recombine(a: nat)
    ensures a % 2 + 2 * (a / 2) == a
  {}

  lemma {:induction false} XorBitsTwice(a: nat, b: nat, bits: nat)
    requires a < Pow2(bits)
    ensures XorBits(XorBits(a, b, bits), b, bits) == a
  {
    if bits > 0 {
      HalfBound(a, Pow2(bits - 1));
      XorBitsTwice(a / 2, b / 2, bits - 1);
      XorStep(a, b, bits);
      XorStep(XorBits(a, b, bits), b, bits);
      hide XorBits, Pow2;
      var y := XorBits(a / 2, b / 2, bits - 1);
      Halves((a + b) % 2, y);
      Parity(a, b, y);
      Recombine(a);
    }
  }

  lemma XorTwice(a: Byte, b: Byte)
    ensures Xor(Xor(a, b), b) == a
  {
    XorBound(a, b, 8);
    XorBitsTwice(a, b, 8);
  }

  /** The k-th binary digit. */
  predicate Bit(a: nat, k: nat) {
    if k == 0 then a % 2 == 1 else Bit(a / 2, k - 1)
  }

  /** A bit is set where exactly one of the two has it. */
  lemma {:induction false} XorBitsBit(a: nat, b: nat, bits: nat, k: nat)
    requires k < bits
    ensures Bit(XorBits(a, b, bits), k) <==> Bit(a, k) != Bit(b, k)
  {
    XorStep(a, b, bits);
    hide XorBits;
    Halves((a + b) % 2, XorBits(a / 2, b / 2, bits - 1));
    if k == 0 {
      OddSum(a, b);
    } else {
      XorBitsBit(a / 2, b / 2, bits - 1, k - 1);
    }
  }

  lemma OddSum(a: nat, b: nat)
    ensures (a + b) % 2 == 1 <==> (a % 2 == 1) != (b % 2 == 1)
  {}

  // ----- masking (section 5.3 of RFC 6455) -----

  /** data, xored with the four-byte key starting at offset pos of the frame payload. */
  function Mask(key: Option<seq<Byte>>, pos: nat, data: seq<Byte>): (r: seq<Byte>)
    requires key.Some? ==> |key.value| == 4
    ensures |r| == |data|
  {
    if key.None? then data
    else seq(|data|, i requires 0 <= i < |data| => Xor(data[i], key.value[(pos + i) % 4]))
  }

  lemma MaskAppend(key: Option<seq<Byte>>, pos: nat, a: seq<Byte>, b: seq<Byte>)
    requires key.Some? ==> |key.value| == 4
    ensures Mask(key, pos, a + b) == Mask(key, pos, a) + Mask(key, pos + |a|, b)
  {
    hide Xor;
    if key.Some? {
      var whole, split := Mask(key, pos, a + b), Mask(key, pos, a) + Mask(key, pos + |a|, b);
      forall i | 0 <= i < |a| + |b|
        ensures whole[i] == split[i]
      {
        if i >= |a| {
          assert pos + i == pos + |a| + (i - |a|);
        }
      }
    }
  }

  lemma MaskTwice(key: Option<seq<Byte>>, pos: nat, data: seq<Byte>)
    requires key.Some? ==> |key.value| == 4
    ensures Mask(key, pos, Mask(key, pos, data)) == data
  {
    hide Xor;
    if key.Some? {
      forall i | 0 <= i < |data|
        ensures Mask(key, pos, Mask(key, pos, data))[i] == data[i]
      {
        XorTwice(data[i], key.value[(pos + i) % 4]);
      }
    }
  }

  // ----- big-endian numbers -----

  function Pow256(n: nat): (p: nat)
    ensures p > 0
  {
    if n == 0 then 1 else 256 * Pow256(n - 1)
  }

  function BigEndian(s: seq<Byte>): (n: nat)
    ensures n < Pow256(|s|)
  {
    if s == [] then 0 else 256 * BigEndian(s[..|s| - 1]) + s[|s| - 1]
  }

  function ToBigEndian(n: nat, width: nat): (s: seq<Byte>)
    requires n < Pow256(width)
    ensures |s| == width
  {
    if width == 0 then [] else ToBigEndian(n / 256, width - 1) + [n % 256]
  }

  lemma {:induction false} BigEndianRoundTrip(n: nat, width: nat)
    requires n < Pow256(width)
    ensures BigEndian(ToBigEndian(n, width)) == n
  {
    if width > 0 {
      BigEndianRoundTrip(n / 256, width - 1);
      var s := ToBigEndian(n, width);
      assert s[..|s| - 1] == ToBigEndian(n / 256, width - 1);
    }
  }

  lemma {:induction false} BigEndianInverse(s: seq<Byte>)
    ensures ToBigEndian(BigEndian(s), |s|) == s
  {
    if s != [] {
      BigEndianInverse(s[..|s| - 1]);
      assert s == s[..|s| - 1] + [s[|s| - 1]];
    }
  }

  /** The first byte weighs most. */
  lemma {:induction false} BigEndianFront(b: Byte, s: seq<Byte>)
    ensures BigEndian([b] + s) == b * Pow256(|s|) + BigEndian(s)
  {
    var all := [b] + s;
    if s == [] {
      assert all[..0] == [];
    } else {
      var front := s[..|s| - 1];
      assert all[..|all| - 1] == [b] + front && all[|all| - 1] == s[|s| - 1];
      BigEndianFront(b, front);
      assert BigEndian(all) == 256 * BigEndian([b] + front) + s[|s| - 1];
      assert Pow256(|s|) == 256 * Pow256(|front|);
      hide BigEndian, Pow256;
      Scale(b, Pow256(|front|));
    }
  }

  lemma Scale(b: nat, p: nat)
    ensures 256 * (b * p) == b * (256 * p)
  {}

  lemma TwoBytes(a: Byte, b: Byte)
    ensures BigEndian([a, b]) == 256 * a + b
  {
    assert [a] + [b] == [a, b];
    BigEndianFront(a, [b]);
    BigEndianFront(b, []);
    assert [b] + [] == [b] && Pow256(1) == 256 * Pow256(0);
  }

  // ----- sequences -----

  /** The first limit elements; all of them when limit is negative. */
  function Prefix<T>(s: seq<T>, limit: int): (r: seq<T>)
    ensures limit < 0 ==> r == s
    ensures limit >= 0 ==> |r| <= limit && r <= s
  {
    if limit < 0 || |s| <= limit then s else s[..limit]
  }

  lemma PrefixAppend<T>(s: seq<T>, t: seq<T>, limit: int)
    ensures Prefix(s + t, limit)
            == if limit >= 0 && |s| >= limit then Prefix(s, limit) else s + Prefix(t, if limit < 0 then -1 else limit - |s|)
  {}

  /** The last n elements; all of them when there are fewer. */
  function Last<T>(s: seq<T>, n: nat): (r: seq<T>)
    ensures |r| <= n
  {
    if |s| <= n then s else s[|s| - n..]
  }

  lemma LastAppend<T>(s: seq<T>, t: seq<T>, n: nat)
    ensures Last(Last(s, n) + t, n) == Last(s + t, n)
  {}

  function Flatten<T>(parts: seq<seq<T>>): seq<T> {
    if parts == [] then [] else parts[0] + Flatten(parts[1..])
  }

  lemma Uncons<T>(a: seq<T>, b: seq<T>)
    requires a != []
    ensures (a + b)[0] == a[0] && (a + b)[1..] == a[1..] + b
  {}

  lemma Regroup<T>(a: seq<T>, b: seq<T>, c: seq<T>)
    ensures a + b + c == a + (b + c)
  {}

  lemma {:induction false} FlattenAppend<T>(a: seq<seq<T>>, b: seq<seq<T>>)
    ensures Flatten(a + b) == Flatten(a) + Flatten(b)
  {
    if a == [] {
      assert a + b == b;
    } else {
      FlattenAppend(a[1..], b);
      Uncons(a, b);
      Regroup(a[0], Flatten(a[1..]), Flatten(b));
    }
  }

  lemma FlattenSnoc<T>(a: seq<seq<T>>, x: seq<T>)
    ensures Flatten(a + [x]) == Flatten(a) + x
  {
    FlattenAppend(a, [x]);
    assert Flatten([x]) == x + Flatten([x][1..]);
  }
}
