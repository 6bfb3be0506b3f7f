// PEM64 text encoding of bytes (device/frames/pem.c, section 4 of RFC 4648).
//
// Text and binary both travel as bytes; a character is its ASCII code.

module Bytes {
  type byte = bv8

  datatype Option<+T> = None | Some(value: T)

  /** The host's PEM table has 128 entries: text handed to the decoder is 7-bit. */
  predicate SevenBit(t: seq<byte>) {
    forall i :: 0 <= i < |t| ==> t[i] < 128
  }

  /** `count` copies of one byte. */
  function Fill(count: nat, b: byte): (r: seq<byte>)
    ensures |r| == count
    ensures forall i :: 0 <= i < count ==> r[i] == b
  {
    seq(count, _ => b)
  }

  /** `s` with `t` written over it from index `at`. */
  function Splice<T>(s: seq<T>, at: nat, t: seq<T>): (r: seq<T>)
    requires at + |t| <= |s|
    ensures |r| == |s|
  {
    s[..at] + t + s[at + |t|..]
  }

  lemma SpliceTwice<T>(s: seq<T>, at: nat, t: seq<T>, u: seq<T>)
    requires at + |t| + |u| <= |s|
    ensures Splice(Splice(s, at, t), at + |t|, u) == Splice(s, at, t + u)
  {
    assert Splice(s, at, t)[..at + |t|] == s[..at] + t;
    assert Splice(s, at, t)[at + |t| + |u|..] == s[at + |t| + |u|..];
  }

  lemma SpliceNothing<T>(s: seq<T>, at: nat)
    requires at <= |s|
    ensures Splice(s, at, []) == s
  {
  }
}

module Pem {
  import opened Bytes

  const FILLER: byte := 61
  const NOT_PEM: byte := 0xff

  function Dictionary(s: byte): (c: byte)
    requires s < 64
    ensures c < 128 && c != FILLER
  {
    if s < 26 then s + 65
    else if s < 52 then s + 71
    else if s < 62 then s - 4
    else if s == 62 then 43
    else 47
  }

  /** `inverse_dictionary`: the sextet of a character, 0 for the filler, `NOT_PEM` for anything else. */
  function Inverse(c: byte): (s: byte)
    requires c < 128
    ensures s == NOT_PEM || s < 64
  {
    if c == 43 then 62
    else if c == 47 then 63
    else if 48 <= c <= 57 then c + 4
    else if c == FILLER then 0
    else if 65 <= c <= 90 then c - 65
    else if 97 <= c <= 122 then c - 71
    else NOT_PEM
  }

  predicate IsDictionaryChar(c: byte) {
    c < 128 && c != FILLER && Inverse(c) != NOT_PEM
  }

  /** Characters the encoder can emit: the dictionary and the filler. */
  predicate IsPemChar(c: byte) {
    c < 128 && Inverse(c) != NOT_PEM
  }

  function EncodedLength(n: nat): nat {
    (n + 2) / 3 * 4
  }

  function Split1(c1: byte): (s: byte) ensures s < 64 { c1 >> 2 }
  function Split12(c1: byte, c2: byte): (s: byte) ensures s < 64 { ((c1 & 0x3) << 4) | (c2 >> 4) }
  function Split23(c2: byte, c3: byte): (s: byte) ensures s < 64 { ((c2 & 0xf) << 2) | (c3 >> 6) }
  function Split3(c3: byte): (s: byte) ensures s < 64 { c3 & 0x3f }

  function EncodeGroup(g: seq<byte>): (t: seq<byte>)
    requires 1 <= |g| <= 3
    ensures |t| == 4
  {
    if |g| == 3 then
      [Dictionary(Split1(g[0])), Dictionary(Split12(g[0], g[1])),
       Dictionary(Split23(g[1], g[2])), Dictionary(Split3(g[2]))]
    else if |g| == 2 then
      [Dictionary(Split1(g[0])), Dictionary(Split12(g[0], g[1])), Dictionary(Split23(g[1], 0)), FILLER]
    else
      [Dictionary(Split1(g[0])), Dictionary(Split12(g[0], 0)), FILLER, FILLER]
  }

  function Encode(x: seq<byte>): (t: seq<byte>) {
    if |x| == 0 then []
    else if |x| <= 3 then EncodeGroup(x)
    else EncodeGroup(x[..3]) + Encode(x[3..])
  }

  predicate GoodQuad(q: seq<byte>)
    requires |q| == 4 && SevenBit(q)
  {
    Inverse(q[0]) != NOT_PEM && Inverse(q[1]) != NOT_PEM && Inverse(q[2]) != NOT_PEM && Inverse(q[3]) != NOT_PEM
  }

  function Join12(b1: byte, b2: byte): byte { (b1 << 2) | (b2 >> 4) }
  function Join23(b2: byte, b3: byte): byte { ((b2 & 0xf) << 4) | (b3 >> 2) }
  function Join34(b3: byte, b4: byte): byte { ((b3 & 0x3) << 6) | b4 }

  function DecodeQuad(q: seq<byte>): (x: seq<byte>)
    requires |q| == 4 && SevenBit(q)
    ensures 1 <= |x| <= 3
  {
    var b1, b2, b3, b4 := Inverse(q[0]), Inverse(q[1]), Inverse(q[2]), Inverse(q[3]);
    [Join12(b1, b2)]
    + (if q[2] != FILLER then [Join23(b2, b3)] else [])
    + (if q[3] != FILLER then [Join34(b3, b4)] else [])
  }

  function Decode(t: seq<byte>): (x: seq<byte>)
    requires SevenBit(t)
  {
    if |t| < 4 || !GoodQuad(t[..4]) then []
    else DecodeQuad(t[..4]) + Decode(t[4..])
  }

  /** `t` is whole quads, all of which the decoder accepts. */
  predicate AllGood(t: seq<byte>) {
    |t| % 4 == 0 && forall i :: 0 <= i < |t| ==> IsPemChar(t[i])
  }

  // ----- laws -----

  lemma DictionaryInverse(s: byte)
    requires s < 64
    ensures Inverse(Dictionary(s)) == s
  {
  }

  lemma InverseDictionary(c: byte)
    requires IsDictionaryChar(c)
    ensures Dictionary(Inverse(c)) == c
  {
  }

  lemma InverseFiller()
    ensures Inverse(FILLER) == 0
  {
  }

  lemma SextetsRejoin(c1: byte, c2: byte, c3: byte)
    ensures Join12(Split1(c1), Split12(c1, c2)) == c1
    ensures Join23(Split12(c1, c2), Split23(c2, c3)) == c2
    ensures Join34(Split23(c2, c3), Split3(c3)) == c3
  {
  }

  lemma GroupRoundTrip(g: seq<byte>)
    requires 1 <= |g| <= 3
    ensures AllGood(EncodeGroup(g)) && SevenBit(EncodeGroup(g)) && GoodQuad(EncodeGroup(g))
    ensures DecodeQuad(EncodeGroup(g)) == g
  {
    hide Dictionary, Inverse, Split1, Split12, Split23, Split3, Join12, Join23, Join34;
    InverseFiller();
    var c2, c3 := if |g| > 1 then g[1] else 0, if |g| > 2 then g[2] else 0;
    DictionaryInverse(Split1(g[0]));
    DictionaryInverse(Split12(g[0], c2));
    DictionaryInverse(Split23(c2, c3));
    DictionaryInverse(Split3(c3));
    SextetsRejoin(g[0], c2, c3);
    assert DecodeQuad(EncodeGroup(g)) ==
      if |g| == 3 then [g[0], g[1], g[2]] else if |g| == 2 then [g[0], g[1]] else [g[0]];
  }

  lemma AllGoodConcat(t: seq<byte>, u: seq<byte>)
    ensures AllGood([])
    ensures AllGood(t) && AllGood(u) ==> AllGood(t + u)
  {
    hide IsPemChar;
  }

  lemma {:induction false} EncodeShape(x: seq<byte>)
    ensures |Encode(x)| == EncodedLength(|x|)
    ensures AllGood(Encode(x))
  {
    hide Dictionary, Inverse, EncodeGroup, DecodeQuad, GoodQuad, IsPemChar, AllGood;
    if |x| == 0 {
      AllGoodConcat([], []);
    } else if |x| <= 3 {
      GroupRoundTrip(x);
    } else {
      GroupRoundTrip(x[..3]);
      EncodeShape(x[3..]);
      AllGoodConcat(EncodeGroup(x[..3]), Encode(x[3..]));
    }
  }

  /** Decoding is compositional behind whole good quads, even when the first part ends in fillers. */
  lemma {:induction false} DecodeConcat(t: seq<byte>, u: seq<byte>)
    requires AllGood(t) && SevenBit(u)
    ensures SevenBit(t) && SevenBit(t + u)
    ensures Decode(t + u) == Decode(t) + Decode(u)
  {
    hide Dictionary, Inverse, EncodeGroup, DecodeQuad, Join12, Join23, Join34;
    assert SevenBit(t + u);
    if t == [] {
      assert t + u == u;
    } else {
      assert (t + u)[..4] == t[..4] && (t + u)[4..] == t[4..] + u;
      DecodeConcat(t[4..], u);
    }
  }

  lemma {:induction false} RoundTrip(x: seq<byte>)
    ensures SevenBit(Encode(x)) && Decode(Encode(x)) == x
  {
    hide Dictionary, Inverse, EncodeGroup, DecodeQuad, GoodQuad, IsPemChar;
    EncodeShape(x);
    if |x| == 0 {
    } else if |x| <= 3 {
      GroupRoundTrip(x);
      var t := EncodeGroup(x);
      assert t[..4] == t && t[4..] == [];
    } else {
      GroupRoundTrip(x[..3]);
      RoundTrip(x[3..]);
      var t := Encode(x);
      assert t[..4] == EncodeGroup(x[..3]) && t[4..] == Encode(x[3..]);
      assert x == x[..3] + x[3..];
    }
  }

  lemma SextetsResplit(b1: byte, b2: byte, b3: byte, b4: byte)
    requires b1 < 64 && b2 < 64 && b3 < 64 && b4 < 64
    ensures Split1(Join12(b1, b2)) == b1 && Split12(Join12(b1, b2), Join23(b2, b3)) == b2
    ensures Split23(Join23(b2, b3), Join34(b3, b4)) == b3 && Split3(Join34(b3, b4)) == b4
  {
  }

  predicate AllDictionary(t: seq<byte>) {
    forall i :: 0 <= i < |t| ==> IsDictionaryChar(t[i])
  }

  lemma DictionaryQuad(q: seq<byte>)
    requires |q| == 4 && AllDictionary(q)
    ensures SevenBit(q) && GoodQuad(q) && |DecodeQuad(q)| == 3 && EncodeGroup(DecodeQuad(q)) == q
  {
    hide Dictionary, Inverse, Split1, Split12, Split23, Split3, Join12, Join23, Join34;
    forall i | 0 <= i < 4
      ensures Inverse(q[i]) < 64 && Dictionary(Inverse(q[i])) == q[i]
    {
      assert IsDictionaryChar(q[i]);
      InverseDictionary(q[i]);
      SextetOf(q[i]);
    }
    SextetsResplit(Inverse(q[0]), Inverse(q[1]), Inverse(q[2]), Inverse(q[3]));
  }

  lemma SextetOf(c: byte)
    requires IsDictionaryChar(c)
    ensures Inverse(c) < 64
  {
  }

  /** The other way round: whole quads without fillers encode nothing but what they decode to. */
  lemma {:induction false} Reencode(t: seq<byte>)
    requires |t| % 4 == 0 && AllDictionary(t)
    ensures SevenBit(t) && |Decode(t)| == 3 * (|t| / 4) && Encode(Decode(t)) == t
  {
    hide Dictionary, Inverse, IsDictionaryChar, EncodeGroup, DecodeQuad, GoodQuad;
    DictionaryIsSevenBit(t);
    if t != [] {
      var q, rest := t[..4], t[4..];
      DictionaryQuad(q);
      Reencode(rest);
      var x := Decode(t);
      assert x[..3] == DecodeQuad(q) && x[3..] == Decode(rest);
      if rest == [] {
        assert x == x[..3];
      }
      assert t == q + rest;
    }
  }

  lemma DictionaryIsSevenBit(t: seq<byte>)
    requires AllDictionary(t)
    ensures SevenBit(t)
  {
    hide Inverse;
    forall i | 0 <= i < |t|
      ensures t[i] < 128
    {
      assert IsDictionaryChar(t[i]);
    }
  }

  /** Encoded pieces may be sent back to back: what is decoded is the concatenation of the originals. */
  lemma RoundTripConcat(x: seq<byte>, y: seq<byte>)
    ensures SevenBit(Encode(x) + Encode(y)) && Decode(Encode(x) + Encode(y)) == x + y
  {
    EncodeShape(x);
    EncodeShape(y);
    RoundTrip(x);
    RoundTrip(y);
    DecodeConcat(Encode(x), Encode(y));
  }

  /** The decoder stops exactly at the first bad (or incomplete) quad, whatever follows it. */
  lemma DecodeStopsAtBadQuad(good: seq<byte>, rest: seq<byte>)
    requires AllGood(good) && SevenBit(rest)
    requires |rest| < 4 || !GoodQuad(rest[..4])
    ensures SevenBit(good) && SevenBit(good + rest)
    ensures Decode(good + rest) == Decode(good)
  {
    DecodeConcat(good, rest);
  }

  /** Every text splits at its first bad quad, so the two lemmas above determine `Decode` everywhere. */
  lemma {:induction false} SplitAtBadQuad(t: seq<byte>) returns (n: nat)
    requires SevenBit(t)
    ensures 4 * n <= |t| && AllGood(t[..4 * n])
    ensures |t| - 4 * n < 4 || !GoodQuad(t[4 * n..4 * n + 4])
    ensures Decode(t) == Decode(t[..4 * n])
  {
    hide Dictionary, Inverse, EncodeGroup, DecodeQuad, Join12, Join23, Join34;
    if |t| < 4 || !GoodQuad(t[..4]) {
      n := 0;
    } else {
      var m := SplitAtBadQuad(t[4..]);
      n := m + 1;
      ShiftQuads(t, m);
      assert AllGood(t[..4 * n]) by {
        hide AllGood;
        QuadsGood(t, m);
      }
      assert t == t[..4 * n] + t[4 * n..];
      if |t| - 4 * n >= 4 {
        assert t[4 * n..][..4] == t[4 * n..4 * n + 4];
      }
      DecodeStopsAtBadQuad(t[..4 * n], t[4 * n..]);
    }
  }

  lemma ShiftQuads(t: seq<byte>, m: nat)
    requires 4 * (m + 1) <= |t|
    ensures t[4..][..4 * m] == t[4..4 * (m + 1)] && t[..4 * (m + 1)] == t[..4] + t[4..][..4 * m]
    ensures 4 * (m + 2) <= |t| ==> t[4..][4 * m..4 * m + 4] == t[4 * (m + 1)..4 * (m + 2)]
  {
  }

  lemma QuadsGood(t: seq<byte>, m: nat)
    requires 4 * (m + 1) <= |t| && SevenBit(t) && GoodQuad(t[..4]) && AllGood(t[4..][..4 * m])
    ensures AllGood(t[..4 * (m + 1)])
  {
    hide Inverse;
    ShiftQuads(t, m);
    var q, r := t[..4], t[4..][..4 * m];
    assert forall i :: 0 <= i < 4 ==> IsPemChar(q[i]);
    assert forall i :: 0 <= i < 4 * (m + 1) ==> (q + r)[i] == if i < 4 then q[i] else r[i - 4];
  }

  lemma {:induction false} DecodeLength(t: seq<byte>)
    requires SevenBit(t)
    ensures |Decode(t)| <= 3 * (|t| / 4)
  {
    hide Dictionary, Inverse, EncodeGroup;
    if |t| < 4 || !GoodQuad(t[..4]) {
    } else {
      DecodeLength(t[4..]);
    }
  }

  /** How many quads are decoded: those before the first bad or incomplete one. */
  function GoodQuads(t: seq<byte>): (n: nat)
    requires SevenBit(t)
    ensures 4 * n <= |t|
  {
    if |t| < 4 || !GoodQuad(t[..4]) then 0 else 1 + GoodQuads(t[4..])
  }

  /** The fillers in third and fourth places, each of which drops a byte. */
  function Dropped(t: seq<byte>): nat {
    if |t| < 4 then 0
    else (if t[2] == FILLER then 1 else 0) + (if t[3] == FILLER then 1 else 0) + Dropped(t[4..])
  }

  /** The exact length of what is decoded. */
  lemma {:induction false} DecodedLength(t: seq<byte>)
    requires SevenBit(t)
    ensures |Decode(t)| + Dropped(t[..4 * GoodQuads(t)]) == 3 * GoodQuads(t)
  {
    hide Inverse, Join12, Join23, Join34;
    var n := GoodQuads(t);
    if n > 0 {
      DecodedLength(t[4..]);
      assert t[..4 * n][4..] == t[4..][..4 * (n - 1)];
    }
  }

  // ----- the two loops, writing through offsets into caller's buffers -----

  lemma {:induction false} EncodeSnoc(x: seq<byte>, g: seq<byte>)
    requires |x| % 3 == 0 && 1 <= |g| <= 3
    ensures Encode(x + g) == Encode(x) + EncodeGroup(g)
  {
    hide Dictionary, Inverse, EncodeGroup, DecodeQuad, GoodQuad, IsPemChar;
    if x == [] {
      assert x + g == g;
    } else {
      assert (x + g)[..3] == x[..3] && (x + g)[3..] == x[3..] + g;
      EncodeSnoc(x[3..], g);
      if |x| == 3 {
        assert x[..3] == x && x[3..] + g == g;
      }
    }
  }

  lemma EncodeNothing()
    ensures Encode([]) == [] && Decode([]) == []
  {
  }

  method WriteGroup(inbytes: array<byte>, i: nat, n: nat, outtext: array<byte>, at: nat)
    requires inbytes != outtext && 1 <= n <= 3 && i + n <= inbytes.Length && at + 4 <= outtext.Length
    modifies outtext
    ensures outtext[..] == Splice(old(outtext[..]), at, EncodeGroup(inbytes[i..i + n]))
  {
    hide Dictionary, Splice, Split1, Split12, Split23, Split3;
    var c1 := inbytes[i];
    if n == 3 {
      var c2, c3 := inbytes[i + 1], inbytes[i + 2];
      WriteFour(
        outtext, at,
        Dictionary(Split1(c1)), Dictionary(Split12(c1, c2)), Dictionary(Split23(c2, c3)), Dictionary(Split3(c3)));
    } else if n == 2 {
      var c2 := inbytes[i + 1];
      WriteFour(outtext, at, Dictionary(Split1(c1)), Dictionary(Split12(c1, c2)), Dictionary(Split23(c2, 0)), FILLER);
    } else {
      WriteFour(outtext, at, Dictionary(Split1(c1)), Dictionary(Split12(c1, 0)), FILLER, FILLER);
    }
  }

  method WriteFour(outtext: array<byte>, at: nat, t1: byte, t2: byte, t3: byte, t4: byte)
    requires at + 4 <= outtext.Length
    modifies outtext
    ensures outtext[..] == Splice(old(outtext[..]), at, [t1, t2, t3, t4])
  {
    outtext[at], outtext[at + 1], outtext[at + 2], outtext[at + 3] := t1, t2, t3, t4;
  }

  method EncodeBytes(inbytes: array<byte>, off: nat, nbytes: nat, outtext: array<byte>, outOff: nat)
    returns (filled: nat)
    requires inbytes != outtext
    requires off + nbytes <= inbytes.Length && outOff + EncodedLength(nbytes) <= outtext.Length
    modifies outtext
    ensures filled == EncodedLength(nbytes) == |Encode(inbytes[off..off + nbytes])|
    ensures outtext[..] == Splice(old(outtext[..]), outOff, Encode(inbytes[off..off + nbytes]))
  {
    hide EncodeGroup, Splice, AllGood, Encode;
    assert Encode([]) == [] by { EncodeNothing(); }
    filled := 0;
    var i, left := 0, nbytes;
    ghost var all, before := inbytes[off..off + nbytes], outtext[..];
    EncodeShape(all);
    SpliceNothing(before, outOff);
    while left >= 3
      invariant 0 <= left <= nbytes && i == nbytes - left && i % 3 == 0
      invariant filled == |Encode(all[..i])| == EncodedLength(i)
      invariant outtext[..] == Splice(before, outOff, Encode(all[..i]))
    {
      ghost var g := inbytes[off + i..off + i + 3];
      NextGroup(inbytes[..], off, nbytes, i, 3);
      EncodeSnoc(all[..i], g);
      WriteGroup(inbytes, off + i, 3, outtext, outOff + filled);
      SpliceTwice(before, outOff, Encode(all[..i]), EncodeGroup(g));
      filled := filled + 4;
      i, left := i + 3, left - 3;
    }
    ghost var g := inbytes[off + i..off + nbytes];
    NextGroup(inbytes[..], off, nbytes, i, left);
    if left > 0 {
      EncodeSnoc(all[..i], g);
      WriteGroup(inbytes, off + i, left, outtext, outOff + filled);
      SpliceTwice(before, outOff, Encode(all[..i]), EncodeGroup(g));
      filled := filled + 4;
    }
  }

  lemma NextGroup(t: seq<byte>, off: nat, n: nat, i: nat, k: nat)
    requires off + n <= |t| && i + k <= n
    ensures var all := t[off..off + n];
      all[..i + k] == all[..i] + t[off + i..off + i + k] && all[..n] == all
  {
    var all, g := t[off..off + n], t[off + i..off + i + k];
    forall j | 0 <= j < i + k
      ensures all[j] == (all[..i] + g)[j]
    {
      assert all[j] == t[off + j];
      if j >= i {
        assert g[j - i] == t[off + i + (j - i)];
      }
    }
  }

  lemma {:induction false} DecodeSnoc(t: seq<byte>, q: seq<byte>)
    requires AllGood(t) && |q| == 4 && SevenBit(q) && GoodQuad(q)
    ensures AllGood(t + q) && SevenBit(t) && SevenBit(t + q) && Decode(t + q) == Decode(t) + DecodeQuad(q)
  {
    hide Dictionary, Inverse, EncodeGroup, DecodeQuad, Join12, Join23, Join34;
    DecodeConcat(t, q);
    assert q[..4] == q && q[4..] == [];
    assert Decode([]) == [];
  }

  /** One turn of the decoding loop; nothing is written for a bad quad. */
  method ReadQuad(intext: array<byte>, i: nat, out: array<byte>, at: nat) returns (ok: bool, len: nat)
    requires intext != out && i + 4 <= intext.Length && SevenBit(intext[i..i + 4])
    requires GoodQuad(intext[i..i + 4]) ==> at + |DecodeQuad(intext[i..i + 4])| <= out.Length
    modifies out
    ensures ok == GoodQuad(intext[i..i + 4])
    ensures !ok ==> out[..] == old(out[..])
    ensures ok ==> len == at + |DecodeQuad(intext[i..i + 4])|
    ensures ok ==> out[..] == Splice(old(out[..]), at, DecodeQuad(intext[i..i + 4]))
  {
    hide Inverse, Splice, Join12, Join23, Join34;
    var c1, c2, c3, c4 := intext[i], intext[i + 1], intext[i + 2], intext[i + 3];
    assert intext[i..i + 4] == [c1, c2, c3, c4];
    var b1, b2, b3, b4 := Inverse(c1), Inverse(c2), Inverse(c3), Inverse(c4);
    if b1 == NOT_PEM || b2 == NOT_PEM || b3 == NOT_PEM || b4 == NOT_PEM {
      return false, at;
    }
    ghost var before, done := out[..], [Join12(b1, b2)];
    len := PutByte(out, at, Join12(b1, b2));
    if c3 != FILLER {
      SpliceTwice(before, at, done, [Join23(b2, b3)]);
      len := PutByte(out, len, Join23(b2, b3));
      done := done + [Join23(b2, b3)];
    }
    if c4 != FILLER {
      SpliceTwice(before, at, done, [Join34(b3, b4)]);
      len := PutByte(out, len, Join34(b3, b4));
      done := done + [Join34(b3, b4)];
    }
    assert done == DecodeQuad([c1, c2, c3, c4]);
    ok := true;
  }

  method PutByte(out: array<byte>, at: nat, b: byte) returns (next: nat)
    requires at < out.Length
    modifies out
    ensures next == at + 1 && out[..] == Splice(old(out[..]), at, [b])
  {
    out[at] := b;
    next := at + 1;
  }

  lemma NextQuad(t: seq<byte>, off: nat, n: nat, i: nat)
    requires off + n <= |t| && i + 4 <= n
    ensures var all, q := t[off..off + n], t[off + i..off + i + 4];
      q == all[i..][..4] && all == all[..i] + all[i..] && all[..i + 4] == all[..i] + q
  {
    NextGroup(t, off, n, i, 4);
    var all, q := t[off..off + n], t[off + i..off + i + 4];
    forall j | 0 <= j < 4
      ensures q[j] == all[i..][..4][j]
    {
      assert all[i..][j] == all[i + j] == t[off + (i + j)];
    }
  }

  /** Every quad decoded on the way is part of the whole. */
  lemma QuadFits(t: seq<byte>, i: nat, q: seq<byte>)
    requires SevenBit(t) && i + 4 <= |t| && AllGood(t[..i]) && q == t[i..][..4] && SevenBit(q)
    ensures SevenBit(t[..i]) && (GoodQuad(q) ==> |Decode(t[..i])| + |DecodeQuad(q)| <= |Decode(t)|)
  {
    hide Inverse, DecodeQuad, GoodQuad, AllGood, Decode;
    if GoodQuad(q) {
      var rest := t[i + 4..];
      assert t == (t[..i] + q) + rest;
      DecodeSnoc(t[..i], q);
      DecodeConcat(t[..i] + q, rest);
    }
  }

  /**
    * Decodes into `out` from its start, which must have room for all that is decoded. Bytes past the decoded length
    * keep what they held before.
    */
  method DecodeBytes(intext: array<byte>, off: nat, nchars: nat, out: array<byte>) returns (len: nat)
    requires intext != out && off + nchars <= intext.Length && SevenBit(intext[off..off + nchars])
    requires |Decode(intext[off..off + nchars])| <= out.Length
    modifies out
    ensures len == |Decode(intext[off..off + nchars])| <= 3 * (nchars / 4)
    ensures out[..] == Splice(old(out[..]), 0, Decode(intext[off..off + nchars]))
  {
    hide Inverse, DecodeQuad, Splice, GoodQuad, AllGood, Decode;
    EncodeNothing();
    assert AllGood([]) by { EncodeShape([]); }
    ghost var all, before := intext[off..off + nchars], out[..];
    len := 0;
    var i, left := 0, nchars;
    SpliceNothing(before, 0);
    while left >= 4
      invariant 0 <= left <= nchars && i == nchars - left && i % 4 == 0
      invariant AllGood(all[..i]) && SevenBit(all[..i])
      invariant len == |Decode(all[..i])| <= 3 * (i / 4) && len <= out.Length
      invariant out[..] == Splice(before, 0, Decode(all[..i]))
    {
      ghost var q := intext[off + i..off + i + 4];
      assert q == intext[..][off + i..off + i + 4] && all == intext[..][off..off + nchars];
      NextQuad(intext[..], off, nchars, i);
      assert SevenBit(q) by { forall k | 0 <= k < 4 ensures q[k] < 128 { assert q[k] == all[i + k]; } }
      QuadFits(all, i, q);
      var ok, n := ReadQuad(intext, off + i, out, len);
      if !ok {
        DecodeStopsAtBadQuad(all[..i], all[i..]);
        return;
      }
      DecodeSnoc(all[..i], q);
      SpliceTwice(before, 0, Decode(all[..i]), DecodeQuad(q));
      len := n;
      i, left := i + 4, left - 4;
    }
    assert all == all[..i] + all[i..];
    DecodeStopsAtBadQuad(all[..i], all[i..]);
  }

  // ----- 12-bit values: frame sub-codes -----

  function Encode12(v: bv16): (t: seq<byte>)
    ensures |t| == 2 && IsDictionaryChar(t[0]) && IsDictionaryChar(t[1])
  {
    [Dictionary((v & 0x3f) as byte), Dictionary(((v >> 6) & 0x3f) as byte)]
  }

  /** A malformed pair reads as zero. */
  function Decode12(t: seq<byte>): (v: bv16)
    requires |t| == 2 && SevenBit(t)
  {
    var b1, b2 := Inverse(t[0]), Inverse(t[1]);
    if b1 == NOT_PEM || b2 == NOT_PEM then 0 else (b1 as bv16) | ((b2 as bv16) << 6)
  }

  lemma SextetsRejoin12(v: bv16)
    ensures (((v & 0x3f) as byte) as bv16) | (((((v >> 6) & 0x3f) as byte) as bv16) << 6) == v & 0xfff
  {
  }

  lemma RoundTrip12(v: bv16)
    ensures SevenBit(Encode12(v)) && Decode12(Encode12(v)) == v & 0xfff
  {
    hide Dictionary, Inverse;
    DictionaryInverse((v & 0x3f) as byte);
    DictionaryInverse(((v >> 6) & 0x3f) as byte);
    SextetsRejoin12(v);
  }

  // ----- what the documentation shows -----

  /** One zero byte is "AA==", two are "AAA=", three are "AAAA". */
  lemma DocumentedFillers()
    ensures Encode([0]) == [65, 65, 61, 61] && Encode([0, 0]) == [65, 65, 65, 61]
    ensures Encode([0, 0, 0]) == [65, 65, 65, 65]
  {
    assert Dictionary(Split1(0)) == 65 && Dictionary(Split12(0, 0)) == 65 && Dictionary(Split23(0, 0)) == 65;
  }

  /** Of a pair the first character has the low bits: twelve is "MA", sixty-four is "AB". */
  lemma LowBitsFirst()
    ensures Decode12([77, 65]) == 12 && Decode12([65, 66]) == 64 && Decode12([47, 47]) == 4095
  {
  }
}
