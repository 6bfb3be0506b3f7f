// The master key as a person types it (host/ekey-setkey.c) and the check byte that guards it (host/crc8.c).

module Crc8 {
  import opened Bytes

  const POLY: byte := 0x31

  function Xor(a: byte, b: byte): byte {
    a ^ b
  }

  predicate High(c: byte) {
    c & 0x80 != 0
  }

  function Twice(c: byte): byte {
    c << 1
  }

  /** One bit of the division. */
  function Bit(c: byte): byte {
    if High(c) then Xor(Twice(c), POLY) else Twice(c)
  }

  function Bits(c: byte, n: nat): byte {
    if n == 0 then c else Bit(Bits(c, n - 1))
  }

  /** The register after a message, started at `c`. */
  function From(c: byte, m: seq<byte>): byte {
    if m == [] then c else Bits(Xor(From(c, m[..|m| - 1]), m[|m| - 1]), 8)
  }

  function Crc(m: seq<byte>): byte {
    From(0xff, m)
  }

  /** `crc8`. */
  method Compute(dp: array<byte>, size: nat) returns (crc: byte)
    requires size <= dp.Length
    ensures crc == Crc(dp[..size])
  {
    hide Bits, Bit;
    crc := 0xff;
    var i, left := 0, size;
    while left > 0
      invariant 0 <= left && i == size - left && crc == From(0xff, dp[..i])
    {
      assert dp[..i + 1][..i] == dp[..i];
      crc := Xor(crc, dp[i]);
      crc := Shift(crc);
      i, left := i + 1, left - 1;
    }
  }

  method Shift(c: byte) returns (crc: byte)
    ensures crc == Bits(c, 8)
  {
    hide Bit;
    crc := c;
    for b := 0 to 8
      invariant crc == Bits(c, b)
    {
      crc := Bit(crc);
    }
  }

  // ----- a byte step is linear, and nothing but zero goes to zero -----

  lemma BothTwice(a: byte, b: byte)
    ensures High(Xor(a, b)) <==> High(a) != High(b)
    ensures Twice(Xor(a, b)) == Xor(Twice(a), Twice(b))
  {
    assert Twice(a ^ b) == (a << 1) ^ (b << 1);
  }

  lemma XorAssociative(x: byte, y: byte, z: byte)
    ensures Xor(Xor(x, y), z) == Xor(x, Xor(y, z))
  {
    assert Xor(x ^ y, z) == x ^ y ^ z;
    assert Xor(x, y ^ z) == x ^ y ^ z;
  }

  lemma XorCommutes(x: byte, y: byte)
    ensures Xor(x, y) == Xor(y, x) && Xor(x, x) == 0 && Xor(x, 0) == x
  {
  }

  lemma XorMoves(x: byte, y: byte, p: byte)
    ensures Xor(Xor(x, y), p) == Xor(Xor(x, p), y) == Xor(x, Xor(y, p))
    ensures Xor(x, y) == Xor(Xor(x, p), Xor(y, p))
  {
    hide Xor;
    XorAssociative(x, y, p);
    XorAssociative(x, p, y);
    XorCommutes(y, p);
    XorAssociative(x, p, Xor(p, y));
    XorAssociative(p, p, y);
    XorCommutes(p, p);
    XorCommutes(y, 0);
  }

  lemma BitKernel(a: byte)
    ensures Bit(a) == 0 <==> a == 0
  {
  }

  lemma BitLinear(a: byte, b: byte)
    ensures Bit(Xor(a, b)) == Xor(Bit(a), Bit(b)) && (Bit(a) == 0 <==> a == 0)
  {
    BitKernel(a);
    hide Xor, High, Twice;
    BothTwice(a, b);
    XorMoves(Twice(a), Twice(b), POLY);
  }

  lemma XorZero(a: byte, b: byte)
    ensures Xor(a, b) == 0 <==> a == b
  {
  }

  /** Bits of equal differences cancel. */
  lemma XorCancel(c: byte, x: byte, y: byte)
    ensures Xor(Xor(c, x), Xor(c, y)) == Xor(x, y)
    ensures Xor(Xor(x, c), Xor(y, c)) == Xor(x, y)
  {
    assert Xor(c ^ x, c ^ y) == x ^ y;
    assert Xor(x ^ c, y ^ c) == x ^ y;
  }

  lemma XorCross(p: byte, q: byte, y: byte, z: byte)
    ensures Xor(Xor(p, y), Xor(q, z)) == Xor(Xor(p, q), Xor(y, z))
  {
    assert Xor(p ^ y, q ^ z) == (p ^ q) ^ (y ^ z);
  }

  lemma {:induction false} BitsLinear(a: byte, b: byte, n: nat)
    ensures Bits(Xor(a, b), n) == Xor(Bits(a, n), Bits(b, n)) && (Bits(a, n) == 0 <==> a == 0)
  {
    hide Bit, Xor;
    if n > 0 {
      BitsLinear(a, b, n - 1);
      BitLinear(Bits(a, n - 1), Bits(b, n - 1));
    }
  }

  /** The shift is injective. */
  lemma BitsInjective(a: byte, b: byte, n: nat)
    ensures Bits(a, n) == Bits(b, n) <==> a == b
  {
    hide Bits, Xor;
    BitsLinear(a, b, n);
    BitsLinear(Xor(a, b), 0, n);
    XorZero(Bits(a, n), Bits(b, n));
    XorZero(a, b);
  }

  // ----- messages -----

  lemma {:induction false} FromConcat(c: byte, m: seq<byte>, n: seq<byte>)
    ensures From(c, m + n) == From(From(c, m), n)
  {
    hide Bits;
    if n == [] {
      assert m + n == m;
    } else {
      assert (m + n)[..|m + n| - 1] == m + n[..|n| - 1];
      FromConcat(c, m, n[..|n| - 1]);
    }
  }

  /** What follows a difference cannot undo it. */
  lemma {:induction false} FromInjective(a: byte, b: byte, m: seq<byte>)
    ensures From(a, m) == From(b, m) <==> a == b
  {
    hide Bits, Xor;
    if m != [] {
      var x, y, last := From(a, m[..|m| - 1]), From(b, m[..|m| - 1]), m[|m| - 1];
      FromInjective(a, b, m[..|m| - 1]);
      BitsInjective(Xor(x, last), Xor(y, last), 8);
      XorCancel(last, x, y);
      XorZero(Xor(x, last), Xor(y, last));
      XorZero(x, y);
    }
  }

  lemma FromOne(c: byte, x: byte)
    ensures From(c, [x]) == Bits(Xor(c, x), 8)
  {
    hide Bits, Xor;
    assert [x][..0] == [];
    assert From(c, []) == c;
  }

  /** A difference in a single byte is seen. */
  lemma OneByte(c: byte, x: byte, y: byte)
    ensures From(c, [x]) == From(c, [y]) <==> x == y
  {
    hide From, Bits, Xor;
    FromOne(c, x);
    FromOne(c, y);
    BitsInjective(Xor(c, x), Xor(c, y), 8);
    XorCancel(c, x, y);
    XorZero(Xor(c, x), Xor(c, y));
    XorZero(x, y);
  }

  /** A difference in two neighbouring bytes is missed exactly when the second is the first one, shifted out. */
  lemma TwoBytes(c: byte, x: byte, y: byte, u: byte, v: byte)
    ensures From(c, [x, y]) == From(c, [u, v]) <==> Bits(Xor(x, u), 8) == Xor(y, v)
  {
    hide From, Bits, Xor;
    FromConcat(c, [x], [y]);
    FromConcat(c, [u], [v]);
    assert [x] + [y] == [x, y] && [u] + [v] == [u, v];
    FromOne(c, x);
    FromOne(c, u);
    var p, q := Bits(Xor(c, x), 8), Bits(Xor(c, u), 8);
    FromOne(p, y);
    FromOne(q, v);
    BitsInjective(Xor(p, y), Xor(q, v), 8);
    XorZero(Xor(p, y), Xor(q, v));
    XorCross(p, q, y, v);
    XorZero(Xor(p, q), Xor(y, v));
    BitsLinear(Xor(c, x), Xor(c, u), 8);
    XorCancel(c, x, u);
  }

  /** A message followed by its own check byte leaves zero in the register, and only then. */
  lemma CheckByte(m: seq<byte>, b: byte)
    ensures Crc(m + [b]) == 0 <==> b == Crc(m)
  {
    hide From, Bits, Xor;
    FromConcat(0xff, m, [b]);
    FromOne(Crc(m), b);
    BitsLinear(Xor(Crc(m), b), 0, 8);
    XorZero(Crc(m), b);
  }

  /** The generator, and the register before the first byte. */
  lemma Anchors()
    ensures From(0, [1]) == 0x31 && Crc([]) == 0xff
  {
    hide Bits;
    FromOne(0, 1);
    Eight(1);
    assert Xor(0, 1) == 1;
  }

  lemma Byte(c: byte, x: byte)
    ensures From(c, [x]) == Bit(Bit(Bit(Bit(Bit(Bit(Bit(Bit(Xor(c, x)))))))))
  {
    hide Bits, Bit, Xor;
    FromOne(c, x);
    Eight(Xor(c, x));
  }

  lemma Digits()
    ensures From(0xff, [49]) == 0x58 && From(0x58, [50]) == 0x60 && From(0x60, [51]) == 0x2d
    ensures From(0x2d, [52]) == 0xcb && From(0xcb, [53]) == 0x9d && From(0x9d, [54]) == 0x16
    ensures From(0x16, [55]) == 0xb7 && From(0xb7, [56]) == 0x54 && From(0x54, [57]) == 0xf7
  {
    hide Bits, From;
    Byte(0xff, 49);
    Byte(0x58, 50);
    Byte(0x60, 51);
    Byte(0x2d, 52);
    Byte(0xcb, 53);
    Byte(0x9d, 54);
    Byte(0x16, 55);
    Byte(0xb7, 56);
    Byte(0x54, 57);
  }

  lemma OneMore(m: seq<byte>, x: byte, n: seq<byte>)
    requires n == m + [x]
    ensures Crc(n) == From(Crc(m), [x])
  {
    FromConcat(0xff, m, [x]);
  }

  /** The check value of this code, CRC-8 with generator 0x31 and initial value 0xff, on the digits "123456789". */
  lemma CheckValue()
    ensures Crc([49, 50, 51, 52, 53, 54, 55, 56, 57]) == 0xf7
  {
    hide Bits, From, Crc;
    Anchors();
    Digits();
    OneMore([], 49, [49]);
    OneMore([49], 50, [49, 50]);
    OneMore([49, 50], 51, [49, 50, 51]);
    OneMore([49, 50, 51], 52, [49, 50, 51, 52]);
    OneMore([49, 50, 51, 52], 53, [49, 50, 51, 52, 53]);
    OneMore([49, 50, 51, 52, 53], 54, [49, 50, 51, 52, 53, 54]);
    OneMore([49, 50, 51, 52, 53, 54], 55, [49, 50, 51, 52, 53, 54, 55]);
    OneMore([49, 50, 51, 52, 53, 54, 55], 56, [49, 50, 51, 52, 53, 54, 55, 56]);
    OneMore([49, 50, 51, 52, 53, 54, 55, 56], 57, [49, 50, 51, 52, 53, 54, 55, 56, 57]);
  }

  /** Eight steps, of a byte with only low bits. */
  lemma ShiftOut(x: byte)
    ensures 0 < x < 4 ==> Bits(x, 8) & 0x0f != 0
    ensures 0 < x < 16 ==> Bits(x, 8) & 0x3f != 0
  {
    Eight(x);
  }

  lemma Eight(x: byte)
    ensures Bits(x, 8) == Bit(Bit(Bit(Bit(Bit(Bit(Bit(Bit(x))))))))
  {
    hide Bit;
    assert Bits(x, 0) == x;
    assert Bits(x, 1) == Bit(Bits(x, 0));
    assert Bits(x, 2) == Bit(Bits(x, 1));
    assert Bits(x, 3) == Bit(Bits(x, 2));
    assert Bits(x, 4) == Bit(Bits(x, 3));
    assert Bits(x, 5) == Bit(Bits(x, 4));
    assert Bits(x, 6) == Bit(Bits(x, 5));
    assert Bits(x, 7) == Bit(Bits(x, 6));
  }
}

module MasterKey {
  import opened Bytes
  import Pem
  import Crc8

  const SPACE: byte := 32
  const NEWLINE: byte := 10

  /** `extract_master_key`: 33 bytes end in a check byte, 32 bytes are taken as they are. */
  function Extract(s: seq<byte>): (k: Option<seq<byte>>)
    requires SevenBit(s)
    ensures k.Some? ==> |k.value| == 32
  {
    var m := Pem.Decode(s);
    if |m| == 33 then if Crc8.Crc(m[..32]) == m[32] then Some(m[..32]) else None
    else if |m| == 32 then Some(m)
    else None
  }

  /** `extract_master_key`. The buffer has 33 bytes, of which the last is not part of the key. */
  method ExtractMasterKey(s: array<byte>, len: nat) returns (mkey: array?<byte>)
    requires len <= s.Length && SevenBit(s[..len]) && |Pem.Decode(s[..len])| <= 33
    ensures mkey == null <==> Extract(s[..len]) == None
    ensures mkey != null ==> fresh(mkey) && mkey.Length == 33 && Extract(s[..len]) == Some(mkey[..32])
  {
    hide Crc8.Crc, Pem.Decode;
    mkey := new byte[33];
    assert s[0..len] == s[..len];
    var res := Pem.DecodeBytes(s, 0, len, mkey);
    ghost var m := Pem.Decode(s[..len]);
    assert mkey[..res] == m;
    if res == 33 {
      var crc := Crc8.Compute(mkey, 32);
      assert mkey[..32] == m[..32];
      if crc != mkey[32] {
        return null;
      }
    } else if res != 32 {
      return null;
    }
  }

  // ----- spaces in what is typed -----

  function NoSpaces(s: seq<byte>): seq<byte> {
    if s == [] then []
    else NoSpaces(s[..|s| - 1]) + (if s[|s| - 1] == SPACE then [] else [s[|s| - 1]])
  }

  /** The compaction loop of `main`, on a string that ends at its first NUL. */
  method StripSpaces(s: array<byte>, slen: nat) returns (sodx: nat)
    requires slen < s.Length && s[slen] == 0 && forall i :: 0 <= i < slen ==> s[i] != 0
    modifies s
    ensures sodx <= slen && s[..sodx] == NoSpaces(old(s[..slen])) && s[sodx] == 0
  {
    var sidx := 0;
    sodx := 0;
    while sidx < slen && s[sidx] != 0
      invariant 0 <= sodx <= sidx <= slen
      invariant s[..sodx] == NoSpaces(old(s[..sidx]))
      invariant forall i :: sidx <= i < s.Length ==> s[i] == old(s[i])
    {
      assert old(s[..sidx + 1])[..sidx] == old(s[..sidx]);
      s[sodx] := s[sidx];
      if s[sidx] != SPACE {
        sodx := sodx + 1;
      }
      sidx := sidx + 1;
    }
    s[sodx] := 0;
  }

  lemma {:induction false} NoSpacesConcat(a: seq<byte>, b: seq<byte>)
    ensures NoSpaces(a + b) == NoSpaces(a) + NoSpaces(b)
  {
    if b == [] {
      assert a + b == a;
    } else {
      assert (a + b)[..|a + b| - 1] == a + b[..|b| - 1];
      NoSpacesConcat(a, b[..|b| - 1]);
    }
  }

  function LineEnd(s: seq<byte>): (n: nat)
    ensures n <= |s|
  {
    if s == [] then 0 else if s[0] == NEWLINE then 1 else 1 + LineEnd(s[1..])
  }

  /** `fgets(s, 55, stdin)`: a line of at most 54 characters. */
  function Typed(input: seq<byte>): (s: seq<byte>)
    ensures |s| <= 54 && s <= input
  {
    input[..if LineEnd(input) < 54 then LineEnd(input) else 54]
  }

  /** Of a single character just the space goes; with `NoSpacesConcat` this fixes what is left of any text. */
  lemma OneStripped(c: byte)
    ensures NoSpaces([c]) == if c == 32 then [] else [c]
  {
    assert [c][..0] == [];
    assert NoSpaces([c][..0]) == [];
  }

  lemma {:induction false} LineEndsAt(line: seq<byte>, rest: seq<byte>)
    requires NEWLINE !in line
    ensures LineEnd(line + [NEWLINE] + rest) == |line| + 1
  {
    var t := line + [NEWLINE] + rest;
    if line != [] {
      assert t[1..] == line[1..] + [NEWLINE] + rest;
      LineEndsAt(line[1..], rest);
    }
  }

  /**
    * A key typed with spaces in it is read as if there were none, as long as the line has at most 54 characters. The
    * newline at its end is not read when there are just 54, and may be missing when the input ends.
    */
  lemma PromptedKey(line: seq<byte>, input: seq<byte>, key: seq<byte>)
    requires NEWLINE !in line && |line| <= 54 && NoSpaces(line) == key && SPACE !in key
    requires input == line || line + [NEWLINE] <= input
    requires SevenBit(key)
    ensures var typed := NoSpaces(Typed(input)); SevenBit(typed) && Extract(typed) == Extract(key)
  {
    hide NoSpaces, Extract, LineEnd;
    if input == line {
      LineEndsNowhere(line);
    } else {
      assert input == line + [NEWLINE] + input[|line| + 1..];
      LineEndsAt(line, input[|line| + 1..]);
    }
    var typed := Typed(input);
    if |typed| == |line| {
      assert typed == line;
    } else {
      assert typed == line + [NEWLINE];
      NoSpacesConcat(line, [NEWLINE]);
      NothingToStrip([NEWLINE]);
      NothingToStrip(key);
      TypedKey(typed, key);
    }
  }

  lemma {:induction false} LineEndsNowhere(line: seq<byte>)
    requires NEWLINE !in line
    ensures LineEnd(line) == |line|
  {
    if line != [] {
      LineEndsNowhere(line[1..]);
    }
  }

  /** Spaces typed anywhere, and the newline that ends the line, make no difference. */
  lemma TypedKey(typed: seq<byte>, key: seq<byte>)
    requires SevenBit(key) && NoSpaces(typed) == NoSpaces(key) + [NEWLINE] && SPACE !in key
    ensures SevenBit(NoSpaces(typed)) && Extract(NoSpaces(typed)) == Extract(key)
  {
    hide Crc8.Crc, Pem.Decode;
    NothingToStrip(key);
    TailIgnored(key);
  }

  lemma {:induction false} NothingToStrip(s: seq<byte>)
    requires SPACE !in s
    ensures NoSpaces(s) == s
  {
    if s != [] {
      NothingToStrip(s[..|s| - 1]);
    }
  }

  /** A newline behind a text of any length is never decoded, nor does it complete a quad. */
  lemma {:induction false} TailIgnored(t: seq<byte>)
    requires SevenBit(t)
    ensures SevenBit(t + [NEWLINE]) && Pem.Decode(t + [NEWLINE]) == Pem.Decode(t)
  {
    hide Pem.DecodeQuad;
    var u := t + [NEWLINE];
    if |t| >= 4 {
      hide Pem.GoodQuad;
      assert u[..4] == t[..4] && u[4..] == t[4..] + [NEWLINE];
      TailIgnored(t[4..]);
    } else if |t| == 3 {
      assert u[..4][3] == NEWLINE;
    }
  }

  // ----- a key and its text -----

  function KeyText(k: seq<byte>): seq<byte> {
    Pem.Encode(k + [Crc8.Crc(k)])
  }

  /** The 44 characters made from a key and its check byte are accepted, and give the key back. */
  lemma KeyRoundTrip(k: seq<byte>)
    requires |k| == 32
    ensures SevenBit(KeyText(k)) && |KeyText(k)| == 44 && Extract(KeyText(k)) == Some(k)
  {
    hide Crc8.Crc, Pem.Decode, Pem.Encode;
    var m := k + [Crc8.Crc(k)];
    Pem.RoundTrip(m);
    Pem.EncodeShape(m);
    assert m[..32] == k;
  }

  /** What is accepted for a key: its 32 bytes, or these and their check byte, and nothing else. */
  lemma ExtractIff(x: seq<byte>, k: seq<byte>)
    ensures SevenBit(Pem.Encode(x))
    ensures Extract(Pem.Encode(x)) == Some(k) <==> |k| == 32 && (x == k || x == k + [Crc8.Crc(k)])
  {
    hide Crc8.Crc, Pem.Decode, Pem.Encode;
    Pem.RoundTrip(x);
    if |x| == 33 {
      assert x == x[..32] + [x[32]];
    }
    if x == k + [Crc8.Crc(k)] && |k| == 32 {
      assert x[..32] == k;
    }
  }

  // ----- typing errors -----

  /** Text that decodes to three bytes for every four characters: a filler is harmless in the first half of a quad. */
  predicate Full(t: seq<byte>) {
    && |t| % 4 == 0
    && (forall i :: 0 <= i < |t| ==> Pem.IsPemChar(t[i]))
    && (forall i :: 0 <= i < |t| && i % 4 >= 2 ==> t[i] != Pem.FILLER)
  }

  lemma FullText(t: seq<byte>)
    requires Full(t)
    ensures SevenBit(t) && Pem.AllGood(t)
  {
  }

  lemma Mod4(a: nat, k: nat)
    requires a % 4 == 0
    ensures (a + k) % 4 == k % 4
  {
  }

  lemma FullSlice(t: seq<byte>, a: nat, b: nat)
    requires Full(t) && a <= b <= |t| && a % 4 == 0 && b % 4 == 0
    ensures Full(t[a..b])
  {
    hide Pem.IsPemChar;
    var u := t[a..b];
    forall i | 0 <= i < |u| && i % 4 >= 2
      ensures u[i] != Pem.FILLER
    {
      Mod4(a, i);
      assert u[i] == t[a + i];
    }
  }

  function Bytes3(b1: byte, b2: byte, b3: byte, b4: byte): seq<byte> {
    [Pem.Join12(b1, b2), Pem.Join23(b2, b3), Pem.Join34(b3, b4)]
  }

  lemma QuadBytes(q: seq<byte>)
    requires |q| == 4 && Full(q)
    ensures SevenBit(q) && Pem.GoodQuad(q)
    ensures Pem.DecodeQuad(q) == Bytes3(Pem.Inverse(q[0]), Pem.Inverse(q[1]), Pem.Inverse(q[2]), Pem.Inverse(q[3]))
    ensures forall i :: 0 <= i < 4 ==> Pem.Inverse(q[i]) < 64
  {
    hide Pem.Inverse, Pem.Join12, Pem.Join23, Pem.Join34;
    forall i | 0 <= i < 4
      ensures Pem.IsPemChar(q[i]) && Pem.Inverse(q[i]) < 64
    {
    }
    assert 2 % 4 >= 2 && 3 % 4 >= 2;
    assert q[2] != Pem.FILLER && q[3] != Pem.FILLER;
  }

  /** How one character spreads over the three bytes of its quad. */
  lemma First(b1: byte, b2: byte, d: byte)
    requires b1 < 64 && d < 64 && b1 != d && b2 < 64
    ensures Pem.Join12(b1, b2) != Pem.Join12(d, b2)
  {
  }

  lemma Second(b1: byte, b2: byte, b3: byte, d: byte)
    requires b1 < 64 && b2 < 64 && d < 64 && b2 != d && b3 < 64
    ensures var x := Crc8.Xor(Pem.Join12(b1, b2), Pem.Join12(b1, d));
      var y := Crc8.Xor(Pem.Join23(b2, b3), Pem.Join23(d, b3));
      x < 4 && y & 0x0f == 0 && (x != 0 || y != 0)
  {
  }

  lemma Third(b2: byte, b3: byte, b4: byte, d: byte)
    requires b2 < 64 && b3 < 64 && d < 64 && b3 != d && b4 < 64
    ensures var x := Crc8.Xor(Pem.Join23(b2, b3), Pem.Join23(b2, d));
      var y := Crc8.Xor(Pem.Join34(b3, b4), Pem.Join34(d, b4));
      x < 16 && y & 0x3f == 0 && (x != 0 || y != 0)
  {
  }

  lemma Fourth(b3: byte, b4: byte, d: byte)
    requires b3 < 64 && b4 < 64 && d < 64 && b4 != d
    ensures Pem.Join34(b3, b4) != Pem.Join34(b3, d)
  {
  }

  /** A burst that starts in the low bits of one byte and ends in the high bits of the next is seen. */
  lemma BurstSeen(c: byte, x: byte, y: byte, u: byte, v: byte, low: byte)
    requires low == 4 || low == 16
    requires Crc8.Xor(x, u) < low && Crc8.Xor(y, v) & (if low == 4 then 0x0f else 0x3f) == 0
    requires Crc8.Xor(x, u) != 0 || Crc8.Xor(y, v) != 0
    ensures Crc8.From(c, [x, y]) != Crc8.From(c, [u, v])
  {
    hide Crc8.Bits, Crc8.From, Crc8.Xor;
    Crc8.TwoBytes(c, x, y, u, v);
    Crc8.ShiftOut(Crc8.Xor(x, u));
    Crc8.BitsLinear(Crc8.Xor(x, u), 0, 8);
  }

  lemma Three(c: byte, x: byte, y: byte, z: byte)
    ensures Crc8.From(c, [x, y, z]) == Crc8.From(Crc8.From(c, [x]), [y, z])
    ensures Crc8.From(c, [x, y, z]) == Crc8.From(Crc8.From(c, [x, y]), [z])
    ensures Crc8.From(c, [x, y, z]) == Crc8.From(Crc8.From(Crc8.From(c, [x]), [y]), [z])
  {
    hide Crc8.Bits, Crc8.From;
    Crc8.FromConcat(c, [x], [y, z]);
    Crc8.FromConcat(c, [x, y], [z]);
    Crc8.FromConcat(c, [x], [y]);
    assert [x] + [y, z] == [x, y, z] && [x, y] + [z] == [x, y, z] && [x] + [y] == [x, y];
  }

  lemma FullUpdate(t: seq<byte>, i: nat, d: byte)
    requires Full(t) && i < |t| && Pem.IsDictionaryChar(d)
    ensures Full(t[i := d])
  {
  }

  /** One wrong character in a quad changes the register, from any state. */
  lemma QuadSeen(c: byte, q: seq<byte>, i: nat, d: byte)
    requires |q| == 4 && Full(q) && i < 4 && Pem.IsDictionaryChar(d)
    ensures Full(q[i := d]) && SevenBit(q) && SevenBit(q[i := d])
    ensures Crc8.From(c, Pem.DecodeQuad(q)) == Crc8.From(c, Pem.DecodeQuad(q[i := d]))
      <==> Pem.Inverse(d) == Pem.Inverse(q[i])
  {
    hide Crc8.Bits, Crc8.From, Pem.Inverse, Pem.Join12, Pem.Join23, Pem.Join34, Crc8.Xor, Pem.DecodeQuad, Pem.GoodQuad;
    FullUpdate(q, i, d);
    QuadBytes(q);
    QuadBytes(q[i := d]);
    assert q[i := d][i] == d;
    if Pem.Inverse(d) != Pem.Inverse(q[i]) {
      SextetSeen(c, Pem.Inverse(q[0]), Pem.Inverse(q[1]), Pem.Inverse(q[2]), Pem.Inverse(q[3]), i, Pem.Inverse(d));
    }
  }

  lemma SextetSeen(c: byte, b1: byte, b2: byte, b3: byte, b4: byte, i: nat, d: byte)
    requires b1 < 64 && b2 < 64 && b3 < 64 && b4 < 64 && d < 64 && i < 4
    requires d != (if i == 0 then b1 else if i == 1 then b2 else if i == 2 then b3 else b4)
    ensures Crc8.From(c, Bytes3(b1, b2, b3, b4)) != Crc8.From(c,
      Bytes3(if i == 0 then d else b1, if i == 1 then d else b2, if i == 2 then d else b3, if i == 3 then d else b4))
  {
    hide Crc8.Bits, Crc8.From, Pem.Join12, Pem.Join23, Pem.Join34, Crc8.Xor;
    var x, y, z := Pem.Join12(b1, b2), Pem.Join23(b2, b3), Pem.Join34(b3, b4);
    Three(c, x, y, z);
    if i == 0 {
      var u := Pem.Join12(d, b2);
      First(b1, b2, d);
      Three(c, u, y, z);
      Crc8.OneByte(c, x, u);
      Crc8.FromInjective(Crc8.From(c, [x]), Crc8.From(c, [u]), [y, z]);
    } else if i == 1 {
      var u, v := Pem.Join12(b1, d), Pem.Join23(d, b3);
      Second(b1, b2, b3, d);
      Three(c, u, v, z);
      BurstSeen(c, x, y, u, v, 4);
      Crc8.FromInjective(Crc8.From(c, [x, y]), Crc8.From(c, [u, v]), [z]);
    } else if i == 2 {
      var v, w := Pem.Join23(b2, d), Pem.Join34(d, b4);
      Third(b2, b3, b4, d);
      Three(c, x, v, w);
      BurstSeen(Crc8.From(c, [x]), y, z, v, w, 16);
    } else {
      var w := Pem.Join34(b3, d);
      Fourth(b3, b4, d);
      Three(c, x, y, w);
      Crc8.OneByte(Crc8.From(c, [x, y]), z, w);
    }
  }

  /** In a text of any length, one wrong character changes the check value of what is decoded. */
  lemma TypoSeen(t: seq<byte>, i: nat, d: byte)
    requires Full(t) && i < |t| && Pem.IsDictionaryChar(d)
    ensures Full(t[i := d]) && SevenBit(t) && SevenBit(t[i := d])
    ensures Crc8.Crc(Pem.Decode(t)) == Crc8.Crc(Pem.Decode(t[i := d])) <==> Pem.Inverse(d) == Pem.Inverse(t[i])
  {
    hide Crc8.Bits, Crc8.From, Pem.Inverse, Pem.Decode, Pem.DecodeQuad, Pem.IsPemChar, Full, Pem.IsDictionaryChar;
    var u := t[i := d];
    var at := i / 4 * 4;
    FullUpdate(t, i, d);
    FullText(t);
    FullText(u);
    FullLengths(t);
    FullSlice(t, 0, at);
    FullSlice(t, at, at + 4);
    FullSlice(t, at + 4, |t|);
    var q := t[at..at + 4];
    FullUpdate(q, i - at, d);
    assert t == t[0..at] + q + t[at + 4..|t|];
    assert u == t[0..at] + q[i - at := d] + t[at + 4..|t|];
    Pieces(t[0..at], q, t[at + 4..|t|]);
    Pieces(t[0..at], q[i - at := d], t[at + 4..|t|]);
    var c := Crc8.Crc(Pem.Decode(t[0..at]));
    QuadSeen(c, q, i - at, d);
    Crc8.FromInjective(
      Crc8.From(c, Pem.DecodeQuad(q)), Crc8.From(c, Pem.DecodeQuad(q[i - at := d])), Pem.Decode(t[at + 4..|t|]));
  }

  lemma FullLengths(t: seq<byte>)
    requires Full(t)
    ensures |t| % 4 == 0
  {
  }

  lemma Pieces(p: seq<byte>, q: seq<byte>, r: seq<byte>)
    requires Full(p) && Full(q) && |q| == 4 && Full(r)
    ensures SevenBit(p) && SevenBit(q) && SevenBit(r) && SevenBit(p + q + r)
    ensures Crc8.Crc(Pem.Decode(p + q + r))
      == Crc8.From(Crc8.From(Crc8.Crc(Pem.Decode(p)), Pem.DecodeQuad(q)), Pem.Decode(r))
  {
    hide Crc8.Bits, Crc8.From, Pem.Inverse, Pem.Decode, Pem.DecodeQuad, Full;
    FullText(p);
    FullText(q);
    FullText(r);
    QuadBytes(q);
    Pem.DecodeSnoc(p, q);
    Pem.DecodeConcat(p + q, r);
    Crc8.FromConcat(0xff, Pem.Decode(p) + Pem.DecodeQuad(q), Pem.Decode(r));
    Crc8.FromConcat(0xff, Pem.Decode(p), Pem.DecodeQuad(q));
  }

  lemma {:induction false} FullIff(t: seq<byte>)
    requires SevenBit(t) && |t| % 4 == 0
    ensures |Pem.Decode(t)| == 3 * (|t| / 4) <==> Full(t)
  {
    hide Pem.Inverse, Pem.IsPemChar, Full;
    if t == [] {
      FullNothing();
    } else {
      var q, rest := t[..4], t[4..];
      Pem.DecodeLength(rest);
      FullIff(rest);
      FirstQuad(q);
      if Full(t) {
        FullSlice(t, 0, 4);
        FullSlice(t, 4, |t|);
        assert t[0..4] == q && t[4..|t|] == rest;
      }
      if Full(q) && Full(rest) {
        FullConcat(q, rest);
        assert t == q + rest;
      }
    }
  }

  lemma FullNothing()
    ensures Full([]) && Pem.Decode([]) == []
  {
  }

  lemma FullConcat(q: seq<byte>, r: seq<byte>)
    requires |q| == 4 && Full(q) && Full(r)
    ensures Full(q + r)
  {
    hide Pem.IsPemChar;
    var t := q + r;
    forall i | 4 <= i < |t| && i % 4 >= 2
      ensures t[i] != Pem.FILLER
    {
      Mod4(4, i - 4);
      assert t[i] == r[i - 4];
    }
    forall i | 0 <= i < |t|
      ensures Pem.IsPemChar(t[i])
    {
      assert t[i] == if i < 4 then q[i] else r[i - 4];
    }
  }

  lemma FirstQuad(q: seq<byte>)
    requires |q| == 4 && SevenBit(q)
    ensures Full(q) <==> Pem.GoodQuad(q) && |Pem.DecodeQuad(q)| == 3
  {
    hide Pem.Inverse, Pem.Join12, Pem.Join23, Pem.Join34;
    assert 0 % 4 == 0 && 1 % 4 == 1 && 2 % 4 == 2 && 3 % 4 == 3;
  }

  /**
    * Typing errors are caught. Take a text of 44 characters that has been accepted because its check byte was right,
    * and put another of the 64 dictionary characters in any one place: it is refused, unless the new character means
    * the same as the old one. Only a filler, which reads as zero in the first half of a quad, can be replaced like
    * that.
    */
  lemma TypoRejected(s: seq<byte>, i: nat, d: byte)
    requires |s| == 44 && SevenBit(s) && |Pem.Decode(s)| == 33 && Extract(s).Some?
    requires i < 44 && Pem.IsDictionaryChar(d)
    ensures SevenBit(s[i := d]) && (Extract(s[i := d]) == None <==> Pem.Inverse(d) != Pem.Inverse(s[i]))
    ensures s[i] != Pem.FILLER && d != s[i] ==> Extract(s[i := d]) == None
  {
    hide Crc8.Bits, Crc8.From, Crc8.Crc, Pem.Inverse, Pem.Decode, Full;
    var t := s[i := d];
    FullIff(s);
    TypoSeen(s, i, d);
    FullIff(t);
    var m, n := Pem.Decode(s), Pem.Decode(t);
    assert m == m[..32] + [m[32]] && n == n[..32] + [n[32]];
    Crc8.CheckByte(m[..32], m[32]);
    Crc8.CheckByte(n[..32], n[32]);
    SameSextet(s, i, d);
    if Pem.Inverse(d) != Pem.Inverse(s[i]) {
      assert Crc8.Crc(n) != Crc8.Crc(m);
    }
  }

  lemma SameSextet(s: seq<byte>, i: nat, d: byte)
    requires Full(s) && i < |s| && Pem.IsDictionaryChar(d)
    ensures Pem.IsPemChar(s[i])
    ensures s[i] != Pem.FILLER ==> (Pem.Inverse(d) == Pem.Inverse(s[i]) <==> d == s[i])
  {
    hide Pem.Inverse, Pem.Dictionary;
    Pem.InverseDictionary(d);
    if s[i] != Pem.FILLER {
      Pem.InverseDictionary(s[i]);
    }
  }

  // ----- keys as they are printed -----

  /** The encoding of whole groups has no filler. */
  lemma {:induction false} NoFiller(x: seq<byte>)
    requires |x| % 3 == 0
    ensures |Pem.Encode(x)| == |x| / 3 * 4
    ensures forall i :: 0 <= i < |Pem.Encode(x)| ==> Pem.IsDictionaryChar(Pem.Encode(x)[i])
  {
    hide Pem.Dictionary, Pem.Inverse, Pem.Split1, Pem.Split12, Pem.Split23, Pem.Split3;
    if x != [] {
      var g := x[..3];
      Pem.DictionaryInverse(Pem.Split1(g[0]));
      Pem.DictionaryInverse(Pem.Split12(g[0], g[1]));
      Pem.DictionaryInverse(Pem.Split23(g[1], g[2]));
      Pem.DictionaryInverse(Pem.Split3(g[2]));
      NoFiller(x[3..]);
      assert Pem.Encode(x) == Pem.EncodeGroup(g) + Pem.Encode(x[3..]) by {
        if |x| == 3 {
          assert x == g && x[3..] == [];
        }
      }
    }
  }

  /** For a key as it is printed, any other dictionary character in any place is refused. */
  lemma PrintedKeyTypo(k: seq<byte>, i: nat, d: byte)
    requires |k| == 32 && i < 44 && Pem.IsDictionaryChar(d)
    ensures SevenBit(KeyText(k)) && |KeyText(k)| == 44 && SevenBit(KeyText(k)[i := d])
    ensures d != KeyText(k)[i] ==> Extract(KeyText(k)[i := d]) == None
  {
    hide Crc8.Crc, Pem.Decode, Pem.Encode, Pem.Inverse, Extract;
    var m := k + [Crc8.Crc(k)];
    KeyRoundTrip(k);
    Pem.RoundTrip(m);
    NoFiller(m);
    TypoRejected(KeyText(k), i, d);
  }

  lemma FillerReadsAsA(t: seq<byte>)
    requires SevenBit(t) && |t| >= 4 && t[0] == 65
    ensures SevenBit(t[0 := Pem.FILLER]) && Pem.Decode(t[0 := Pem.FILLER]) == Pem.Decode(t)
  {
    hide Pem.Join12, Pem.Join23, Pem.Join34;
    var u := t[0 := Pem.FILLER];
    assert u[..4] == t[..4][0 := Pem.FILLER] && u[4..] == t[4..];
    assert Pem.Inverse(Pem.FILLER) == 0 == Pem.Inverse(65);
  }

  /** The exception is real: some accepted texts begin with a filler, and an 'A' there means the same. */
  lemma FillerAccepted(k: seq<byte>)
    requires |k| == 32 && k[0] < 4
    ensures SevenBit(KeyText(k)) && |KeyText(k)| == 44 && KeyText(k)[0] == 65 && Pem.IsDictionaryChar(65)
    ensures var s := KeyText(k)[0 := Pem.FILLER];
      SevenBit(s) && Extract(s) == Some(k) && s[0 := 65] == KeyText(k) && Extract(s[0 := 65]) == Some(k)
  {
    KeyRoundTrip(k);
    FirstCharacter(k + [Crc8.Crc(k)]);
    hide Crc8.Crc, Pem.Decode, Pem.Encode, Pem.Dictionary;
    FillerReadsAsA(KeyText(k));
  }

  lemma FirstCharacter(x: seq<byte>)
    requires |x| > 3 && x[0] < 4
    ensures |Pem.Encode(x)| > 0 && Pem.Encode(x)[0] == 65
  {
    assert Pem.Split1(x[0]) == 0;
  }

  /**
    * A text does not fit the buffer of 33 bytes exactly if its good quads, three bytes each but for the fillers at
    * their ends, are too many. This needs at least 48 characters, which are enough if every quad
    * decodes to three bytes.
    */
  lemma OverrunsIff(s: seq<byte>)
    requires SevenBit(s)
    ensures var n := Pem.GoodQuads(s); |Pem.Decode(s)| > 33 <==> 3 * n > 33 + Pem.Dropped(s[..4 * n])
    ensures |s| < 48 ==> |Pem.Decode(s)| <= 33
    ensures Full(s) ==> (|Pem.Decode(s)| > 33 <==> |s| >= 48)
  {
    hide Pem.Decode, Pem.GoodQuads, Pem.Dropped, Full;
    Pem.DecodeLength(s);
    Pem.DecodedLength(s);
    if Full(s) {
      FullLengths(s);
      FullIff(s);
    }
  }

  /** Texts that do so: the encodings of 34 bytes and more, the shortest of which have 48 characters. */
  lemma LongKeyOverruns(x: seq<byte>)
    ensures SevenBit(Pem.Encode(x)) && (|Pem.Decode(Pem.Encode(x))| > 33 <==> |x| > 33)
    ensures |x| == 34 ==> |Pem.Encode(x)| == 48 && !Full(Pem.Encode(x))
  {
    hide Pem.Decode, Pem.Encode, Full;
    Pem.RoundTrip(x);
    Pem.EncodeShape(x);
    if Full(Pem.Encode(x)) {
      FullLengths(Pem.Encode(x));
      FullIff(Pem.Encode(x));
    }
  }
}
