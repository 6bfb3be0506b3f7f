// The block cipher under Skein-256 and its key schedule (device/skein/skein_block.c).
// "The Skein Hash Function Family" version 1.1, section 3.3, is the reference.

module Threefish {
  type word = bv64

  datatype Block = Block(x0: word, x1: word, x2: word, x3: word)

  const KS_PARITY: word := 0x5555_5555_5555_5555
  const ROUNDS: nat := 72
  const RCNT: nat := ROUNDS / 8

  /** The word congruent to `n`: unsigned 64-bit counters wrap around. */
  function {:tailrecursion false} Word(n: nat): word {
    if n == 0 then 0 else Plus(Word(n - 1), 1)
  }

  function Plus(a: word, b: word): word { a + b }
  function Xor(a: word, b: word): word { a ^ b }
  function Minus(a: word, b: word): word { a - b }

  lemma PlusAssociative(a: word, b: word, c: word)
    ensures Plus(Plus(a, b), c) == Plus(a, Plus(b, c))
  {
    assert Plus(a + b, c) == Plus(a, b + c);
  }

  lemma PlusZero(a: word)
    ensures Plus(a, 0) == a
  {
  }

  lemma {:induction false} WordSum(m: nat, n: nat)
    ensures Word(m + n) == Plus(Word(m), Word(n))
  {
    hide Plus;
    if n == 0 {
      PlusZero(Word(m));
    } else {
      WordSum(m, n - 1);
      PlusAssociative(Word(m), Word(n - 1), 1);
    }
  }

  /** Rotation counts of row `d % 8`, `R_256_d_0` and `R_256_d_1`. */
  function Rotations(d: nat): (r: (word, word))
    ensures 0 < r.0 < 64 && 0 < r.1 < 64
  {
    match d % 8
    case 0 => (5, 56)
    case 1 => (36, 28)
    case 2 => (13, 46)
    case 3 => (58, 44)
    case 4 => (26, 20)
    case 5 => (53, 35)
    case 6 => (11, 42)
    case _ => (59, 50)
  }

  function RotL(x: word, n: word): word
    requires 0 < n < 64
  {
    (x << n) | (x >> (64 - n))
  }

  function RotR(x: word, n: word): word
    requires 0 < n < 64
  {
    (x >> n) | (x << (64 - n))
  }

  function MixSum(a: word, b: word): word { Plus(a, b) }
  function MixXor(a: word, b: word, n: word): word requires 0 < n < 64 { Xor(RotL(b, n), Plus(a, b)) }
  function UnmixB(y0: word, y1: word, n: word): word requires 0 < n < 64 { RotR(Xor(y1, y0), n) }
  function UnmixA(y0: word, b: word): word { Minus(y0, b) }

  // ----- rounds as coded: the odd rounds swap the roles of words 1 and 3 -----

  /** `R256(0,1,2,3,..)` for even rows, `R256(0,3,2,1,..)` for odd rows. */
  function CodedRound(x: Block, d: nat): Block {
    var r := Rotations(d);
    if d % 2 == 0 then
      Block(MixSum(x.x0, x.x1), MixXor(x.x0, x.x1, r.0), MixSum(x.x2, x.x3), MixXor(x.x2, x.x3, r.1))
    else
      Block(MixSum(x.x0, x.x3), MixXor(x.x2, x.x1, r.1), MixSum(x.x2, x.x1), MixXor(x.x0, x.x3, r.0))
  }

  function FourRounds(x: Block, d: nat): Block {
    CodedRound(CodedRound(CodedRound(CodedRound(x, d), d + 1), d + 2), d + 3)
  }

  // ----- reference: MIX on adjacent words, then the permutation (0 3 2 1) -----

  function MixLayer(v: Block, d: nat): Block {
    var r := Rotations(d);
    Block(MixSum(v.x0, v.x1), MixXor(v.x0, v.x1, r.0), MixSum(v.x2, v.x3), MixXor(v.x2, v.x3, r.1))
  }

  function Permute(v: Block): Block {
    Block(v.x0, v.x3, v.x2, v.x1)
  }

  function Parity(a: word, b: word, c: word, d: word): word {
    Xor(Xor(Xor(Xor(a, b), c), d), KS_PARITY)
  }

  /** The extended key: four words and their parity word. */
  function ExtendedKey(k: Block): (e: seq<word>)
    ensures |e| == 5
  {
    [k.x0, k.x1, k.x2, k.x3, Parity(k.x0, k.x1, k.x2, k.x3)]
  }

  /** The five words of the extended key cancel up to the parity constant of the standard. */
  lemma KeyParity(k: Block)
    ensures var e := ExtendedKey(k); Xor(Xor(Xor(Xor(e[0], e[1]), e[2]), e[3]), e[4]) == 0x5555_5555_5555_5555
  {
    hide Xor;
    Twice(Xor(Xor(Xor(k.x0, k.x1), k.x2), k.x3), KS_PARITY);
  }

  lemma Twice(x: word, y: word)
    ensures Xor(x, Xor(x, y)) == y
  {
    assert Xor(x, x ^ y) == y;
  }

  function ExtendedTweak(t0: word, t1: word): (e: seq<word>)
    ensures |e| == 3
  {
    [t0, t1, Xor(t0, t1)]
  }

  datatype Schedule = Schedule(key: seq<word>, tweak: seq<word>) {
    predicate Valid() { |key| == 5 && |tweak| == 3 }
  }

  function KeySchedule(k: Block, t0: word, t1: word): (ks: Schedule)
    ensures ks.Valid()
  {
    Schedule(ExtendedKey(k), ExtendedTweak(t0, t1))
  }

  /** Subkey `s`: the key words rotated modulo 5, the tweak words modulo 3, the counter last. */
  function Subkey(ks: Schedule, s: nat): Block
    requires ks.Valid()
  {
    Block(ks.key[s % 5],
          Plus(ks.key[(s + 1) % 5], ks.tweak[s % 3]),
          Plus(ks.key[(s + 2) % 5], ks.tweak[(s + 1) % 3]),
          Plus(ks.key[(s + 3) % 5], Word(s)))
  }

  function AddBlock(x: Block, k: Block): Block {
    Block(Plus(x.x0, k.x0), Plus(x.x1, k.x1), Plus(x.x2, k.x2), Plus(x.x3, k.x3))
  }

  function SubBlock(x: Block, k: Block): Block {
    Block(Minus(x.x0, k.x0), Minus(x.x1, k.x1), Minus(x.x2, k.x2), Minus(x.x3, k.x3))
  }

  function XorBlock(x: Block, k: Block): Block {
    Block(Xor(x.x0, k.x0), Xor(x.x1, k.x1), Xor(x.x2, k.x2), Xor(x.x3, k.x3))
  }

  /** The reference state after `d` rounds; a subkey enters before every fourth round. */
  function ReferenceRounds(ks: Schedule, p: Block, d: nat): Block
    requires ks.Valid()
  {
    if d == 0 then p
    else
      var v := ReferenceRounds(ks, p, d - 1);
      var e := if (d - 1) % 4 == 0 then AddBlock(v, Subkey(ks, (d - 1) / 4)) else v;
      Permute(MixLayer(e, d - 1))
  }

  function Encrypt(ks: Schedule, p: Block): Block
    requires ks.Valid()
  {
    AddBlock(ReferenceRounds(ks, p, ROUNDS), Subkey(ks, ROUNDS / 4))
  }

  // ----- the coded cipher: state after injection `q` -----

  function Injected(ks: Schedule, p: Block, q: nat): Block
    requires ks.Valid()
  {
    if q == 0 then AddBlock(p, Subkey(ks, 0))
    else AddBlock(FourRounds(Injected(ks, p, q - 1), 4 * (q - 1)), Subkey(ks, q))
  }

  lemma TwoRoundsUnpermuted(v: Block, i: nat)
    ensures Permute(MixLayer(Permute(MixLayer(v, 2 * i)), 2 * i + 1)) == CodedRound(CodedRound(v, 2 * i), 2 * i + 1)
  {
    hide MixSum, MixXor, Rotations;
  }

  lemma KeyedStep(ks: Schedule, p: Block, s: nat)
    requires ks.Valid()
    ensures ReferenceRounds(ks, p, 4 * s + 1)
      == Permute(MixLayer(AddBlock(ReferenceRounds(ks, p, 4 * s), Subkey(ks, s)), 4 * s))
  {
    hide AddBlock, Subkey, MixLayer, Permute;
    assert 4 * s % 4 == 0 && 4 * s / 4 == s;
  }

  lemma PlainStep(ks: Schedule, p: Block, s: nat, i: nat)
    requires ks.Valid() && 0 < i < 4
    ensures ReferenceRounds(ks, p, 4 * s + i + 1) == Permute(MixLayer(ReferenceRounds(ks, p, 4 * s + i), 4 * s + i))
  {
    hide AddBlock, Subkey, MixLayer, Permute;
    assert (4 * s + i) % 4 == i;
  }

  lemma ReferenceHalves(ks: Schedule, p: Block, s: nat)
    requires ks.Valid()
    ensures ReferenceRounds(ks, p, 4 * s + 2)
         == CodedRound(CodedRound(AddBlock(ReferenceRounds(ks, p, 4 * s), Subkey(ks, s)), 4 * s), 4 * s + 1)
    ensures ReferenceRounds(ks, p, 4 * s + 4)
      == CodedRound(CodedRound(ReferenceRounds(ks, p, 4 * s + 2), 4 * s + 2), 4 * s + 3)
  {
    hide AddBlock, Subkey, MixLayer, Permute, CodedRound, ReferenceRounds;
    KeyedStep(ks, p, s);
    PlainStep(ks, p, s, 1);
    PlainStep(ks, p, s, 2);
    PlainStep(ks, p, s, 3);
    TwoRoundsUnpermuted(AddBlock(ReferenceRounds(ks, p, 4 * s), Subkey(ks, s)), 2 * s);
    TwoRoundsUnpermuted(ReferenceRounds(ks, p, 4 * s + 2), 2 * s + 1);
  }

  lemma ReferenceFourRounds(ks: Schedule, p: Block, s: nat)
    requires ks.Valid()
    ensures ReferenceRounds(ks, p, 4 * s + 4)
      == FourRounds(AddBlock(ReferenceRounds(ks, p, 4 * s), Subkey(ks, s)), 4 * s)
  {
    hide AddBlock, Subkey, CodedRound, ReferenceRounds;
    ReferenceHalves(ks, p, s);
  }

  lemma {:induction false} CodedRefinesReference(ks: Schedule, p: Block, q: nat)
    requires ks.Valid()
    ensures Injected(ks, p, q) == AddBlock(ReferenceRounds(ks, p, 4 * q), Subkey(ks, q))
  {
    hide AddBlock, Subkey, MixLayer, Permute, CodedRound, FourRounds;
    if q > 0 {
      CodedRefinesReference(ks, p, q - 1);
      ReferenceFourRounds(ks, p, q - 1);
    }
  }

  /** Eighteen times four coded rounds and nineteen injections are the reference cipher. */
  lemma CodedCipherIsReference(ks: Schedule, p: Block)
    requires ks.Valid()
    ensures Injected(ks, p, 2 * RCNT) == Encrypt(ks, p)
  {
    hide Injected, ReferenceRounds, AddBlock, Subkey;
    CodedRefinesReference(ks, p, 2 * RCNT);
  }

  // ----- the cipher is a permutation -----

  function UndoRound(y: Block, d: nat): Block {
    var r := Rotations(d);
    if d % 2 == 0 then
      var b1, b3 := UnmixB(y.x0, y.x1, r.0), UnmixB(y.x2, y.x3, r.1);
      Block(UnmixA(y.x0, b1), b1, UnmixA(y.x2, b3), b3)
    else
      var b3, b1 := UnmixB(y.x0, y.x3, r.0), UnmixB(y.x2, y.x1, r.1);
      Block(UnmixA(y.x0, b3), b1, UnmixA(y.x2, b1), b3)
  }

  function UndoFour(y: Block, d: nat): Block {
    UndoRound(UndoRound(UndoRound(UndoRound(y, d + 3), d + 2), d + 1), d)
  }

  function Uninjected(ks: Schedule, c: Block, q: nat): Block
    requires ks.Valid()
    decreases q
  {
    if q == 0 then SubBlock(c, Subkey(ks, 0))
    else Uninjected(ks, UndoFour(SubBlock(c, Subkey(ks, q)), 4 * (q - 1)), q - 1)
  }

  function Decrypt(ks: Schedule, c: Block): Block
    requires ks.Valid()
  {
    Uninjected(ks, c, 2 * RCNT)
  }

  ghost predicate RotationUndone(x: word, n: word)
    requires 0 < n < 64
  {
    RotR(RotL(x, n), n) == x && RotL(RotR(x, n), n) == x
  }

  lemma RotationsUndone01(x: word)
    ensures RotationUndone(x, 5) && RotationUndone(x, 56) && RotationUndone(x, 36) && RotationUndone(x, 28)
  {
    assert RotR((x << 5) | (x >> 59), 5) == x && RotL((x >> 5) | (x << 59), 5) == x;
    assert RotR((x << 56) | (x >> 8), 56) == x && RotL((x >> 56) | (x << 8), 56) == x;
    assert RotR((x << 36) | (x >> 28), 36) == x && RotL((x >> 36) | (x << 28), 36) == x;
    assert RotR((x << 28) | (x >> 36), 28) == x && RotL((x >> 28) | (x << 36), 28) == x;
  }

  lemma RotationsUndone23(x: word)
    ensures RotationUndone(x, 13) && RotationUndone(x, 46) && RotationUndone(x, 58) && RotationUndone(x, 44)
  {
    assert RotR((x << 13) | (x >> 51), 13) == x && RotL((x >> 13) | (x << 51), 13) == x;
    assert RotR((x << 46) | (x >> 18), 46) == x && RotL((x >> 46) | (x << 18), 46) == x;
    assert RotR((x << 58) | (x >> 6), 58) == x && RotL((x >> 58) | (x << 6), 58) == x;
    assert RotR((x << 44) | (x >> 20), 44) == x && RotL((x >> 44) | (x << 20), 44) == x;
  }

  lemma RotationsUndone45(x: word)
    ensures RotationUndone(x, 26) && RotationUndone(x, 20) && RotationUndone(x, 53) && RotationUndone(x, 35)
  {
    assert RotR((x << 26) | (x >> 38), 26) == x && RotL((x >> 26) | (x << 38), 26) == x;
    assert RotR((x << 20) | (x >> 44), 20) == x && RotL((x >> 20) | (x << 44), 20) == x;
    assert RotR((x << 53) | (x >> 11), 53) == x && RotL((x >> 53) | (x << 11), 53) == x;
    assert RotR((x << 35) | (x >> 29), 35) == x && RotL((x >> 35) | (x << 29), 35) == x;
  }

  lemma RotationsUndone67(x: word)
    ensures RotationUndone(x, 11) && RotationUndone(x, 42) && RotationUndone(x, 59) && RotationUndone(x, 50)
  {
    assert RotR((x << 11) | (x >> 53), 11) == x && RotL((x >> 11) | (x << 53), 11) == x;
    assert RotR((x << 42) | (x >> 22), 42) == x && RotL((x >> 42) | (x << 22), 42) == x;
    assert RotR((x << 59) | (x >> 5), 59) == x && RotL((x >> 59) | (x << 5), 59) == x;
    assert RotR((x << 50) | (x >> 14), 50) == x && RotL((x >> 50) | (x << 14), 50) == x;
  }

  /** A rotation count of some row. */
  predicate IsRotation(n: word) {
    exists d | 0 <= d < 8 :: n == Rotations(d).0 || n == Rotations(d).1
  }

  lemma RotateInverse(x: word, n: word)
    requires 0 < n < 64 && IsRotation(n)
    ensures RotationUndone(x, n)
  {
    hide RotL, RotR, RotationUndone;
    RotationsUndone01(x);
    RotationsUndone23(x);
    RotationsUndone45(x);
    RotationsUndone67(x);
  }

  lemma XorCancel(x: word, y: word)
    ensures Xor(Xor(x, y), y) == x
  {
  }

  lemma PlusMinus(x: word, y: word)
    ensures Minus(Plus(x, y), y) == x
  {
    assert Minus(x + y, y) == x;
  }

  lemma MinusPlus(x: word, y: word)
    ensures Plus(Minus(x, y), y) == x
  {
    assert Plus(x - y, y) == x;
  }

  lemma MixInverse(a: word, b: word, n: word)
    requires 0 < n < 64 && IsRotation(n)
    ensures UnmixB(MixSum(a, b), MixXor(a, b, n), n) == b
    ensures UnmixA(MixSum(a, b), b) == a
  {
    hide RotL, RotR, Plus, Minus, Xor, IsRotation;
    RotateInverse(b, n);
    XorCancel(RotL(b, n), Plus(a, b));
    PlusMinus(a, b);
  }

  lemma UnmixInverse(y0: word, y1: word, n: word)
    requires 0 < n < 64 && IsRotation(n)
    ensures var b := UnmixB(y0, y1, n); MixSum(UnmixA(y0, b), b) == y0 && MixXor(UnmixA(y0, b), b, n) == y1
  {
    hide RotL, RotR, Plus, Minus, Xor, IsRotation;
    var b := UnmixB(y0, y1, n);
    MinusPlus(y0, b);
    RotateInverse(Xor(y1, y0), n);
    XorCancel(y1, y0);
  }

  lemma RowIsRotation(d: nat)
    ensures IsRotation(Rotations(d).0) && IsRotation(Rotations(d).1)
  {
    assert Rotations(d) == Rotations(d % 8);
  }

  lemma RoundInverse(x: Block, d: nat)
    ensures UndoRound(CodedRound(x, d), d) == x && CodedRound(UndoRound(x, d), d) == x
  {
    hide MixSum, MixXor, UnmixA, UnmixB, Rotations, IsRotation;
    var r := Rotations(d);
    RowIsRotation(d);
    MixInverse(x.x0, x.x1, r.0);
    MixInverse(x.x2, x.x3, r.1);
    MixInverse(x.x0, x.x3, r.0);
    MixInverse(x.x2, x.x1, r.1);
    UnmixInverse(x.x0, x.x1, r.0);
    UnmixInverse(x.x2, x.x3, r.1);
    UnmixInverse(x.x0, x.x3, r.0);
    UnmixInverse(x.x2, x.x1, r.1);
  }

  lemma FourInverse(x: Block, d: nat)
    ensures UndoFour(FourRounds(x, d), d) == x && FourRounds(UndoFour(x, d), d) == x
  {
    hide CodedRound, UndoRound;
    var x1 := CodedRound(x, d);
    var x2 := CodedRound(x1, d + 1);
    var x3 := CodedRound(x2, d + 2);
    RoundInverse(x, d);
    RoundInverse(x1, d + 1);
    RoundInverse(x2, d + 2);
    RoundInverse(x3, d + 3);
    var y3 := UndoRound(x, d + 3);
    var y2 := UndoRound(y3, d + 2);
    var y1 := UndoRound(y2, d + 1);
    RoundInverse(x, d + 3);
    RoundInverse(y3, d + 2);
    RoundInverse(y2, d + 1);
    RoundInverse(y1, d);
  }

  lemma AddInverse(x: Block, k: Block)
    ensures SubBlock(AddBlock(x, k), k) == x && AddBlock(SubBlock(x, k), k) == x
  {
    hide Plus, Minus;
    PlusMinus(x.x0, k.x0);
    MinusPlus(x.x0, k.x0);
    PlusMinus(x.x1, k.x1);
    MinusPlus(x.x1, k.x1);
    PlusMinus(x.x2, k.x2);
    MinusPlus(x.x2, k.x2);
    PlusMinus(x.x3, k.x3);
    MinusPlus(x.x3, k.x3);
  }

  lemma {:induction false} InjectedInverse(ks: Schedule, x: Block, q: nat)
    requires ks.Valid()
    ensures Uninjected(ks, Injected(ks, x, q), q) == x
    ensures Injected(ks, Uninjected(ks, x, q), q) == x
    decreases q
  {
    hide AddBlock, SubBlock, Subkey, FourRounds, UndoFour;
    if q == 0 {
      AddInverse(x, Subkey(ks, 0));
    } else {
      var d := 4 * (q - 1);
      var before := Injected(ks, x, q - 1);
      AddInverse(FourRounds(before, d), Subkey(ks, q));
      FourInverse(before, d);
      InjectedInverse(ks, x, q - 1);
      var undone := UndoFour(SubBlock(x, Subkey(ks, q)), d);
      AddInverse(x, Subkey(ks, q));
      FourInverse(SubBlock(x, Subkey(ks, q)), d);
      InjectedInverse(ks, undone, q - 1);
    }
  }

  /** For every key and tweak the cipher has `Decrypt` as its two-sided inverse. */
  lemma EncryptIsPermutation(ks: Schedule, x: Block)
    requires ks.Valid()
    ensures Decrypt(ks, Encrypt(ks, x)) == x && Encrypt(ks, Decrypt(ks, x)) == x
  {
    hide Injected, Uninjected, ReferenceRounds, AddBlock, Subkey;
    CodedCipherIsReference(ks, x);
    CodedCipherIsReference(ks, Decrypt(ks, x));
    InjectedInverse(ks, x, 2 * RCNT);
  }

  lemma EncryptInjective(ks: Schedule, x: Block, y: Block)
    requires ks.Valid() && x != y
    ensures Encrypt(ks, x) != Encrypt(ks, y)
  {
    hide Encrypt, Decrypt;
    EncryptIsPermutation(ks, x);
    EncryptIsPermutation(ks, y);
  }
}

/** The array trick of the looping key schedule, for any state size and any round count. */
module SlidingSchedule {
  /** `ts` is `kw`, `ks` is `kw + 3`. */
  const KEY_BASE: nat := 3

  function ArrayLength(wcnt: nat, rcnt: nat): nat {
    wcnt + 4 + rcnt * 2
  }

  /** Element `n` of the endless repetition of `s`. */
  function At<T>(s: seq<T>, n: nat): T
    requires |s| > 0
  {
    s[n % |s|]
  }

  /** Injection `q` has been made: both windows start at `q`. */
  ghost predicate Window<T>(kw: seq<T>, key: seq<T>, tweak: seq<T>, q: nat)
    requires |tweak| == 3 && |key| >= 2 && KEY_BASE + q + |key| <= |kw|
  {
    && (forall n :: q <= n < q + |key| ==> kw[KEY_BASE + n] == At(key, n))
    && (forall n :: q <= n < q + 3 ==> kw[n] == At(tweak, n))
  }

  /** The two writes of `I256`: the second lands on the key word the first one copied away. */
  function Rotate<T>(kw: seq<T>, wcnt: nat, q: nat): (r: seq<T>)
    requires q >= 1 && KEY_BASE + q + wcnt < |kw|
    ensures |r| == |kw|
  {
    var kw1 := kw[KEY_BASE + q + wcnt := kw[KEY_BASE + q - 1]];
    kw1[q + 2 := kw1[q - 1]]
  }

  lemma MulMonotone(a: int, b: int, m: nat)
    requires a <= b
    ensures a * m <= b * m
  {
    assert (b - a) * m >= 0;
    assert (b - a) * m == b * m - a * m;
  }

  lemma DivUnique(a: nat, m: nat, c: int, r: nat)
    requires m > 0 && r < m && a == c * m + r
    ensures a % m == r
  {
    var c' := a / m;
    assert a == m * c' + a % m == c' * m + a % m;
    assert (c + 1) * m == c * m + m && (c' + 1) * m == c' * m + m;
    if c' > c {
      MulMonotone(c + 1, c', m);
    } else if c' < c {
      MulMonotone(c' + 1, c, m);
    }
  }

  lemma AtStep<T>(s: seq<T>, n: nat)
    requires |s| > 0
    ensures At(s, n + |s|) == At(s, n)
  {
    var m := |s|;
    assert n == m * (n / m) + n % m;
    assert n + m == (n / m + 1) * m + n % m;
    DivUnique(n + m, m, n / m + 1, n % m);
  }

  lemma WindowSlides<T>(kw: seq<T>, key: seq<T>, tweak: seq<T>, q: nat)
    requires q >= 1 && |key| >= 2 && |tweak| == 3 && KEY_BASE + q + |key| <= |kw| && Window(kw, key, tweak, q - 1)
    ensures Window(Rotate(kw, |key| - 1, q), key, tweak, q)
  {
    hide At;
    AtStep(key, q - 1);
    AtStep(tweak, q - 1);
    assert At(key, q - 1) == kw[KEY_BASE + q - 1];
    assert At(tweak, q - 1) == kw[q - 1];
    var r := Rotate(kw, |key| - 1, q);
    forall n | q <= n < q + |key| ensures r[KEY_BASE + n] == At(key, n) {
    }
  }

  /** The array after `q` injections of a block that starts with `kw`. */
  function Walk<T>(kw: seq<T>, wcnt: nat, q: nat): (r: seq<T>)
    requires KEY_BASE + q + wcnt < |kw|
    ensures |r| == |kw|
  {
    if q == 0 then kw else Rotate(Walk(kw, wcnt, q - 1), wcnt, q)
  }

  /** Whatever the state size and the number of rounds, the sliding windows hold the modular schedule. */
  lemma {:induction false} SlidingIsModular<T>(kw: seq<T>, key: seq<T>, tweak: seq<T>, rcnt: nat, q: nat)
    requires |key| >= 2 && |tweak| == 3 && |kw| == ArrayLength(|key| - 1, rcnt) && q <= 2 * rcnt
    requires kw[..3] == tweak && kw[3..3 + |key|] == key
    ensures Window(Walk(kw, |key| - 1, q), key, tweak, q)
  {
    if q == 0 {
      forall n | 0 <= n < |key| ensures kw[KEY_BASE + n] == At(key, n) {
        assert kw[3..3 + |key|][n] == key[n];
        DivUnique(n, |key|, 0, n);
      }
      forall n | 0 <= n < 3 ensures kw[n] == At(tweak, n) {
        assert kw[..3][n] == tweak[n];
      }
    } else {
      SlidingIsModular(kw, key, tweak, rcnt, q - 1);
      WindowSlides(Walk(kw, |key| - 1, q - 1), key, tweak, q);
    }
  }

  /** Both writes of injection `q` stay inside an array of `length` cells. */
  ghost predicate Fits(wcnt: nat, q: nat, length: nat) {
    KEY_BASE + q + wcnt < length && q + 2 < length
  }

  /** `ArrayLength` is exact: the injections of a block fit an array if and only if it has that many cells. */
  lemma ArrayIsExact(wcnt: nat, rcnt: nat, length: nat)
    requires rcnt > 0
    ensures (forall q :: 1 <= q <= 2 * rcnt ==> Fits(wcnt, q, length)) <==> ArrayLength(wcnt, rcnt) <= length
  {
    if forall q :: 1 <= q <= 2 * rcnt ==> Fits(wcnt, q, length) {
      assert Fits(wcnt, 2 * rcnt, length);
    }
  }
}
