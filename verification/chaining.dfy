// UBI chaining and the running state of Skein-256 (device/skein/skein.c, device/skein/skein.h).
// The reference is section 3.4 of "The Skein Hash Function Family", version 1.1.

module Chaining {
  import opened Bytes
  import opened Threefish

  const BLOCK_BYTES: nat := 32

  const T1_FIRST: word := 0x4000_0000_0000_0000
  const T1_FINAL: word := 0x8000_0000_0000_0000
  const TYPE_KEY: word := 0
  const TYPE_CFG: word := 0x0400_0000_0000_0000
  const TYPE_PERS: word := 0x0800_0000_0000_0000
  const TYPE_MSG: word := 0x3000_0000_0000_0000
  const TYPE_OUT: word := 0x3f00_0000_0000_0000

  function LoadWord(b0: byte, b1: byte, b2: byte, b3: byte, b4: byte, b5: byte, b6: byte, b7: byte): word {
    (b0 as word) + ((b1 as word) << 8) + ((b2 as word) << 16) + ((b3 as word) << 24)
    + ((b4 as word) << 32) + ((b5 as word) << 40) + ((b6 as word) << 48) + ((b7 as word) << 56)
  }

  function LoadAt(s: seq<byte>, i: nat): word
    requires i + 8 <= |s|
  {
    LoadWord(s[i], s[i + 1], s[i + 2], s[i + 3], s[i + 4], s[i + 5], s[i + 6], s[i + 7])
  }

  function LoadBlock(s: seq<byte>): Block
    requires |s| == BLOCK_BYTES
  {
    Block(LoadAt(s, 0), LoadAt(s, 8), LoadAt(s, 16), LoadAt(s, 24))
  }

  function StoreWord(w: word): (s: seq<byte>)
    ensures |s| == 8
  {
    [(w & 0xff) as byte, ((w >> 8) & 0xff) as byte, ((w >> 16) & 0xff) as byte, ((w >> 24) & 0xff) as byte,
     ((w >> 32) & 0xff) as byte, ((w >> 40) & 0xff) as byte, ((w >> 48) & 0xff) as byte, ((w >> 56) & 0xff) as byte]
  }

  function StoreBlock(x: Block): (s: seq<byte>)
    ensures |s| == BLOCK_BYTES
  {
    StoreWord(x.x0) + StoreWord(x.x1) + StoreWord(x.x2) + StoreWord(x.x3)
  }

  function Or(a: word, b: word): word { a | b }
  function ClearFirst(t1: word): word { t1 & 0xbfff_ffff_ffff_ffff }

  /** One block through the tweakable cipher, with the feed-forward. */
  function Compress(g: Block, t0: word, t1: word, w: Block): Block {
    XorBlock(Encrypt(KeySchedule(g, t0, t1), w), w)
  }

  lemma Undone(x: word, w: word)
    ensures Xor(Xor(x, w), w) == x
  {
    assert Xor(x ^ w, w) == x;
  }

  /** What is fed forward is the message block: without it, the cipher can be undone. */
  lemma FeedForwardUndone(g: Block, t0: word, t1: word, w: Block)
    ensures Decrypt(KeySchedule(g, t0, t1), XorBlock(Compress(g, t0, t1, w), w)) == w
  {
    hide Encrypt, Decrypt, KeySchedule, Xor;
    var ks := KeySchedule(g, t0, t1);
    var x := Encrypt(ks, w);
    EncryptIsPermutation(ks, w);
    Undone(x.x0, w.x0);
    Undone(x.x1, w.x1);
    Undone(x.x2, w.x2);
    Undone(x.x3, w.x3);
    assert XorBlock(XorBlock(x, w), w) == x;
  }

  // ----- reference: UBI with the tweak of each block computed from its index -----

  /** The number of blocks of an `n`-byte message; the empty message still has one. */
  function BlockCount(n: nat): (k: nat)
    ensures k >= 1
  {
    if n == 0 then 1 else (n + 31) / 32
  }

  function ZeroPad(m: seq<byte>, k: nat): (p: seq<byte>)
    requires |m| <= BLOCK_BYTES * k
    ensures |p| == BLOCK_BYTES * k
  {
    m + Fill(BLOCK_BYTES * k - |m|, 0)
  }

  /** Block `i` of the padded message. */
  function MessageBlock(m: seq<byte>, i: nat): (s: seq<byte>)
    requires i < BlockCount(|m|)
    ensures |s| == BLOCK_BYTES
  {
    ZeroPad(m, BlockCount(|m|))[BLOCK_BYTES * i..BLOCK_BYTES * i + BLOCK_BYTES]
  }

  /** Bytes of `m` up to and including block `i`. */
  function Position(m: seq<byte>, i: nat): nat {
    if |m| <= BLOCK_BYTES * (i + 1) then |m| else BLOCK_BYTES * (i + 1)
  }

  function Flags(m: seq<byte>, typ: word, i: nat): word {
    var first := if i == 0 then Or(typ, T1_FIRST) else typ;
    if i + 1 == BlockCount(|m|) then Or(first, T1_FINAL) else first
  }

  function UbiBlocks(g: Block, m: seq<byte>, typ: word, k: nat): Block
    requires k <= BlockCount(|m|)
  {
    if k == 0 then g
    else
      Compress(UbiBlocks(g, m, typ, k - 1), Word(Position(m, k - 1)), Flags(m, typ, k - 1),
               LoadBlock(MessageBlock(m, k - 1)))
  }

  function Ubi(g: Block, m: seq<byte>, typ: word): Block {
    UbiBlocks(g, m, typ, BlockCount(|m|))
  }

  // ----- the code's running state -----

  datatype Chain = Chain(x: Block, t0: word, t1: word)

  /** `Skein_Start_New_Type`. */
  function NewType(x: Block, typ: word): Chain {
    Chain(x, 0, Or(T1_FIRST, typ))
  }

  function Absorb(c: Chain, block: seq<byte>, add: nat): Chain
    requires |block| == BLOCK_BYTES
  {
    var t0 := Plus(c.t0, Word(add));
    Chain(Compress(c.x, t0, c.t1, LoadBlock(block)), t0, ClearFirst(c.t1))
  }

  function AbsorbBlocks(c: Chain, data: seq<byte>, add: nat, n: nat): Chain
    requires BLOCK_BYTES * n <= |data|
  {
    if n == 0 then c
    else Absorb(AbsorbBlocks(c, data, add, n - 1), data[BLOCK_BYTES * (n - 1)..BLOCK_BYTES * n], add)
  }

  lemma {:induction false} AbsorbPrefix(c: Chain, d: seq<byte>, e: seq<byte>, add: nat, n: nat)
    requires BLOCK_BYTES * n <= |d| <= |e| && d == e[..|d|]
    ensures AbsorbBlocks(c, d, add, n) == AbsorbBlocks(c, e, add, n)
  {
    hide Absorb;
    if n > 0 {
      AbsorbPrefix(c, d, e, add, n - 1);
      assert d[BLOCK_BYTES * (n - 1)..BLOCK_BYTES * n] == e[BLOCK_BYTES * (n - 1)..BLOCK_BYTES * n];
    }
  }

  lemma {:induction false} AbsorbAppend(c: Chain, d: seq<byte>, add: nat, k: nat, n: nat)
    requires BLOCK_BYTES * (k + n) <= |d|
    ensures AbsorbBlocks(AbsorbBlocks(c, d, add, k), d[BLOCK_BYTES * k..BLOCK_BYTES * (k + n)], add, n)
      == AbsorbBlocks(c, d, add, k + n)
  {
    hide Absorb;
    if n > 0 {
      var e := d[BLOCK_BYTES * k..BLOCK_BYTES * (k + n)];
      var e' := d[BLOCK_BYTES * k..BLOCK_BYTES * (k + (n - 1))];
      AbsorbAppend(c, d, add, k, n - 1);
      assert e' == e[..|e'|];
      AbsorbPrefix(AbsorbBlocks(c, d, add, k), e', e, add, n - 1);
      assert e[BLOCK_BYTES * (n - 1)..BLOCK_BYTES * n] == d[BLOCK_BYTES * (k + n - 1)..BLOCK_BYTES * (k + n)];
    }
  }

  /** Blocks compressed while a message of `n` bytes is being fed: the last 1..32 bytes stay buffered. */
  function FullBlocks(n: nat): (k: nat)
    ensures BLOCK_BYTES * k <= n
    ensures n > 0 ==> 1 <= n - BLOCK_BYTES * k <= BLOCK_BYTES
  {
    if n == 0 then 0 else (n - 1) / BLOCK_BYTES
  }

  lemma FullBlocksUnique(n: nat, k: nat)
    requires n == 0 == k || (n > 0 && 1 <= n - BLOCK_BYTES * k <= BLOCK_BYTES)
    ensures FullBlocks(n) == k
  {
  }

  /** A block type leaves the two position flags free. */
  predicate IsType(typ: word) {
    typ & T1_FIRST == 0 && typ & T1_FINAL == 0
  }

  lemma MaskRestores(t: word)
    requires t & T1_FIRST == 0
    ensures (t | T1_FIRST) & 0xbfff_ffff_ffff_ffff == t
  {
  }

  lemma ClearAfterOr(t: word)
    requires t & T1_FIRST == 0
    ensures ClearFirst(Or(t, T1_FIRST)) == t
  {
    MaskRestores(t);
    assert ClearFirst(t | T1_FIRST) == t;
    assert Or(t, T1_FIRST) == t | T1_FIRST;
  }

  lemma ClearOfClear(t: word)
    requires t & T1_FIRST == 0
    ensures ClearFirst(t) == t
  {
  }

  lemma FlagCleared(typ: word)
    requires IsType(typ)
    ensures ClearFirst(typ) == typ && ClearFirst(Or(typ, T1_FIRST)) == typ
  {
    hide Or, ClearFirst;
    ClearAfterOr(typ);
    ClearOfClear(typ);
  }

  lemma FlagOrder(typ: word)
    ensures Or(T1_FIRST, typ) == Or(typ, T1_FIRST)
  {
    assert Or(T1_FIRST, typ) == typ | 0x4000_0000_0000_0000;
    assert Or(typ, T1_FIRST) == typ | 0x4000_0000_0000_0000;
  }

  /** The running state after `k` full blocks is UBI's, its position word counts the absorbed bytes
      modulo 2^64, and the FIRST flag is up only before the first block. */
  lemma {:induction false} RunningState(g: Block, m: seq<byte>, typ: word, k: nat)
    requires IsType(typ) && k <= FullBlocks(|m|)
    ensures AbsorbBlocks(NewType(g, typ), m, BLOCK_BYTES, k)
         == Chain(UbiBlocks(g, m, typ, k), Word(BLOCK_BYTES * k), if k == 0 then Or(typ, T1_FIRST) else typ)
  {
    hide Compress, Or, ClearFirst, IsType, Plus, LoadBlock, Word;
    FlagCleared(typ);
    FlagOrder(typ);
    if k == 0 {
      assert Word(0) == 0 by { WordZero(); }
    } else {
      RunningState(g, m, typ, k - 1);
      WordSum(BLOCK_BYTES * (k - 1), BLOCK_BYTES);
      assert BLOCK_BYTES * (k - 1) + BLOCK_BYTES == BLOCK_BYTES * k;
      MessageBlockWithin(m, k - 1);
    }
  }

  lemma WordZero()
    ensures Word(0) == 0
  {
  }

  lemma MessageBlockWithin(m: seq<byte>, i: nat)
    requires i < FullBlocks(|m|)
    ensures i + 1 < BlockCount(|m|) && Position(m, i) == BLOCK_BYTES * (i + 1)
    ensures MessageBlock(m, i) == m[BLOCK_BYTES * i..BLOCK_BYTES * (i + 1)]
  {
  }

  /** The bytes still buffered after feeding `m`, and the same filled up with zeros. */
  function Tail(m: seq<byte>): (t: seq<byte>)
    ensures |t| <= BLOCK_BYTES
  {
    m[BLOCK_BYTES * FullBlocks(|m|)..]
  }

  function PaddedTail(m: seq<byte>): (t: seq<byte>)
    ensures |t| == BLOCK_BYTES
  {
    Tail(m) + Fill(BLOCK_BYTES - |Tail(m)|, 0)
  }

  lemma LastBlock(m: seq<byte>)
    ensures FullBlocks(|m|) + 1 == BlockCount(|m|)
    ensures Position(m, FullBlocks(|m|)) == |m| && MessageBlock(m, FullBlocks(|m|)) == PaddedTail(m)
  {
  }

  /** Padding the buffered bytes and compressing them under FINAL completes the UBI call. */
  lemma FinalBlockCompletesUbi(g: Block, m: seq<byte>, typ: word)
    requires IsType(typ)
    ensures var c := AbsorbBlocks(NewType(g, typ), m, BLOCK_BYTES, FullBlocks(|m|));
      Absorb(c.(t1 := Or(c.t1, T1_FINAL)), PaddedTail(m), |Tail(m)|).x == Ubi(g, m, typ)
  {
    hide Compress, Or, ClearFirst, IsType, Plus, LoadBlock, Word, MessageBlock,
      AbsorbBlocks, UbiBlocks, NewType, FullBlocks, BlockCount, Position, PaddedTail;
    var k := FullBlocks(|m|);
    RunningState(g, m, typ, k);
    LastBlock(m);
    WordSum(BLOCK_BYTES * k, |Tail(m)|);
    assert BLOCK_BYTES * k + |Tail(m)| == |m|;
    UbiStep(g, m, typ, k);
  }

  lemma UbiStep(g: Block, m: seq<byte>, typ: word, k: nat)
    requires k < BlockCount(|m|)
    ensures UbiBlocks(g, m, typ, k + 1)
         == Compress(UbiBlocks(g, m, typ, k), Word(Position(m, k)), Flags(m, typ, k), LoadBlock(MessageBlock(m, k)))
  {
    hide Compress, Flags, LoadBlock, Word, MessageBlock, Position;
  }

  // ----- output stage, keyed initialisation, personalisation -----

  /** A one-block UBI call as the code makes it: both position flags set, `m` zero-padded. */
  lemma SingleBlock(g: Block, m: seq<byte>, typ: word)
    requires IsType(typ) && |m| <= BLOCK_BYTES
    ensures Ubi(g, m, typ)
      == Compress(g, Word(|m|), Or(Or(typ, T1_FIRST), T1_FINAL), LoadBlock(m + Fill(BLOCK_BYTES - |m|, 0)))
  {
    hide Compress, LoadBlock, Word, Or;
    UbiStep(g, m, typ, 0);
    assert BlockCount(|m|) == 1 && MessageBlock(m, 0) == m + Fill(BLOCK_BYTES - |m|, 0);
  }

  /** The 32-byte blocks of output, each keyed by the chaining value and fed its index. */
  function OutputBlock(g: Block, i: nat): (s: seq<byte>)
    ensures |s| == BLOCK_BYTES
  {
    StoreBlock(Ubi(g, StoreWord(Word(i)), TYPE_OUT))
  }

  /** The types have the numbers of the standard, in the top byte of the tweak. */
  lemma TypeNumbers()
    ensures TYPE_KEY == 0 << 56 && TYPE_CFG == 4 << 56 && TYPE_PERS == 8 << 56 && TYPE_MSG == 48 << 56
    ensures TYPE_OUT == 63 << 56
  {
  }

  /** The first 32 bytes of output: one block of eight zero bytes, padded, with type, first and last in its tweak. */
  lemma FirstOutput(g: Block)
    ensures Output(g, 32) == StoreBlock(Compress(g, 8, 0xff00_0000_0000_0000, Block(0, 0, 0, 0)))
  {
    hide Compress, Word, Or, LoadBlock, StoreBlock, IsType, Ubi, StoreWord;
    var m := StoreWord(Word(0));
    OutputTweak();
    SingleBlock(g, m, TYPE_OUT);
    ZeroWord();
    assert OutputBlocks(g, 0) == [] && OutputBlocks(g, 1) == OutputBlock(g, 0) && (32 + 31) / 32 == 1;
  }

  lemma OutputTweak()
    ensures Or(Or(TYPE_OUT, T1_FIRST), T1_FINAL) == 0xff00_0000_0000_0000 && Word(8) == 8 && IsType(TYPE_OUT)
  {
  }

  lemma ZeroWord()
    ensures LoadBlock(StoreWord(Word(0)) + Fill(24, 0)) == Block(0, 0, 0, 0)
  {
    hide StoreWord, LoadWord;
    LoadStore(Block(0, 0, 0, 0));
    StoreZero();
    assert StoreWord(Word(0)) + Fill(24, 0) == StoreBlock(Block(0, 0, 0, 0));
  }

  lemma StoreZero()
    ensures StoreWord(0) == Fill(8, 0) && Word(0) == 0
  {
  }

  function OutputBlocks(g: Block, k: nat): (s: seq<byte>)
    ensures |s| == BLOCK_BYTES * k
  {
    if k == 0 then [] else OutputBlocks(g, k - 1) + OutputBlock(g, k - 1)
  }

  function Output(g: Block, n: nat): (s: seq<byte>)
    ensures |s| == n
  {
    OutputBlocks(g, (n + 31) / 32)[..n]
  }

  const SCHEMA_VER: word := 0x1_3341_4853

  function Config(hashBitLen: nat, treeInfo: word): (s: seq<byte>)
    ensures |s| == BLOCK_BYTES
  {
    StoreWord(SCHEMA_VER) + StoreWord(Word(hashBitLen)) + StoreWord(treeInfo) + Fill(8, 0)
  }

  /** "SHA3" and version 1, the length of the output in bits, the tree parameters, and eight zeros. */
  lemma ConfigFields(n: nat, tree: word)
    ensures var c := Config(n, tree);
      c[..8] == [83, 72, 65, 51, 1, 0, 0, 0] && c[8..16] == StoreWord(Word(n)) && c[16..24] == StoreWord(tree)
      && c[24..] == Fill(8, 0)
  {
    SchemaBytes();
    hide StoreWord, Word;
  }

  lemma SchemaBytes()
    ensures StoreWord(SCHEMA_VER) == [83, 72, 65, 51, 1, 0, 0, 0]
  {
  }

  const ZERO_BLOCK: Block := Block(0, 0, 0, 0)

  /** The chaining value before the message: key stage (if there is a key), then the configuration. */
  function InitialValue(hashBitLen: nat, treeInfo: word, key: seq<byte>): Block {
    Ubi(if key == [] then ZERO_BLOCK else Ubi(ZERO_BLOCK, key, TYPE_KEY), Config(hashBitLen, treeInfo), TYPE_CFG)
  }

  lemma LoadStoreWord(w: word)
    ensures var s := StoreWord(w); LoadWord(s[0], s[1], s[2], s[3], s[4], s[5], s[6], s[7]) == w
  {
  }

  lemma LoadStore(x: Block)
    ensures LoadBlock(StoreBlock(x)) == x
  {
    hide LoadWord, StoreWord;
    LoadStoreWord(x.x0);
    LoadStoreWord(x.x1);
    LoadStoreWord(x.x2);
    LoadStoreWord(x.x3);
  }

  lemma FlagConstants()
    ensures IsType(TYPE_KEY) && IsType(TYPE_CFG) && IsType(TYPE_PERS) && IsType(TYPE_MSG) && IsType(TYPE_OUT)
    ensures Or(T1_FIRST, Or(TYPE_CFG, T1_FINAL)) == Or(Or(TYPE_CFG, T1_FIRST), T1_FINAL)
    ensures Or(T1_FIRST, Or(TYPE_OUT, T1_FINAL)) == Or(Or(TYPE_OUT, T1_FIRST), T1_FINAL)
  {
  }
}
