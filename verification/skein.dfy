// The Skein-256 context and the routines that change it in place (device/skein/skein.c, device/skein/skein_block.c).

module Skein {
  import opened Bytes
  import opened Threefish
  import opened SlidingSchedule
  import opened Chaining

  /** Both schedule windows of `kw` at injection `q`, read as a subkey. */
  function WindowSubkey(kw: seq<word>, q: nat): Block
    requires q + 3 + 4 < |kw|
  {
    Block(kw[KEY_BASE + q], Plus(kw[KEY_BASE + q + 1], kw[q]),
     Plus(kw[KEY_BASE + q + 2], kw[q + 1]), Plus(kw[KEY_BASE + q + 3], Word(q)))
  }

  lemma WindowReadsSubkey(kw: seq<word>, ks: Schedule, q: nat, base: nat)
    requires ks.Valid() && base <= q <= base + 1 && KEY_BASE + base + 5 <= |kw| && q + 7 < |kw|
    requires Window(kw, ks.key, ks.tweak, base)
    ensures WindowSubkey(kw, q) == Subkey(ks, q)
  {
    hide Word, Plus;
    assert At(ks.key, q) == kw[KEY_BASE + q];
    assert At(ks.key, q + 1) == kw[KEY_BASE + (q + 1)];
    assert At(ks.key, q + 2) == kw[KEY_BASE + (q + 2)];
    assert At(ks.key, q + 3) == kw[KEY_BASE + (q + 3)];
    assert At(ks.tweak, q) == kw[q];
    assert At(ks.tweak, q + 1) == kw[q + 1];
  }

  /** `I256`: adds the subkey the windows show and slides both windows by one. */
  method Inject(kw: array<word>, q: nat, x: Block) returns (y: Block)
    requires q >= 1 && KEY_BASE + q + 4 < kw.Length
    modifies kw
    ensures y == AddBlock(x, WindowSubkey(old(kw[..]), q))
    ensures kw[..] == Rotate(old(kw[..]), 4, q)
  {
    hide Word, Plus;
    y := AddBlock(x, WindowSubkey(kw[..], q));
    kw[KEY_BASE + q + 4] := kw[KEY_BASE + q - 1];
    kw[q + 2] := kw[q - 1];
  }

  lemma RowsRepeat(x: Block, d: nat, i: nat)
    requires d < 8
    ensures CodedRound(x, d) == CodedRound(x, 8 * i + d)
  {
    hide MixSum, MixXor, Rotations;
    assert Rotations(8 * i + d) == Rotations(d) by { RotationsRepeat(d, i); }
    RowParity(d, i);
  }

  lemma RowParity(d: nat, i: nat)
    ensures (8 * i + d) % 2 == d % 2
  {
  }

  lemma RotationsRepeat(d: nat, i: nat)
    requires d < 8
    ensures Rotations(8 * i + d) == Rotations(d)
  {
    assert (8 * i + d) % 8 == d;
  }

  lemma FourRoundsRepeat(x: Block, i: nat, odd: nat)
    requires odd < 2
    ensures FourRounds(x, 4 * odd) == FourRounds(x, 4 * (2 * i + odd))
  {
    hide CodedRound;
    var d := 4 * odd;
    assert 4 * (2 * i + odd) == 8 * i + d;
    RowsRepeat(x, d, i);
    RowsRepeat(CodedRound(x, d), d + 1, i);
    RowsRepeat(CodedRound(CodedRound(x, d), d + 1), d + 2, i);
    RowsRepeat(CodedRound(CodedRound(CodedRound(x, d), d + 1), d + 2), d + 3, i);
  }

  /** One injection of the loop, seen through the modular schedule. */
  lemma StepIsModular(kw0: seq<word>, ks: Schedule, w: Block, q: nat, x: Block, i: nat, odd: nat)
    requires ks.Valid() && 1 <= q <= 2 * RCNT && q - 1 == 2 * i + odd && odd < 2
    requires |kw0| == ArrayLength(4, RCNT) && kw0[..3] == ks.tweak && kw0[3..8] == ks.key
    requires x == Injected(ks, w, q - 1)
    ensures AddBlock(FourRounds(x, 4 * odd), WindowSubkey(Walk(kw0, 4, q - 1), q)) == Injected(ks, w, q)
  {
    hide AddBlock, FourRounds, WindowSubkey, Subkey, Walk, Window, Rotate;
    SlidingIsModular(kw0, ks.key, ks.tweak, RCNT, q - 1);
    WindowReadsSubkey(Walk(kw0, 4, q - 1), ks, q, q - 1);
    FourRoundsRepeat(x, i, odd);
  }

  /** The nineteen injections and seventy-two rounds of one block, on a filled-in schedule array. */
  method CipherBlock(kw: array<word>, w: Block, ghost ks: Schedule) returns (x: Block)
    requires ks.Valid() && kw.Length == ArrayLength(4, RCNT)
    requires kw[..3] == ks.tweak && kw[3..8] == ks.key
    modifies kw
    ensures x == Encrypt(ks, w)
    ensures kw[0] == old(kw[0]) && kw[1] == old(kw[1])
  {
    hide AddBlock, FourRounds, Injected, Encrypt, WindowSubkey, Subkey, Rotate, Word;
    ghost var kw0 := kw[..];
    assert kw0[..3] == ks.tweak && kw0[3..8] == ks.key;
    x := AddBlock(w, WindowSubkey(kw[..], 0));
    FirstInjection(kw0, ks, w);
    var r := 1;
    while r < 2 * RCNT
      invariant 1 <= r <= 2 * RCNT + 1 && r % 2 == 1
      invariant kw[..] == Walk(kw0, 4, r - 1) && x == Injected(ks, w, r - 1)
    {
      StepIsModular(kw0, ks, w, r, x, (r - 1) / 2, 0);
      x := FourRounds(x, 0);
      x := Inject(kw, r, x);
      StepIsModular(kw0, ks, w, r + 1, x, (r - 1) / 2, 1);
      x := FourRounds(x, 4);
      x := Inject(kw, r + 1, x);
      r := r + 2;
    }
    CodedCipherIsReference(ks, w);
    WalkKeepsTweak(kw0, 4, r - 1);
  }

  /** The walk never comes back to the first three cells, so the tweak survives in `ts[0]` and `ts[1]`. */
  lemma {:induction false} WalkKeepsTweak<T>(kw: seq<T>, wcnt: nat, q: nat)
    requires KEY_BASE + q + wcnt < |kw|
    ensures Walk(kw, wcnt, q)[..3] == kw[..3]
  {
    if q > 0 {
      WalkKeepsTweak(kw, wcnt, q - 1);
    }
  }

  lemma FirstInjection(kw0: seq<word>, ks: Schedule, w: Block)
    requires ks.Valid() && |kw0| == ArrayLength(4, RCNT) && kw0[..3] == ks.tweak && kw0[3..8] == ks.key
    ensures AddBlock(w, WindowSubkey(kw0, 0)) == Injected(ks, w, 0) && Walk(kw0, 4, 0) == kw0
  {
    hide AddBlock, WindowSubkey, Subkey, Window;
    SlidingIsModular(kw0, ks.key, ks.tweak, RCNT, 0);
    WindowReadsSubkey(kw0, ks, 0, 0);
  }

  class Context {
    var hashBitLen: nat
    var bCnt: nat
    var t0: word
    var t1: word
    const X: array<word>
    const b: array<byte>

    // What has been fed since the last start of a block type.
    ghost var start: Chain
    ghost var message: seq<byte>

    constructor ()
      ensures Shape() && fresh(X) && fresh(b)
    {
      X := new word[4];
      b := new byte[BLOCK_BYTES];
      t0, t1, bCnt, hashBitLen := 0, 0, 0, 0;
      message, start := [], Chain(Block(0, 0, 0, 0), 0, 0);
    }

    ghost predicate Shape() { X.Length == 4 && b.Length == BLOCK_BYTES }

    ghost function State(): Block
      reads X
      requires Shape()
    {
      Block(X[0], X[1], X[2], X[3])
    }

    ghost function Running(): Chain
      reads this`t0, this`t1, X
      requires Shape()
    {
      Chain(State(), t0, t1)
    }

    /** The context depends only on `start` and on the concatenation of everything fed since. */
    ghost predicate Valid()
      reads this, X, b
    {
      && Shape()
      && Running() == AbsorbBlocks(start, message, BLOCK_BYTES, FullBlocks(|message|))
      && bCnt == |Tail(message)| && b[..bCnt] == Tail(message)
    }

    /** `Skein_Start_New_Type`: whatever was still buffered is dropped. */
    method StartNewType(typ: word)
      requires Shape()
      modifies this
      ensures Valid() && message == [] && start == NewType(State(), typ) == Running()
      ensures hashBitLen == old(hashBitLen)
    {
      t0, t1 := 0, Or(T1_FIRST, typ);
      bCnt := 0;
      message, start := [], Chain(Block(X[0], X[1], X[2], X[3]), 0, t1);
    }

    /** Writes `ks[0..4]` and `ts[2]` for the chaining value and the tweak already in `kw`. */
    method LoadSchedule(kw: array<word>, ghost ks: Schedule)
      requires Shape() && kw != X && kw.Length == ArrayLength(4, RCNT)
      requires ks == KeySchedule(State(), kw[0], kw[1])
      modifies kw
      ensures kw[..3] == ks.tweak && kw[3..8] == ks.key
      ensures kw[0] == old(kw[0]) && kw[1] == old(kw[1])
    {
      hide Parity, Xor;
      kw[3], kw[4], kw[5], kw[6] := X[0], X[1], X[2], X[3];
      kw[7] := Parity(kw[3], kw[4], kw[5], kw[6]);
      kw[2] := Xor(kw[0], kw[1]);
    }

    /** The feed-forward: `ctx->X[i] = Xi ^ w[i]`. */
    method FeedForward(x: Block, w: Block)
      requires Shape()
      modifies X
      ensures State() == XorBlock(x, w)
    {
      hide Xor;
      X[0], X[1], X[2], X[3] := Xor(x.x0, w.x0), Xor(x.x1, w.x1), Xor(x.x2, w.x2), Xor(x.x3, w.x3);
    }

    /** One pass of the `do` loop. The tweak words live in `kw[0]` and `kw[1]` between passes. */
    method ProcessBlock(kw: array<word>, blk: array<byte>, off: nat, byteCntAdd: nat, ghost c: Chain)
      requires Shape() && kw != X && kw.Length == ArrayLength(4, RCNT) && off + BLOCK_BYTES <= blk.Length
      requires c == Chain(State(), kw[0], kw[1])
      modifies kw, X
      ensures Chain(State(), kw[0], kw[1]) == Absorb(c, blk[off..off + BLOCK_BYTES], byteCntAdd)
    {
      hide Plus, XorBlock, LoadBlock, Encrypt, Word, ClearFirst, KeySchedule;
      kw[0] := Plus(kw[0], Word(byteCntAdd));
      ghost var ks := KeySchedule(c.x, kw[0], kw[1]);
      LoadSchedule(kw, ks);
      var w := ReadBlock(blk, off);
      var x := CipherBlock(kw, w, ks);
      FeedForward(x, w);
      kw[1] := ClearFirst(kw[1]);
    }

    /** `Skein_256_Process_Block` on `blkCnt` whole blocks. */
    method ProcessBlocks(blk: array<byte>, off: nat, blkCnt: nat, byteCntAdd: nat)
      requires Shape() && blkCnt > 0 && off + BLOCK_BYTES * blkCnt <= blk.Length
      modifies this`t0, this`t1, X
      ensures Running() == AbsorbBlocks(old(Running()), blk[off..off + BLOCK_BYTES * blkCnt], byteCntAdd, blkCnt)
    {
      hide Absorb;
      ghost var data, before := blk[off..off + BLOCK_BYTES * blkCnt], Running();
      var kw := new word[ArrayLength(4, RCNT)];
      kw[0], kw[1] := t0, t1;
      var i := 0;
      while i < blkCnt
        invariant 0 <= i <= blkCnt && fresh(kw) && kw.Length == ArrayLength(4, RCNT)
        invariant Chain(State(), kw[0], kw[1]) == AbsorbBlocks(before, data, byteCntAdd, i)
        invariant blk[off..off + BLOCK_BYTES * blkCnt] == data
      {
        SliceOfSlice(blk[..], off, BLOCK_BYTES * blkCnt, BLOCK_BYTES * i, BLOCK_BYTES * (i + 1));
        ProcessBlock(kw, blk, off + 32 * i, byteCntAdd, Chain(State(), kw[0], kw[1]));
        i := i + 1;
      }
      t0, t1 := kw[0], kw[1];
    }

    /** `k` blocks of `whole` are compressed and the next `bCnt` bytes sit in the buffer. */
    ghost predicate Fed(whole: seq<byte>, k: nat)
      reads this`t0, this`t1, this`bCnt, this`start, X, b
    {
      && Shape() && bCnt <= BLOCK_BYTES && BLOCK_BYTES * k + bCnt <= |whole|
      && Running() == AbsorbBlocks(start, whole, BLOCK_BYTES, k)
      && b[..bCnt] == whole[BLOCK_BYTES * k..BLOCK_BYTES * k + bCnt]
    }

    method Buffer(msg: array<byte>, off: nat, n: nat, ghost whole: seq<byte>, ghost k: nat)
      requires Fed(whole, k) && msg != b && off + n <= msg.Length && bCnt + n <= BLOCK_BYTES
      requires BLOCK_BYTES * k + bCnt + n <= |whole|
      requires msg[off..off + n] == whole[BLOCK_BYTES * k + bCnt..BLOCK_BYTES * k + bCnt + n]
      modifies this`bCnt, b
      ensures Fed(whole, k) && bCnt == old(bCnt) + n
    {
      hide AbsorbBlocks;
      ghost var had, got := b[..bCnt], msg[off..off + n];
      forall i | 0 <= i < n {
        b[bCnt + i] := msg[off + i];
      }
      bCnt := bCnt + n;
      assert b[..bCnt] == had + got;
    }

    method FlushBuffer(ghost whole: seq<byte>, ghost k: nat)
      requires Fed(whole, k) && bCnt == BLOCK_BYTES
      modifies this`t0, this`t1, this`bCnt, X
      ensures Fed(whole, k + 1) && bCnt == 0
    {
      hide AbsorbBlocks;
      ProcessBlocks(b, 0, 1, BLOCK_BYTES);
      AbsorbAppend(start, whole, BLOCK_BYTES, k, 1);
      assert b[0..0 + BLOCK_BYTES * 1] == b[..bCnt];
      bCnt := 0;
    }

    method ProcessDirect(msg: array<byte>, off: nat, n: nat, ghost whole: seq<byte>, ghost k: nat)
      requires Fed(whole, k) && bCnt == 0 && n > 0 && off + BLOCK_BYTES * n <= msg.Length
      requires BLOCK_BYTES * (k + n) <= |whole|
      requires msg[off..off + BLOCK_BYTES * n] == whole[BLOCK_BYTES * k..BLOCK_BYTES * (k + n)]
      modifies this`t0, this`t1, X
      ensures Fed(whole, k + n) && bCnt == 0
    {
      hide AbsorbBlocks;
      ProcessBlocks(msg, off, n, BLOCK_BYTES);
      AbsorbAppend(start, whole, BLOCK_BYTES, k, n);
    }

    /** What is in the buffer is filled up to a block and flushed. */
    method TopUp(msg: array<byte>, offset: nat, count: nat, ghost whole: seq<byte>, ghost k0: nat)
      returns (off: nat, left: nat, ghost k: nat)
      requires Fed(whole, k0) && msg != b && count + bCnt > BLOCK_BYTES
      requires InputLeft(msg, offset, count, whole, BLOCK_BYTES * k0 + bCnt)
      modifies this`t0, this`t1, this`bCnt, X, b
      ensures Fed(whole, k) && bCnt == 0 && left > 0
      ensures InputLeft(msg, off, left, whole, BLOCK_BYTES * k)
    {
      hide AbsorbBlocks, InputLeft, Running;
      off, left, k := offset, count, k0;
      if bCnt != 0 {
        var n := BLOCK_BYTES - bCnt;
        if n != 0 {
          InputSplit(msg, off, left, whole, BLOCK_BYTES * k + bCnt, n);
          Buffer(msg, off, n, whole, k);
          off, left := off + n, left - n;
        }
        FlushBuffer(whole, k);
        k := k + 1;
      }
    }

    /** The first half of `Skein_256_Update`: fill and flush the buffer, then take whole blocks straight
        from the input, always leaving at least one byte over. */
    method DrainBlocks(msg: array<byte>, offset: nat, count: nat, ghost whole: seq<byte>, ghost k0: nat)
      returns (off: nat, left: nat, ghost k: nat)
      requires Fed(whole, k0) && msg != b && count + bCnt > BLOCK_BYTES
      requires InputLeft(msg, offset, count, whole, BLOCK_BYTES * k0 + bCnt)
      modifies this`t0, this`t1, this`bCnt, X, b
      ensures Fed(whole, k) && bCnt == 0 && 1 <= left <= BLOCK_BYTES
      ensures InputLeft(msg, off, left, whole, BLOCK_BYTES * k)
    {
      hide AbsorbBlocks, InputLeft, Running;
      off, left, k := TopUp(msg, offset, count, whole, k0);
      if left > BLOCK_BYTES {
        var n := (left - 1) / BLOCK_BYTES;
        InputSplit(msg, off, left, whole, BLOCK_BYTES * k, n * BLOCK_BYTES);
        ProcessDirect(msg, off, n, whole, k);
        off, left := off + n * BLOCK_BYTES, left - n * BLOCK_BYTES;
        k := k + n;
      }
    }

    /** `Skein_256_Update`. */
    method Update(msg: array<byte>, offset: nat, count: nat)
      requires Valid() && msg != b && offset + count <= msg.Length
      modifies this, X, b
      ensures Valid() && message == old(message) + msg[offset..offset + count]
      ensures start == old(start) && hashBitLen == old(hashBitLen)
    {
      hide AbsorbBlocks, InputLeft, Running;
      ghost var whole, k := message + msg[offset..offset + count], FullBlocks(|message|);
      BeginUpdate(msg, offset, count);
      var off, left := offset, count;
      if left + bCnt > BLOCK_BYTES {
        off, left, k := DrainBlocks(msg, off, left, whole, k);
      }
      if left != 0 {
        InputSplit(msg, off, left, whole, BLOCK_BYTES * k + bCnt, left);
        Buffer(msg, off, left, whole, k);
      }
      message := whole;
      FedIsValid(k);
    }

    lemma FedIsValid(k: nat)
      requires Fed(message, k) && BLOCK_BYTES * k + bCnt == |message| && (bCnt == 0 ==> message == [])
      ensures Valid()
    {
      hide AbsorbBlocks, Running;
      FullBlocksUnique(|message|, k);
    }

    lemma BeginUpdate(msg: array<byte>, offset: nat, count: nat)
      requires Valid() && offset + count <= msg.Length
      ensures Fed(message + msg[offset..offset + count], FullBlocks(|message|))
      ensures InputLeft(msg, offset, count, message + msg[offset..offset + count], |message|)
    {
      hide AbsorbBlocks;
      AbsorbPrefix(start, message, message + msg[offset..offset + count], BLOCK_BYTES, FullBlocks(|message|));
    }

    /** `Skein_256_Final_Pad`: closes the current block type and returns the chaining value. */
    method FinalPad(hashVal: array<byte>)
      requires Valid() && hashVal.Length >= BLOCK_BYTES && hashVal != b
      modifies this`t0, this`t1, X, b, hashVal
      ensures Running() == Absorb(old(Running()).(t1 := Or(old(t1), T1_FINAL)), old(PaddedTail(message)), old(bCnt))
      ensures forall typ :: IsType(typ) && old(start) == NewType(old(start.x), typ) ==>
        State() == Ubi(old(start.x), old(message), typ)
      ensures hashVal[..] == Splice(old(hashVal[..]), 0, StoreBlock(State()))
    {
      hide AbsorbBlocks, Absorb, StoreWord, IsType;
      CloseType();
      WriteBlock(hashVal, 0, BLOCK_BYTES);
    }

    /** Sets FINAL, pads the buffer and compresses it: what `Final` and `Final_Pad` have in common. */
    method CloseType()
      requires Valid()
      modifies this`t0, this`t1, X, b
      ensures Running() == Absorb(old(Running()).(t1 := Or(old(t1), T1_FINAL)), old(PaddedTail(message)), old(bCnt))
      ensures forall typ :: IsType(typ) && old(start) == NewType(old(start.x), typ) ==>
        State() == Ubi(old(start.x), old(message), typ)
    {
      hide AbsorbBlocks, Absorb, Or, IsType, NewType, Tail, PaddedTail, Ubi;
      ghost var before := Running();
      t1 := Or(t1, T1_FINAL);
      PadBuffer();
      ghost var c := Running();
      ProcessBlocks(b, 0, 1, bCnt);
      assert b[0..0 + BLOCK_BYTES * 1] == b[..];
      OneBlockAbsorbed(c, b[..], bCnt);
      forall typ | IsType(typ) && start == NewType(start.x, typ) ensures State() == Ubi(start.x, message, typ) {
        FinalBlockCompletesUbi(start.x, message, typ);
      }
    }

    /** `Skein_256_Final`: closes the message and runs the output stage, truncated to the hash length. */
    method Final(hashVal: array<byte>)
      requires Valid() && hashVal != b && (hashBitLen + 7) / 8 <= hashVal.Length
      modifies this, X, b, hashVal
      ensures forall typ :: IsType(typ) && old(start) == NewType(old(start.x), typ) ==>
        hashVal[..] == Splice(old(hashVal[..]), 0,
                              Output(Ubi(old(start.x), old(message), typ), (old(hashBitLen) + 7) / 8))
    {
      hide AbsorbBlocks, Absorb, IsType, NewType, Ubi, OutputBlock, Output, Splice, OutputPrefix,
        PaddedTail, Tail, FullBlocks, StoreBlock;
      CloseType();
      var byteCnt := (hashBitLen + 7) / 8;
      ClearBuffer();
      var x0, x1, x2, x3 := X[0], X[1], X[2], X[3];
      ghost var g, before := Block(x0, x1, x2, x3), hashVal[..];
      var i := 0;
      SpliceNothing(before, 0);
      while i * BLOCK_BYTES < byteCnt
        invariant 0 <= i && State() == g && CounterBuffer() && Shape()
        invariant i <= (byteCnt + 31) / 32
        invariant hashVal[..] == Splice(before, 0, OutputPrefix(g, i, byteCnt))
        decreases byteCnt - i * BLOCK_BYTES
      {
        CounterBlock(i);
        var n := byteCnt - i * BLOCK_BYTES;
        if n >= BLOCK_BYTES {
          n := BLOCK_BYTES;
        }
        WriteBlock(hashVal, i * BLOCK_BYTES, n);
        OutputGrows(g, i, n, byteCnt);
        SpliceTwice(before, 0, OutputPrefix(g, i, byteCnt), OutputBlock(g, i)[..n]);
        X[0], X[1], X[2], X[3] := x0, x1, x2, x3;
        i := i + 1;
      }
      OutputDone(g, i, byteCnt);
    }

    /** `Skein_256_InitExt`: an optional key stage, then the configuration block; ready for the message. */
    method InitExt(bitLen: nat, treeInfo: word, key: array<byte>, keyBytes: nat)
      requires Shape() && key != b && keyBytes <= key.Length
      modifies this, X, b
      ensures Valid() && message == [] && hashBitLen == bitLen
      ensures State() == InitialValue(bitLen, treeInfo, old(key[..keyBytes]))
      ensures start == NewType(InitialValue(bitLen, treeInfo, old(key[..keyBytes])), TYPE_MSG)
    {
      hide AbsorbBlocks, Absorb, IsType, NewType, Ubi, StoreBlock, LoadBlock, Or, Word, Config, PaddedTail, Compress;
      var cfg := new byte[BLOCK_BYTES];
      X[0], X[1], X[2], X[3] := 0, 0, 0, 0;
      FlagConstants();
      if keyBytes != 0 {
        hashBitLen := 8 * BLOCK_BYTES;
        StartNewType(TYPE_KEY);
        X[0], X[1], X[2], X[3] := 0, 0, 0, 0;
        KeyStage(key, keyBytes, cfg);
      }
      ghost var g := State();
      hashBitLen := bitLen;
      StartNewType(Or(TYPE_CFG, T1_FINAL));
      FillConfig(cfg, treeInfo);
      ghost var c := Running();
      ProcessBlocks(cfg, 0, 1, 32);
      assert cfg[0..0 + BLOCK_BYTES * 1] == cfg[..];
      OneBlockAbsorbed(c, Config(bitLen, treeInfo), 32);
      ConfigAbsorbed(g, Config(bitLen, treeInfo));
      bCnt := 0;
      StartNewType(TYPE_MSG);
    }

    method KeyStage(key: array<byte>, keyBytes: nat, cfg: array<byte>)
      requires Valid() && start == NewType(ZERO_BLOCK, TYPE_KEY) && message == []
      requires key != b && cfg != b && cfg != key && cfg.Length == BLOCK_BYTES && keyBytes <= key.Length
      modifies this, X, b, cfg
      ensures Shape() && State() == Ubi(ZERO_BLOCK, old(key[..keyBytes]), TYPE_KEY)
    {
      hide AbsorbBlocks, Absorb, IsType, Ubi, StoreBlock, LoadBlock, Tail, PaddedTail;
      FlagConstants();
      Update(key, 0, keyBytes);
      assert message == key[0..0 + keyBytes] == key[..keyBytes];
      FinalPad(cfg);
      assert cfg[..] == StoreBlock(State());
      LoadStore(State());
      var x := LoadBlock(cfg[..]);
      X[0], X[1], X[2], X[3] := x.x0, x.x1, x.x2, x.x3;
    }

    method FillConfig(cfg: array<byte>, treeInfo: word)
      requires cfg != b && cfg.Length == BLOCK_BYTES
      modifies cfg
      ensures cfg[..] == Config(hashBitLen, treeInfo)
    {
      hide StoreWord, Word;
      var c := Config(hashBitLen, treeInfo);
      forall k | 0 <= k < BLOCK_BYTES {
        cfg[k] := c[k];
      }
    }

    method ClearBuffer()
      requires Shape()
      modifies b
      ensures CounterBuffer()
    {
      forall k | 0 <= k < BLOCK_BYTES {
        b[k] := 0;
      }
    }

    /** All of the buffer but its first word is zero. */
    ghost predicate CounterBuffer()
      reads b
      requires b.Length == BLOCK_BYTES
    {
      b[8..] == Fill(24, 0)
    }

    /** One turn of the output stage: the counter goes into the buffer's first word. */
    method CounterBlock(i: nat)
      requires Shape() && CounterBuffer()
      modifies this, X, b
      ensures CounterBuffer() && StoreBlock(State()) == OutputBlock(old(State()), i)
    {
      hide AbsorbBlocks, Absorb, StoreWord, Or, Word, Ubi, NewType, StoreBlock;
      ghost var g := State();
      var counter := StoreWord(Word(i));
      forall k | 0 <= k < 8 {
        b[k] := counter[k];
      }
      assert b[8..] == Fill(24, 0);
      assert b[..] == b[..8] + b[8..] && b[..8] == counter;
      StartNewType(Or(TYPE_OUT, T1_FINAL));
      ghost var c := Running();
      ProcessBlocks(b, 0, 1, 8);
      assert b[0..0 + BLOCK_BYTES * 1] == counter + Fill(24, 0);
      OneBlockAbsorbed(c, counter + Fill(24, 0), 8);
      CounterAbsorbed(g, i);
    }

    method PadBuffer()
      requires Shape() && bCnt == |Tail(message)| && b[..bCnt] == Tail(message)
      modifies b
      ensures b[..] == PaddedTail(message)
    {
      hide AbsorbBlocks;
      ghost var tail := b[..bCnt];
      forall i | bCnt <= i < BLOCK_BYTES {
        b[i] := 0;
      }
      assert b[..bCnt] == tail;
      assert b[..] == b[..bCnt] + b[bCnt..];
    }

    /** `Skein_Put64_LSB_First` of the first `n` bytes of the chaining value. */
    method WriteBlock(out: array<byte>, at: nat, n: nat)
      requires Shape() && n <= BLOCK_BYTES && at + n <= out.Length
      modifies out
      ensures State() == old(State())
      ensures out[..] == Splice(old(out[..]), at, StoreBlock(State())[..n])
    {
      hide StoreWord;
      var s := StoreBlock(Block(X[0], X[1], X[2], X[3]));
      forall i | 0 <= i < n {
        out[at + i] := s[i];
      }
    }
  }

  lemma SliceOfSlice<T>(s: seq<T>, at: nat, n: nat, i: nat, j: nat)
    requires i <= j <= n && at + n <= |s|
    ensures s[at..at + n][i..j] == s[at + i..at + j]
  {
    var t := s[at..at + n];
    forall k | 0 <= k < j - i ensures t[i..j][k] == s[at + i..at + j][k] {
      assert t[i..j][k] == t[i + k] == s[at + i + k];
    }
  }

  lemma ConfigAbsorbed(g: Block, config: seq<byte>)
    requires |config| == BLOCK_BYTES
    ensures Absorb(NewType(g, Or(TYPE_CFG, T1_FINAL)), config, 32).x == Ubi(g, config, TYPE_CFG)
  {
    hide Compress, Word, Or, LoadBlock, Ubi, IsType, Plus;
    FlagConstants();
    PlusFromZero(Word(32));
    SingleBlock(g, config, TYPE_CFG);
    assert config + Fill(0, 0) == config;
  }

  lemma PlusFromZero(a: word)
    ensures Plus(0, a) == a
  {
    assert Plus(0, a) == 0 + a;
  }

  lemma CounterAbsorbed(g: Block, i: nat)
    ensures Absorb(NewType(g, Or(TYPE_OUT, T1_FINAL)), StoreWord(Word(i)) + Fill(24, 0), 8).x
      == Ubi(g, StoreWord(Word(i)), TYPE_OUT)
  {
    hide Compress, StoreWord, Word, Or, LoadBlock, Ubi, IsType, Plus;
    FlagConstants();
    PlusFromZero(Word(8));
    SingleBlock(g, StoreWord(Word(i)), TYPE_OUT);
  }

  /** What has been written after `i` turns of the output stage. */
  function OutputPrefix(g: Block, i: nat, byteCnt: nat): (s: seq<byte>)
    ensures |s| == if BLOCK_BYTES * i <= byteCnt then BLOCK_BYTES * i else byteCnt
  {
    if BLOCK_BYTES * i <= byteCnt then OutputBlocks(g, i) else OutputBlocks(g, i)[..byteCnt]
  }

  lemma OutputGrows(g: Block, i: nat, n: nat, byteCnt: nat)
    requires BLOCK_BYTES * i < byteCnt && n <= BLOCK_BYTES
    requires n == if byteCnt - BLOCK_BYTES * i >= BLOCK_BYTES then BLOCK_BYTES else byteCnt - BLOCK_BYTES * i
    ensures OutputPrefix(g, i + 1, byteCnt) == OutputPrefix(g, i, byteCnt) + OutputBlock(g, i)[..n]
  {
    hide OutputBlock;
    assert OutputBlocks(g, i + 1) == OutputBlocks(g, i) + OutputBlock(g, i);
  }

  lemma OutputDone(g: Block, i: nat, byteCnt: nat)
    requires BLOCK_BYTES * i >= byteCnt && i <= (byteCnt + 31) / 32
    ensures OutputPrefix(g, i, byteCnt) == Output(g, byteCnt)
  {
    hide OutputBlock;
  }

  lemma OneBlockAbsorbed(c: Chain, block: seq<byte>, add: nat)
    requires |block| == BLOCK_BYTES
    ensures AbsorbBlocks(c, block, add, 1) == Absorb(c, block, add)
  {
    hide Absorb;
    assert AbsorbBlocks(c, block, add, 0) == c && block[0..32] == block;
  }

  /** The unread input is the part of `whole` from `at` on. */
  ghost predicate InputLeft(msg: array<byte>, off: nat, left: nat, whole: seq<byte>, at: nat)
    reads msg
  {
    off + left <= msg.Length && at + left == |whole| && msg[off..off + left] == whole[at..]
  }

  lemma InputSplit(msg: array<byte>, off: nat, left: nat, whole: seq<byte>, at: nat, n: nat)
    requires InputLeft(msg, off, left, whole, at) && n <= left
    ensures msg[off..off + n] == whole[at..at + n]
    ensures InputLeft(msg, off + n, left - n, whole, at + n)
  {
    assert msg[off..off + n] == msg[off..off + left][..n] == whole[at..][..n];
    assert msg[off + n..off + left] == msg[off..off + left][n..] == whole[at..][n..];
  }

  /** The chaining value `PrepareSkein` leaves behind (device/skeinwrap.c). */
  function PreparedValue(serial: seq<byte>, secret: seq<byte>, personalisation: seq<byte>): Block
    requires |personalisation| == 96
  {
    UbiBlocks(InitialValue(256, 0, serial + secret), personalisation, TYPE_PERS, 2)
  }

  /** `PrepareSkein`: the block type is switched back to MSG while 32 personalisation bytes are still buffered. */
  method PrepareSkein(skein: Context, serial: array<byte>, secret: array<byte>, personalisation: array<byte>)
    requires skein.Shape() && serial.Length >= 12 && secret.Length >= 32 && personalisation.Length == 96
    requires personalisation != skein.b && secret != skein.b && serial != skein.b
    modifies skein, skein.X, skein.b
    ensures skein.Valid() && skein.message == [] && skein.hashBitLen == 256
    ensures skein.start == NewType(PreparedValue(serial[..12], secret[..32], personalisation[..]), TYPE_MSG)
  {
    hide AbsorbBlocks, NewType, UbiBlocks, InitialValue, IsType, Or, Word;
    var keybuf := new byte[44];
    forall i | 0 <= i < 12 { keybuf[i] := serial[i]; }
    forall i | 0 <= i < 32 { keybuf[i + 12] := secret[i]; }
    assert keybuf[..44] == serial[..12] + secret[..32];
    skein.InitExt(256, 0, keybuf, 44);
    skein.StartNewType(TYPE_PERS);
    ghost var g := skein.State();
    skein.Update(personalisation, 0, 96);
    assert skein.message == personalisation[0..0 + 96] == personalisation[..];
    FlagConstants();
    RunningState(g, skein.message, TYPE_PERS, 2);
    skein.StartNewType(TYPE_MSG);
  }

  lemma {:induction false} UbiBlocksPrefix(g: Block, m: seq<byte>, n: seq<byte>, typ: word, k: nat)
    requires |m| == |n| && k < BlockCount(|m|) && BLOCK_BYTES * k <= |m| && m[..BLOCK_BYTES * k] == n[..BLOCK_BYTES * k]
    ensures UbiBlocks(g, m, typ, k) == UbiBlocks(g, n, typ, k)
  {
    hide Compress, LoadBlock, Word, Or;
    if k > 0 {
      assert m[..BLOCK_BYTES * (k - 1)] == m[..BLOCK_BYTES * k][..BLOCK_BYTES * (k - 1)];
      assert n[..BLOCK_BYTES * (k - 1)] == n[..BLOCK_BYTES * k][..BLOCK_BYTES * (k - 1)];
      UbiBlocksPrefix(g, m, n, typ, k - 1);
      assert MessageBlock(m, k - 1) == m[..BLOCK_BYTES * k][BLOCK_BYTES * (k - 1)..];
      assert MessageBlock(n, k - 1) == n[..BLOCK_BYTES * k][BLOCK_BYTES * (k - 1)..];
    }
  }

  /** Because the last block is dropped unprocessed, only the first 64 of the 96 characters personalise anything. */
  lemma PersonalisationTailIgnored(serial: seq<byte>, secret: seq<byte>, p: seq<byte>, q: seq<byte>)
    requires |p| == |q| == 96 && p[..64] == q[..64]
    ensures PreparedValue(serial, secret, p) == PreparedValue(serial, secret, q)
  {
    hide UbiBlocks, InitialValue;
    UbiBlocksPrefix(InitialValue(256, 0, serial + secret), p, q, TYPE_PERS, 2);
  }

  // The characters that EKEY_SKEIN_PERSONALISATION_PMS and EKEY_SKEIN_PERSONALISATION_LKMS have in common,
  // "20090609 support@simtec.co.uk EntropyKey/v1/MessageAuthenticatio",
  // and what follows in each.
  const COMMON_1: seq<byte> := [50, 48, 48, 57, 48, 54, 48, 57, 32, 115, 117, 112, 112, 111, 114, 116]
  const COMMON_2: seq<byte> := [64, 115, 105, 109, 116, 101, 99, 46, 99, 111, 46, 117, 107, 32, 69, 110]
  const COMMON_3: seq<byte> := [116, 114, 111, 112, 121, 75, 101, 121, 47, 118, 49, 47, 77, 101, 115, 115]
  const COMMON_4: seq<byte> := [97, 103, 101, 65, 117, 116, 104, 101, 110, 116, 105, 99, 97, 116, 105, 111]
  const COMMON: seq<byte> := COMMON_1 + COMMON_2 + COMMON_3 + COMMON_4

  // "nCodeState                      " and "nCodeStateForLongTermReKeying   ".
  const PMS_1: seq<byte> := [110, 67, 111, 100, 101, 83, 116, 97, 116, 101, 32, 32, 32, 32, 32, 32]
  const PMS_2: seq<byte> := [32, 32, 32, 32, 32, 32, 32, 32, 32, 32, 32, 32, 32, 32, 32, 32]
  const LKMS_1: seq<byte> := [110, 67, 111, 100, 101, 83, 116, 97, 116, 101, 70, 111, 114, 76, 111, 110]
  const LKMS_2: seq<byte> := [103, 84, 101, 114, 109, 82, 101, 75, 101, 121, 105, 110, 103, 32, 32, 32]

  const PMS: seq<byte> := COMMON + PMS_1 + PMS_2
  const LKMS: seq<byte> := COMMON + LKMS_1 + LKMS_2

  /**
    * Two of the five strings share their first 64 characters. The MACs of packets and the MACs of long-term re-keying
    * therefore start from the same state for the same serial number and secret, although the strings differ.
    */
  lemma MacPurposesCoincide(serial: seq<byte>, secret: seq<byte>)
    ensures |PMS| == |LKMS| == 96 && PMS != LKMS
    ensures PreparedValue(serial, secret, PMS) == PreparedValue(serial, secret, LKMS)
  {
    hide PreparedValue;
    assert PMS[..64] == COMMON == LKMS[..64];
    assert PMS[74] == PMS_1[10] == 32 && LKMS[74] == LKMS_1[10] == 70;
    PersonalisationTailIgnored(serial, secret, PMS, LKMS);
  }

  method ReadBlock(blk: array<byte>, off: nat) returns (w: Block)
    requires off + BLOCK_BYTES <= blk.Length
    ensures w == LoadBlock(blk[off..off + BLOCK_BYTES])
  {
    hide LoadWord;
    w := LoadBlock(blk[off..off + BLOCK_BYTES]);
  }
}
