// A known answer for the model of Skein-256: the initial value that the repository has precomputed for 256 bits of
// output (device/skein/skein_iv.h). To be evaluated, eight rounds are written as a chain of word operations, in which
// each round hands its words to the next one, and this chain is proved to be the rounds of the cipher.

module KnownAnswers {
  import opened Bytes
  import opened Threefish
  import opened Chaining
  import opened Skein

  // ----- eight rounds, each half with the subkey behind it -----

  function Row0(
    x0: word, x1: word, x2: word, x3: word,
    a0: word, a1: word, a2: word, a3: word, b0: word, b1: word, b2: word, b3: word): Block
  {
    var y0, y2 := x0 + x1, x2 + x3;
    var y1, y3 := ((x1 << 5) | (x1 >> 59)) ^ y0, ((x3 << 56) | (x3 >> 8)) ^ y2;
    Row1(y0, y1, y2, y3, a0, a1, a2, a3, b0, b1, b2, b3)
  }

  function Row1(
    x0: word, x1: word, x2: word, x3: word,
    a0: word, a1: word, a2: word, a3: word, b0: word, b1: word, b2: word, b3: word): Block
  {
    var y0, y2 := x0 + x3, x2 + x1;
    var y3, y1 := ((x3 << 36) | (x3 >> 28)) ^ y0, ((x1 << 28) | (x1 >> 36)) ^ y2;
    Row2(y0, y1, y2, y3, a0, a1, a2, a3, b0, b1, b2, b3)
  }

  function Row2(
    x0: word, x1: word, x2: word, x3: word,
    a0: word, a1: word, a2: word, a3: word, b0: word, b1: word, b2: word, b3: word): Block
  {
    var y0, y2 := x0 + x1, x2 + x3;
    var y1, y3 := ((x1 << 13) | (x1 >> 51)) ^ y0, ((x3 << 46) | (x3 >> 18)) ^ y2;
    Row3(y0, y1, y2, y3, a0, a1, a2, a3, b0, b1, b2, b3)
  }

  function Row3(
    x0: word, x1: word, x2: word, x3: word,
    a0: word, a1: word, a2: word, a3: word, b0: word, b1: word, b2: word, b3: word): Block
  {
    var y0, y2 := x0 + x3, x2 + x1;
    var y3, y1 := ((x3 << 58) | (x3 >> 6)) ^ y0, ((x1 << 44) | (x1 >> 20)) ^ y2;
    Between(y0, y1, y2, y3, a0, a1, a2, a3, b0, b1, b2, b3)
  }

  function Row4(
    x0: word, x1: word, x2: word, x3: word,
    a0: word, a1: word, a2: word, a3: word, b0: word, b1: word, b2: word, b3: word): Block
  {
    var y0, y2 := x0 + x1, x2 + x3;
    var y1, y3 := ((x1 << 26) | (x1 >> 38)) ^ y0, ((x3 << 20) | (x3 >> 44)) ^ y2;
    Row5(y0, y1, y2, y3, a0, a1, a2, a3, b0, b1, b2, b3)
  }

  function Row5(
    x0: word, x1: word, x2: word, x3: word,
    a0: word, a1: word, a2: word, a3: word, b0: word, b1: word, b2: word, b3: word): Block
  {
    var y0, y2 := x0 + x3, x2 + x1;
    var y3, y1 := ((x3 << 53) | (x3 >> 11)) ^ y0, ((x1 << 35) | (x1 >> 29)) ^ y2;
    Row6(y0, y1, y2, y3, a0, a1, a2, a3, b0, b1, b2, b3)
  }

  function Row6(
    x0: word, x1: word, x2: word, x3: word,
    a0: word, a1: word, a2: word, a3: word, b0: word, b1: word, b2: word, b3: word): Block
  {
    var y0, y2 := x0 + x1, x2 + x3;
    var y1, y3 := ((x1 << 11) | (x1 >> 53)) ^ y0, ((x3 << 42) | (x3 >> 22)) ^ y2;
    Row7(y0, y1, y2, y3, a0, a1, a2, a3, b0, b1, b2, b3)
  }

  function Row7(
    x0: word, x1: word, x2: word, x3: word,
    a0: word, a1: word, a2: word, a3: word, b0: word, b1: word, b2: word, b3: word): Block
  {
    var y0, y2 := x0 + x3, x2 + x1;
    var y3, y1 := ((x3 << 59) | (x3 >> 5)) ^ y0, ((x1 << 50) | (x1 >> 14)) ^ y2;
    Behind(y0, y1, y2, y3, a0, a1, a2, a3, b0, b1, b2, b3)
  }

  function Between(
    x0: word, x1: word, x2: word, x3: word,
    a0: word, a1: word, a2: word, a3: word, b0: word, b1: word, b2: word, b3: word): Block
  {
    Row4(x0 + a0, x1 + a1, x2 + a2, x3 + a3, a0, a1, a2, a3, b0, b1, b2, b3)
  }

  function Behind(
    x0: word, x1: word, x2: word, x3: word,
    a0: word, a1: word, a2: word, a3: word, b0: word, b1: word, b2: word, b3: word): Block
  {
    Block(x0 + b0, x1 + b1, x2 + b2, x3 + b3)
  }

  // ----- they are the cipher's -----

  lemma Sum(a: word, b: word)
    ensures Plus(a, b) == a + b
  {
  }

  lemma Difference(a: word, b: word)
    ensures Xor(a, b) == a ^ b
  {
  }

  lemma Mixed(a: word, b: word, n: word, r: word)
    requires 0 < n < 64 && RotL(b, n) == r
    ensures MixSum(a, b) == a + b && MixXor(a, b, n) == r ^ (a + b)
  {
    hide RotL, Plus, Xor;
    Sum(a, b);
    Difference(r, a + b);
  }

  lemma Table()
    ensures Rotations(0) == (5, 56) && Rotations(1) == (36, 28) && Rotations(2) == (13, 46) && Rotations(3) == (58, 44)
    ensures Rotations(4) == (26, 20) && Rotations(5) == (53, 35) && Rotations(6) == (11, 42) && Rotations(7) == (59, 50)
  {
  }

  lemma Turned5(a: word, b: word)
    ensures MixSum(a, b) == a + b && MixXor(a, b, 5) == ((b << 5) | (b >> 59)) ^ (a + b)
  {
    hide MixSum, MixXor;
    Mixed(a, b, 5, (b << 5) | (b >> 59));
  }

  lemma Turned11(a: word, b: word)
    ensures MixSum(a, b) == a + b && MixXor(a, b, 11) == ((b << 11) | (b >> 53)) ^ (a + b)
  {
    hide MixSum, MixXor;
    Mixed(a, b, 11, (b << 11) | (b >> 53));
  }

  lemma Turned13(a: word, b: word)
    ensures MixSum(a, b) == a + b && MixXor(a, b, 13) == ((b << 13) | (b >> 51)) ^ (a + b)
  {
    hide MixSum, MixXor;
    Mixed(a, b, 13, (b << 13) | (b >> 51));
  }

  lemma Turned20(a: word, b: word)
    ensures MixSum(a, b) == a + b && MixXor(a, b, 20) == ((b << 20) | (b >> 44)) ^ (a + b)
  {
    hide MixSum, MixXor;
    Mixed(a, b, 20, (b << 20) | (b >> 44));
  }

  lemma Turned26(a: word, b: word)
    ensures MixSum(a, b) == a + b && MixXor(a, b, 26) == ((b << 26) | (b >> 38)) ^ (a + b)
  {
    hide MixSum, MixXor;
    Mixed(a, b, 26, (b << 26) | (b >> 38));
  }

  lemma Turned28(a: word, b: word)
    ensures MixSum(a, b) == a + b && MixXor(a, b, 28) == ((b << 28) | (b >> 36)) ^ (a + b)
  {
    hide MixSum, MixXor;
    Mixed(a, b, 28, (b << 28) | (b >> 36));
  }

  lemma Turned35(a: word, b: word)
    ensures MixSum(a, b) == a + b && MixXor(a, b, 35) == ((b << 35) | (b >> 29)) ^ (a + b)
  {
    hide MixSum, MixXor;
    Mixed(a, b, 35, (b << 35) | (b >> 29));
  }

  lemma Turned36(a: word, b: word)
    ensures MixSum(a, b) == a + b && MixXor(a, b, 36) == ((b << 36) | (b >> 28)) ^ (a + b)
  {
    hide MixSum, MixXor;
    Mixed(a, b, 36, (b << 36) | (b >> 28));
  }

  lemma Turned42(a: word, b: word)
    ensures MixSum(a, b) == a + b && MixXor(a, b, 42) == ((b << 42) | (b >> 22)) ^ (a + b)
  {
    hide MixSum, MixXor;
    Mixed(a, b, 42, (b << 42) | (b >> 22));
  }

  lemma Turned44(a: word, b: word)
    ensures MixSum(a, b) == a + b && MixXor(a, b, 44) == ((b << 44) | (b >> 20)) ^ (a + b)
  {
    hide MixSum, MixXor;
    Mixed(a, b, 44, (b << 44) | (b >> 20));
  }

  lemma Turned46(a: word, b: word)
    ensures MixSum(a, b) == a + b && MixXor(a, b, 46) == ((b << 46) | (b >> 18)) ^ (a + b)
  {
    hide MixSum, MixXor;
    Mixed(a, b, 46, (b << 46) | (b >> 18));
  }

  lemma Turned50(a: word, b: word)
    ensures MixSum(a, b) == a + b && MixXor(a, b, 50) == ((b << 50) | (b >> 14)) ^ (a + b)
  {
    hide MixSum, MixXor;
    Mixed(a, b, 50, (b << 50) | (b >> 14));
  }

  lemma Turned53(a: word, b: word)
    ensures MixSum(a, b) == a + b && MixXor(a, b, 53) == ((b << 53) | (b >> 11)) ^ (a + b)
  {
    hide MixSum, MixXor;
    Mixed(a, b, 53, (b << 53) | (b >> 11));
  }

  lemma Turned56(a: word, b: word)
    ensures MixSum(a, b) == a + b && MixXor(a, b, 56) == ((b << 56) | (b >> 8)) ^ (a + b)
  {
    hide MixSum, MixXor;
    Mixed(a, b, 56, (b << 56) | (b >> 8));
  }

  lemma Turned58(a: word, b: word)
    ensures MixSum(a, b) == a + b && MixXor(a, b, 58) == ((b << 58) | (b >> 6)) ^ (a + b)
  {
    hide MixSum, MixXor;
    Mixed(a, b, 58, (b << 58) | (b >> 6));
  }

  lemma Turned59(a: word, b: word)
    ensures MixSum(a, b) == a + b && MixXor(a, b, 59) == ((b << 59) | (b >> 5)) ^ (a + b)
  {
    hide MixSum, MixXor;
    Mixed(a, b, 59, (b << 59) | (b >> 5));
  }

  lemma Chained0(
    x0: word, x1: word, x2: word, x3: word,
    a0: word, a1: word, a2: word, a3: word, b0: word, b1: word, b2: word, b3: word)
    ensures var y := CodedRound(Block(x0, x1, x2, x3), 0);
      Row0(x0, x1, x2, x3, a0, a1, a2, a3, b0, b1, b2, b3)
        == Row1(y.x0, y.x1, y.x2, y.x3, a0, a1, a2, a3, b0, b1, b2, b3)
  {
    hide MixSum, MixXor, Rotations, Row1;
    Table();
    Turned5(x0, x1);
    Turned56(x2, x3);
  }

  lemma Chained1(
    x0: word, x1: word, x2: word, x3: word,
    a0: word, a1: word, a2: word, a3: word, b0: word, b1: word, b2: word, b3: word)
    ensures var y := CodedRound(Block(x0, x1, x2, x3), 1);
      Row1(x0, x1, x2, x3, a0, a1, a2, a3, b0, b1, b2, b3)
        == Row2(y.x0, y.x1, y.x2, y.x3, a0, a1, a2, a3, b0, b1, b2, b3)
  {
    hide MixSum, MixXor, Rotations, Row2;
    Table();
    Turned36(x0, x3);
    Turned28(x2, x1);
  }

  lemma Chained2(
    x0: word, x1: word, x2: word, x3: word,
    a0: word, a1: word, a2: word, a3: word, b0: word, b1: word, b2: word, b3: word)
    ensures var y := CodedRound(Block(x0, x1, x2, x3), 2);
      Row2(x0, x1, x2, x3, a0, a1, a2, a3, b0, b1, b2, b3)
        == Row3(y.x0, y.x1, y.x2, y.x3, a0, a1, a2, a3, b0, b1, b2, b3)
  {
    hide MixSum, MixXor, Rotations, Row3;
    Table();
    Turned13(x0, x1);
    Turned46(x2, x3);
  }

  lemma Chained3(
    x0: word, x1: word, x2: word, x3: word,
    a0: word, a1: word, a2: word, a3: word, b0: word, b1: word, b2: word, b3: word)
    ensures var y := CodedRound(Block(x0, x1, x2, x3), 3);
      Row3(x0, x1, x2, x3, a0, a1, a2, a3, b0, b1, b2, b3)
        == Between(y.x0, y.x1, y.x2, y.x3, a0, a1, a2, a3, b0, b1, b2, b3)
  {
    hide MixSum, MixXor, Rotations, Between;
    Table();
    Turned58(x0, x3);
    Turned44(x2, x1);
  }

  lemma Chained4(
    x0: word, x1: word, x2: word, x3: word,
    a0: word, a1: word, a2: word, a3: word, b0: word, b1: word, b2: word, b3: word)
    ensures var y := CodedRound(Block(x0, x1, x2, x3), 4);
      Row4(x0, x1, x2, x3, a0, a1, a2, a3, b0, b1, b2, b3)
        == Row5(y.x0, y.x1, y.x2, y.x3, a0, a1, a2, a3, b0, b1, b2, b3)
  {
    hide MixSum, MixXor, Rotations, Row5;
    Table();
    Turned26(x0, x1);
    Turned20(x2, x3);
  }

  lemma Chained5(
    x0: word, x1: word, x2: word, x3: word,
    a0: word, a1: word, a2: word, a3: word, b0: word, b1: word, b2: word, b3: word)
    ensures var y := CodedRound(Block(x0, x1, x2, x3), 5);
      Row5(x0, x1, x2, x3, a0, a1, a2, a3, b0, b1, b2, b3)
        == Row6(y.x0, y.x1, y.x2, y.x3, a0, a1, a2, a3, b0, b1, b2, b3)
  {
    hide MixSum, MixXor, Rotations, Row6;
    Table();
    Turned53(x0, x3);
    Turned35(x2, x1);
  }

  lemma Chained6(
    x0: word, x1: word, x2: word, x3: word,
    a0: word, a1: word, a2: word, a3: word, b0: word, b1: word, b2: word, b3: word)
    ensures var y := CodedRound(Block(x0, x1, x2, x3), 6);
      Row6(x0, x1, x2, x3, a0, a1, a2, a3, b0, b1, b2, b3)
        == Row7(y.x0, y.x1, y.x2, y.x3, a0, a1, a2, a3, b0, b1, b2, b3)
  {
    hide MixSum, MixXor, Rotations, Row7;
    Table();
    Turned11(x0, x1);
    Turned42(x2, x3);
  }

  lemma Chained7(
    x0: word, x1: word, x2: word, x3: word,
    a0: word, a1: word, a2: word, a3: word, b0: word, b1: word, b2: word, b3: word)
    ensures var y := CodedRound(Block(x0, x1, x2, x3), 7);
      Row7(x0, x1, x2, x3, a0, a1, a2, a3, b0, b1, b2, b3)
        == Behind(y.x0, y.x1, y.x2, y.x3, a0, a1, a2, a3, b0, b1, b2, b3)
  {
    hide MixSum, MixXor, Rotations, Behind;
    Table();
    Turned59(x0, x3);
    Turned50(x2, x1);
  }

  lemma Injection(x: Block, a: word, b: word, c: word, d: word)
    ensures AddBlock(x, Block(a, b, c, d)) == Block(x.x0 + a, x.x1 + b, x.x2 + c, x.x3 + d)
  {
    hide Plus;
    Sum(x.x0, a);
    Sum(x.x1, b);
    Sum(x.x2, c);
    Sum(x.x3, d);
  }

  lemma Crossed(x: Block, y: Block, a0: word, a1: word, a2: word, a3: word, b0: word, b1: word, b2: word, b3: word)
    requires y == AddBlock(x, Block(a0, a1, a2, a3))
    ensures Between(x.x0, x.x1, x.x2, x.x3, a0, a1, a2, a3, b0, b1, b2, b3)
      == Row4(y.x0, y.x1, y.x2, y.x3, a0, a1, a2, a3, b0, b1, b2, b3)
  {
    hide Row4, AddBlock, Between;
    Injection(x, a0, a1, a2, a3);
    BetweenIs(x.x0, x.x1, x.x2, x.x3, y.x0, y.x1, y.x2, y.x3, a0, a1, a2, a3, b0, b1, b2, b3);
  }

  lemma BetweenIs(
    x0: word, x1: word, x2: word, x3: word, y0: word, y1: word, y2: word, y3: word,
    a0: word, a1: word, a2: word, a3: word, b0: word, b1: word, b2: word, b3: word)
    requires y0 == x0 + a0 && y1 == x1 + a1 && y2 == x2 + a2 && y3 == x3 + a3
    ensures Between(x0, x1, x2, x3, a0, a1, a2, a3, b0, b1, b2, b3)
      == Row4(y0, y1, y2, y3, a0, a1, a2, a3, b0, b1, b2, b3)
  {
    hide Row4;
  }

  lemma Finished(x: Block, y: Block, a0: word, a1: word, a2: word, a3: word, b0: word, b1: word, b2: word, b3: word)
    requires y == AddBlock(x, Block(b0, b1, b2, b3))
    ensures Behind(x.x0, x.x1, x.x2, x.x3, a0, a1, a2, a3, b0, b1, b2, b3) == y
  {
    hide AddBlock, Behind;
    Injection(x, b0, b1, b2, b3);
    BehindIs(x.x0, x.x1, x.x2, x.x3, y.x0, y.x1, y.x2, y.x3, a0, a1, a2, a3, b0, b1, b2, b3);
  }

  lemma BehindIs(
    x0: word, x1: word, x2: word, x3: word, y0: word, y1: word, y2: word, y3: word,
    a0: word, a1: word, a2: word, a3: word, b0: word, b1: word, b2: word, b3: word)
    requires y0 == x0 + b0 && y1 == x1 + b1 && y2 == x2 + b2 && y3 == x3 + b3
    ensures Behind(x0, x1, x2, x3, a0, a1, a2, a3, b0, b1, b2, b3) == Block(y0, y1, y2, y3)
  {
  }

  lemma EightRounds(
    ks: Schedule, p: Block, i: nat, x0: word, x1: word, x2: word, x3: word,
    a0: word, a1: word, a2: word, a3: word, b0: word, b1: word, b2: word, b3: word)
    requires ks.Valid() && Injected(ks, p, 2 * i) == Block(x0, x1, x2, x3)
    requires Subkey(ks, 2 * i + 1) == Block(a0, a1, a2, a3) && Subkey(ks, 2 * i + 2) == Block(b0, b1, b2, b3)
    ensures Injected(ks, p, 2 * i + 2) == Row0(x0, x1, x2, x3, a0, a1, a2, a3, b0, b1, b2, b3)
  {
    hide Row0, Row1, Row2, Row3, Row4, Row5, Row6, Row7, Between, Behind, CodedRound, Subkey,
      AddBlock, Injected;
    var x := Block(x0, x1, x2, x3);
    Chained0(x.x0, x.x1, x.x2, x.x3, a0, a1, a2, a3, b0, b1, b2, b3);
    var a := CodedRound(x, 0);
    Chained1(a.x0, a.x1, a.x2, a.x3, a0, a1, a2, a3, b0, b1, b2, b3);
    var b := CodedRound(a, 1);
    Chained2(b.x0, b.x1, b.x2, b.x3, a0, a1, a2, a3, b0, b1, b2, b3);
    var c := CodedRound(b, 2);
    Chained3(c.x0, c.x1, c.x2, c.x3, a0, a1, a2, a3, b0, b1, b2, b3);
    var d := CodedRound(c, 3);
    var v := AddBlock(d, Block(a0, a1, a2, a3));
    Crossed(d, v, a0, a1, a2, a3, b0, b1, b2, b3);
    Chained4(v.x0, v.x1, v.x2, v.x3, a0, a1, a2, a3, b0, b1, b2, b3);
    var e := CodedRound(v, 4);
    Chained5(e.x0, e.x1, e.x2, e.x3, a0, a1, a2, a3, b0, b1, b2, b3);
    var f := CodedRound(e, 5);
    Chained6(f.x0, f.x1, f.x2, f.x3, a0, a1, a2, a3, b0, b1, b2, b3);
    var g := CodedRound(f, 6);
    Chained7(g.x0, g.x1, g.x2, g.x3, a0, a1, a2, a3, b0, b1, b2, b3);
    var h := CodedRound(g, 7);
    Finished(h, AddBlock(h, Block(b0, b1, b2, b3)), a0, a1, a2, a3, b0, b1, b2, b3);
    TwoInjections(ks, p, i, x, d, h);
  }

  lemma TwoInjections(ks: Schedule, p: Block, i: nat, x: Block, d: Block, h: Block)
    requires ks.Valid() && Injected(ks, p, 2 * i) == x && d == FourRounds(x, 0)
    requires h == FourRounds(AddBlock(d, Subkey(ks, 2 * i + 1)), 4)
    ensures Injected(ks, p, 2 * i + 2) == AddBlock(h, Subkey(ks, 2 * i + 2))
  {
    hide FourRounds, Subkey, AddBlock;
    FourRoundsRepeat(x, i, 0);
    FourRoundsRepeat(AddBlock(d, Subkey(ks, 2 * i + 1)), i, 1);
    assert 4 * (2 * i + 0) == 4 * (2 * i) && 4 * (2 * i + 1) == 8 * i + 4;
    assert Injected(ks, p, 2 * i + 1) == AddBlock(d, Subkey(ks, 2 * i + 1));
  }

  // ----- evaluating them -----

  lemma KeyWords(ks: Schedule, n: nat, a: word, b: word, c: word, d: word, t: word, u: word, s: word)
    requires ks.Valid() && ks.key[n % 5] == a && ks.key[(n + 1) % 5] == b && ks.key[(n + 2) % 5] == c
    requires ks.key[(n + 3) % 5] == d && ks.tweak[n % 3] == t && ks.tweak[(n + 1) % 3] == u && Word(n) == s
    ensures Subkey(ks, n) == Block(a, b + t, c + u, d + s)
  {
    hide Plus;
    Sum(b, t);
    Sum(c, u);
    Sum(d, s);
  }

  /** Eight rounds and two injections take a state to `y`; the key and tweak words begin with those of the first one. */
  lemma Octet(
    ks: Schedule, p: Block, i: nat, x0: word, x1: word, x2: word, x3: word,
    k0: word, k1: word, k2: word, k3: word, k4: word, t0: word, t1: word, t2: word, m: word, n: word, y: Block)
    requires ks.Valid() && Injected(ks, p, 2 * i) == Block(x0, x1, x2, x3)
    requires ks.key[(2 * i + 1) % 5] == k0 && ks.key[(2 * i + 2) % 5] == k1 && ks.key[(2 * i + 3) % 5] == k2
    requires ks.key[(2 * i + 4) % 5] == k3 && ks.key[(2 * i + 5) % 5] == k4
    requires ks.tweak[(2 * i + 1) % 3] == t0 && ks.tweak[(2 * i + 2) % 3] == t1 && ks.tweak[(2 * i + 3) % 3] == t2
    requires Word(2 * i + 1) == m && Word(2 * i + 2) == n
    requires Row0(x0, x1, x2, x3, k0, k1 + t0, k2 + t1, k3 + m, k1, k2 + t1, k3 + t2, k4 + n) == y
    ensures Injected(ks, p, 2 * i + 2) == y
  {
    hide Row0, Injected, Subkey, Word;
    KeyWords(ks, 2 * i + 1, k0, k1, k2, k3, t0, t1, m);
    KeyWords(ks, 2 * i + 2, k1, k2, k3, k4, t1, t2, n);
    EightRounds(ks, p, i, x0, x1, x2, x3, k0, k1 + t0, k2 + t1, k3 + m, k1, k2 + t1, k3 + t2, k4 + n);
  }

  lemma Begin(ks: Schedule, p: Block, x: Block)
    requires ks.Valid() && AddBlock(p, Subkey(ks, 0)) == x
    ensures Injected(ks, p, 0) == x
  {
  }

  lemma Numerals()
    ensures Word(0) == 0 && Word(1) == 1 && Word(2) == 2 && Word(3) == 3 && Word(4) == 4 && Word(5) == 5
    ensures Word(6) == 6 && Word(7) == 7 && Word(8) == 8 && Word(9) == 9 && Word(10) == 10 && Word(11) == 11
    ensures Word(12) == 12 && Word(13) == 13 && Word(14) == 14 && Word(15) == 15 && Word(16) == 16
    ensures Word(17) == 17 && Word(18) == 18
  {
  }

  /** A schedule on literals. */
  lemma Scheduled(g: Block, t0: word, t1: word, ks: Schedule)
    requires ks.Valid() && ks.key == [g.x0, g.x1, g.x2, g.x3, Parity(g.x0, g.x1, g.x2, g.x3)]
    requires ks.tweak == [t0, t1, Xor(t0, t1)]
    ensures ks == KeySchedule(g, t0, t1)
  {
    hide Parity, Xor;
  }

  // ----- the configuration of 256 bits of output -----

  lemma ConfigCipher(ks: Schedule, p: Block)
    requires ks == Schedule(
      [0, 0, 0, 0, 0x5555555555555555],
      [0x20, 0xc400000000000000, 0xc400000000000020])
    requires p == Block(0x133414853, 0x100, 0, 0)
    ensures Injected(ks, p, 18) == Block(0x388512693d274815, 0x4b72d5dec5a8fe01, 0x281a9298ca5eb3a5, 0x54ca5249f46070c4)
  {
    hide Injected, Word;
    Numerals();
    Begin(ks, p, Block(0x133414853, 0x120, 0xc400000000000000, 0));
    Octet(ks, p, 0, 0x133414853, 0x120, 0xc400000000000000, 0,
      0, 0, 0, 0x5555555555555555, 0,
      0xc400000000000000, 0xc400000000000020, 0x20, 1, 2,
      Block(0xdfce9eef93658215, 0x8ab5a9c0a11fc68f, 0xe7b1811d4b216947, 0xb324720b97b8cd6));
    Octet(ks, p, 1, 0xdfce9eef93658215, 0x8ab5a9c0a11fc68f, 0xe7b1811d4b216947, 0xb324720b97b8cd6,
      0, 0x5555555555555555, 0, 0, 0,
      0x20, 0xc400000000000000, 0xc400000000000020, 3, 4,
      Block(0x93521ad77ecb0996, 0x5b3ea30d69900dd3, 0xc78bbe17f7b5631a, 0x2df537c4536fcbe7));
    Octet(ks, p, 2, 0x93521ad77ecb0996, 0x5b3ea30d69900dd3, 0xc78bbe17f7b5631a, 0x2df537c4536fcbe7,
      0, 0, 0, 0, 0x5555555555555555,
      0xc400000000000020, 0x20, 0xc400000000000000, 5, 6,
      Block(0xcfcf265d3f11b358, 0x26ee08b9a7a83692, 0xa1f06d13a83a868c, 0xe549dd50eea62d3));
    Octet(ks, p, 3, 0xcfcf265d3f11b358, 0x26ee08b9a7a83692, 0xa1f06d13a83a868c, 0xe549dd50eea62d3,
      0, 0, 0x5555555555555555, 0, 0,
      0xc400000000000000, 0xc400000000000020, 0x20, 7, 8,
      Block(0x3b267701b28b057a, 0x7c1bef1607a8b8a0, 0xe66119d2c3bd0c29, 0xffbe25b6d275347));
    Octet(ks, p, 4, 0x3b267701b28b057a, 0x7c1bef1607a8b8a0, 0xe66119d2c3bd0c29, 0xffbe25b6d275347,
      0x5555555555555555, 0, 0, 0, 0,
      0x20, 0xc400000000000000, 0xc400000000000020, 9, 10,
      Block(0xf055e7463cf85869, 0x5cc44b89fd423af0, 0x6e3b494dbda14f1a, 0x30de94129f6f62e5));
    Octet(ks, p, 5, 0xf055e7463cf85869, 0x5cc44b89fd423af0, 0x6e3b494dbda14f1a, 0x30de94129f6f62e5,
      0, 0, 0, 0x5555555555555555, 0,
      0xc400000000000020, 0x20, 0xc400000000000000, 11, 12,
      Block(0xf70a23645f8979ad, 0x45a350b8f976b528, 0x89d15c0cd2e22cf2, 0x175f485d2f21c6a0));
    Octet(ks, p, 6, 0xf70a23645f8979ad, 0x45a350b8f976b528, 0x89d15c0cd2e22cf2, 0x175f485d2f21c6a0,
      0, 0x5555555555555555, 0, 0, 0,
      0xc400000000000000, 0xc400000000000020, 0x20, 13, 14,
      Block(0xe6220b8959f41f49, 0xa6ee7672b578c6c8, 0x489c3cc8c6ae1a16, 0x1c0d5d3c197e0381));
    Octet(ks, p, 7, 0xe6220b8959f41f49, 0xa6ee7672b578c6c8, 0x489c3cc8c6ae1a16, 0x1c0d5d3c197e0381,
      0, 0, 0, 0, 0x5555555555555555,
      0x20, 0xc400000000000000, 0xc400000000000020, 15, 16,
      Block(0xdf07599ee591369a, 0xc66c1ba0684f8fb5, 0xc6fa2fcb9c29eb62, 0xeb2d6df0b0ae99c0));
    Octet(ks, p, 8, 0xdf07599ee591369a, 0xc66c1ba0684f8fb5, 0xc6fa2fcb9c29eb62, 0xeb2d6df0b0ae99c0,
      0, 0, 0x5555555555555555, 0, 0,
      0xc400000000000020, 0x20, 0xc400000000000000, 17, 18,
      Block(0x388512693d274815, 0x4b72d5dec5a8fe01, 0x281a9298ca5eb3a5, 0x54ca5249f46070c4));
  }

  lemma Sizes()
    ensures Word(32) == 32 && Word(256) == 256
  {
    hide Word;
    Numerals();
    WordSum(16, 16);
    WordSum(32, 32);
    WordSum(64, 64);
    WordSum(128, 128);
  }

  lemma ConfigBlock()
    ensures LoadBlock(Config(256, 0)) == Block(0x133414853, 0x100, 0, 0)
  {
    hide Word, StoreWord, LoadWord;
    Sizes();
    var x := Block(0x133414853, 0x100, 0, 0);
    LoadStore(x);
    Zeros();
    assert Config(256, 0) == StoreBlock(x);
  }

  lemma Zeros()
    ensures StoreWord(0) == Fill(8, 0)
  {
  }

  /** `Skein_256_Init`: the chaining value precomputed for 256 bits is the one that the configuration block leads to. */
  lemma PrecomputedValue()
    ensures InitialValue(256, 0, [])
      == Block(0x388512680e660046, 0x4b72d5dec5a8ff01, 0x281a9298ca5eb3a5, 0x54ca5249f46070c4)
  {
    hide Word, LoadBlock, Config, Compress, Injected, Or;
    Sizes();
    ConfigBlock();
    SingleBlock(ZERO_BLOCK, Config(256, 0), TYPE_CFG);
    assert Config(256, 0) + Fill(0, 0) == Config(256, 0);
    ConfigFlags();
    ConfigCompressed();
  }

  lemma ConfigFlags()
    ensures Or(Or(TYPE_CFG, T1_FIRST), T1_FINAL) == 0xc400000000000000
  {
  }

  lemma ConfigCompressed()
    ensures Compress(ZERO_BLOCK, 32, 0xc400000000000000, Block(0x133414853, 0x100, 0, 0))
      == Block(0x388512680e660046, 0x4b72d5dec5a8ff01, 0x281a9298ca5eb3a5, 0x54ca5249f46070c4)
  {
    hide Injected, Encrypt, KeySchedule, XorBlock;
    var ks := Schedule([0, 0, 0, 0, 0x5555555555555555],
                       [0x20, 0xc400000000000000, 0xc400000000000020]);
    var w := Block(0x133414853, 0x100, 0, 0);
    assert Parity(0, 0, 0, 0) == 0x5555555555555555 && Xor(0x20, 0xc400000000000000) == 0xc400000000000020;
    Scheduled(ZERO_BLOCK, 32, 0xc400000000000000, ks);
    ConfigCipher(ks, w);
    ConfigForward();
    CodedCipherIsReference(ks, w);
  }

  lemma ConfigForward()
    ensures XorBlock(Block(0x388512693d274815, 0x4b72d5dec5a8fe01, 0x281a9298ca5eb3a5, 0x54ca5249f46070c4),
                     Block(0x133414853, 0x100, 0, 0))
      == Block(0x388512680e660046, 0x4b72d5dec5a8ff01, 0x281a9298ca5eb3a5, 0x54ca5249f46070c4)
  {
  }
}
