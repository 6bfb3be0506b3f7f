// One client of the EGD server (host/control.lua, doc/README.egd-protocol): the commands it sends, how they are cut
// out of its input, and the answers it gets.

module EgdClient {
  import opened Bytes
  import opened EgdPool

  type octet = x: int | 0 <= x < 256

  /** What a client sends, piece by piece as it is consumed. The payload of ADDENTROPY is a piece of its own. */
  datatype Cmd =
    | QueryPool
    | ReadBytes(n: octet)
    | BlockRead(n: octet)
    | AddHeader(hi: octet, lo: octet, n: octet)
    | Discard(payload: seq<octet>)
    | GetPid
    | Unknown(code: octet)

  function Encode(c: Cmd): seq<octet> {
    match c
    case QueryPool => [0]
    case ReadBytes(n) => [1, n]
    case BlockRead(n) => [2, n]
    case AddHeader(hi, lo, n) => [3, hi, lo, n]
    case Discard(p) => p
    case GetPid => [4]
    case Unknown(code) => [code]
  }

  /** A byte written to a client: part of a reply, or a byte of entropy. */
  datatype Out<T> = Octet(o: octet) | Gift(e: T)

  /** A command, how much the pool held when it was executed, and what has been written in answer so far. */
  datatype Exchange<T> = Exchange(cmd: Cmd, pool: nat, answer: seq<Out<T>>)

  /** `buf` is the read buffer, `owed` the write-blocked amount, `due` the payload still to be thrown away. */
  datatype Client<T> = Client(
    buf: seq<octet>, owed: Option<nat>, due: Option<nat>, doomed: bool, out: seq<Out<T>>, history: seq<Exchange<T>>)

  function Fresh<T>(): Client<T> {
    Client([], None, None, false, [], [])
  }

  // ----- cutting the input -----

  /** The next command of a buffer, if all of it is there; ADDENTROPY takes its payload along when that is there too. */
  function FreshCommands(buf: seq<octet>): seq<Cmd> {
    if buf == [] then []
    else if buf[0] == 0 then [QueryPool]
    else if buf[0] == 1 then if |buf| < 2 then [] else [ReadBytes(buf[1])]
    else if buf[0] == 2 then if |buf| < 2 then [] else [BlockRead(buf[1])]
    else if buf[0] == 3 then
      if |buf| < 4 then []
      else if 0 < buf[3] <= |buf| - 4 then [AddHeader(buf[1], buf[2], buf[3]), Discard(buf[4..4 + buf[3]])]
      else [AddHeader(buf[1], buf[2], buf[3])]
    else if buf[0] == 4 then [GetPid]
    else [Unknown(buf[0])]
  }

  /** What one attempt at a command consumes. */
  function Consumed(buf: seq<octet>, owed: bool, due: Option<nat>): seq<Cmd> {
    if owed then []
    else if due.Some? then
      if due.value == 0 || |buf| < due.value then [] else [Discard(buf[..due.value])] + FreshCommands(buf[due.value..])
    else FreshCommands(buf)
  }

  /** What a client can send as one command. */
  predicate Sendable(cmd: Cmd) {
    !cmd.Discard? && (cmd.Unknown? ==> cmd.code > 4)
  }

  /** A command is taken from a buffer if and only if the buffer begins with it. */
  lemma ParseIff(buf: seq<octet>, cmd: Cmd)
    requires Sendable(cmd)
    ensures Encode(cmd) <= buf <==> FreshCommands(buf) != [] && FreshCommands(buf)[0] == cmd
  {
  }

  /** Nothing is taken if and only if it begins with none. */
  lemma NothingParsed(buf: seq<octet>)
    ensures FreshCommands(buf) == [] <==> forall cmd :: Sendable(cmd) ==> !(Encode(cmd) <= buf)
    ensures FreshCommands(buf) != [] ==> Sendable(FreshCommands(buf)[0])
  {
    if FreshCommands(buf) != [] {
      ParseIff(buf, FreshCommands(buf)[0]);
    } else {
      forall cmd | Sendable(cmd)
        ensures !(Encode(cmd) <= buf)
      {
        ParseIff(buf, cmd);
      }
    }
  }

  /** The payload of an ADDENTROPY goes along if and only if it is not empty and all there; nothing else is taken. */
  lemma PayloadParsed(buf: seq<octet>)
    requires FreshCommands(buf) != []
    ensures var cmds := FreshCommands(buf);
      var cmd, rest := cmds[0], buf[|Encode(cmds[0])|..];
      cmds[1..] == if cmd.AddHeader? && 0 < cmd.n <= |rest| then [Discard(rest[..cmd.n])] else []
  {
    var cmd := FreshCommands(buf)[0];
    ParseIff(buf, cmd);
    var rest := buf[|Encode(cmd)|..];
    if cmd.AddHeader? && 0 < cmd.n <= |rest| {
      assert rest[..cmd.n] == buf[4..4 + cmd.n];
    }
  }

  // ----- answers -----

  function Octets<T>(s: seq<octet>): seq<Out<T>> {
    seq(|s|, i requires 0 <= i < |s| => Octet(s[i]))
  }

  function Gifts<T>(s: seq<T>): seq<Out<T>> {
    seq(|s|, i requires 0 <= i < |s| => Gift(s[i]))
  }

  /** The entropy among the bytes written to a client. */
  function Given<T>(out: seq<Out<T>>): seq<T> {
    if out == [] then []
    else Given(out[..|out| - 1]) + (if out[|out| - 1].Gift? then [out[|out| - 1].e] else [])
  }

  lemma {:induction false} GivenConcat<T>(a: seq<Out<T>>, b: seq<Out<T>>)
    ensures Given(a + b) == Given(a) + Given(b)
  {
    if b == [] {
      assert a + b == a;
    } else {
      assert (a + b)[..|a + b| - 1] == a + b[..|b| - 1];
      GivenConcat(a, b[..|b| - 1]);
    }
  }

  lemma {:induction false} GivenGifts<T>(s: seq<T>)
    ensures Given(Gifts(s)) == s
  {
    if s != [] {
      assert Gifts(s)[..|s| - 1] == Gifts(s[..|s| - 1]);
      GivenGifts(s[..|s| - 1]);
    }
  }

  lemma {:induction false} GivenOctets<T>(s: seq<octet>)
    ensures Given<T>(Octets(s)) == []
  {
    if s != [] {
      assert Octets<T>(s)[..|s| - 1] == Octets(s[..|s| - 1]);
      GivenOctets<T>(s[..|s| - 1]);
    }
  }

  function BigEndian(s: seq<octet>): nat {
    if s == [] then 0 else 256 * BigEndian(s[..|s| - 1]) + s[|s| - 1]
  }

  function Packed(v: nat): seq<octet> {
    [v / 256 / 256 / 256 % 256, v / 256 / 256 % 256, v / 256 % 256, v % 256]
  }

  lemma BigEndianSnoc(s: seq<octet>, d: octet)
    ensures BigEndian(s + [d]) == 256 * BigEndian(s) + d
  {
    assert (s + [d])[..|s|] == s;
  }

  lemma FourDigits(a: octet, b: octet, c: octet, d: octet)
    ensures BigEndian([a, b, c, d]) == 256 * (256 * (256 * a + b) + c) + d
  {
    hide BigEndian;
    BigEndianSnoc([], a);
    BigEndianSnoc([a], b);
    BigEndianSnoc([a, b], c);
    BigEndianSnoc([a, b, c], d);
    assert [] + [a] == [a] && [a] + [b] == [a, b] && [a, b] + [c] == [a, b, c] && [a, b, c] + [d] == [a, b, c, d];
    Empty();
  }

  lemma Empty()
    ensures BigEndian([]) == 0
  {
  }

  lemma LowWord(q: nat, r: nat)
    requires r < 0x1_0000_0000
    ensures (0x1_0000_0000 * q + r) % 0x1_0000_0000 == r
  {
  }

  lemma Base256(v: nat)
    ensures v == 256 * (v / 256) + v % 256
  {
  }

  /** Four bytes, most significant first, are the number modulo 2^32. */
  lemma PackedValue(v: nat)
    ensures BigEndian(Packed(v)) == v % 0x1_0000_0000
  {
    hide BigEndian;
    var q1 := v / 256;
    var q2 := q1 / 256;
    var q3 := q2 / 256;
    FourDigits(q3 % 256, q2 % 256, q1 % 256, v % 256);
    var r := 256 * (256 * (256 * (q3 % 256) + q2 % 256) + q1 % 256) + v % 256;
    Base256(v);
    Base256(q1);
    Base256(q2);
    Base256(q3);
    assert v == 0x1_0000_0000 * (q3 / 256) + r;
    LowWord(q3 / 256, r);
  }

  /** `egd_pack32`. */
  method Pack32(v: nat) returns (r: seq<octet>)
    ensures |r| == 4 && BigEndian(r) == v % 0x1_0000_0000
    ensures r == Packed(v)
  {
    hide BigEndian;
    PackedValue(v);
    var val := v;
    r := [val % 256];
    val := val / 256;
    r := [val % 256] + r;
    val := val / 256;
    r := [val % 256] + r;
    val := val / 256;
    r := [val % 256] + r;
    assert r == Packed(v);
  }

  // ----- executing a command -----

  datatype Served<T> = Served(client: Client<T>, blocks: seq<seq<T>>)

  function Drop(buf: seq<octet>, n: nat): seq<octet> {
    if n <= |buf| then buf[n..] else []
  }

  /** The client after `cmd` has been taken off its buffer and `answer` written to it. */
  function Answered<T>(c: Client<T>, cmd: Cmd, pool: nat, answer: seq<Out<T>>): Client<T> {
    c.(buf := Drop(c.buf, |Encode(cmd)|), out := c.out + answer, history := c.history + [Exchange(cmd, pool, answer)])
  }

  function Execute<T>(c: Client<T>, blocks: seq<seq<T>>, cmd: Cmd): Served<T> {
    var pool := Size(blocks);
    match cmd
    case QueryPool => Served(Answered(c, cmd, pool, Octets(Packed(8 * pool))), blocks)
    case ReadBytes(n) =>
      var d := Take(blocks, n);
      Served(Answered(c, cmd, pool, [Octet(if |d.taken| < 256 then |d.taken| else 255)] + Gifts(d.taken)), d.rest)
    case BlockRead(n) =>
      var d := Take(blocks, n);
      Served(
        Answered(c, cmd, pool, Gifts(d.taken)).(owed := if |d.taken| < n then Some(n - |d.taken|) else None), d.rest)
    case AddHeader(_, _, n) => Served(Answered(c, cmd, pool, []).(due := Some(n)), blocks)
    case Discard(_) => Served(Answered(c, cmd, pool, []).(due := None), blocks)
    case GetPid => Served(Answered(c, cmd, pool, Octets([2, 45, 49])), blocks)
    case Unknown(_) => Served(Answered(c, cmd, pool, []).(doomed := true), blocks)
  }

  function ExecuteAll<T>(c: Client<T>, blocks: seq<seq<T>>, cmds: seq<Cmd>): Served<T>
    decreases |cmds|
  {
    if cmds == [] then Served(c, blocks)
    else var s := Execute(c, blocks, cmds[0]); ExecuteAll(s.client, s.blocks, cmds[1..])
  }

  /** One attempt at a command. */
  function Serve<T>(c: Client<T>, blocks: seq<seq<T>>): Served<T> {
    ExecuteAll(c, blocks, Consumed(c.buf, c.owed.Some?, c.due))
  }

  /** The bytes still owed to a blocked client are written to it. */
  function Refill<T>(c: Client<T>, got: seq<T>): Client<T> {
    c.(owed := None, out := c.out + Gifts(got), history := Extended(c.history, Gifts(got)))
  }

  function Extended<T>(h: seq<Exchange<T>>, more: seq<Out<T>>): seq<Exchange<T>> {
    if h == [] then [] else h[..|h| - 1] + [h[|h| - 1].(answer := h[|h| - 1].answer + more)]
  }

  // ----- what a client may expect -----

  /** The input a history stands for. */
  function Input<T>(h: seq<Exchange<T>>): seq<octet> {
    if h == [] then [] else Input(h[..|h| - 1]) + Encode(h[|h| - 1].cmd)
  }

  /** Everything written, in order. */
  function Output<T>(h: seq<Exchange<T>>): seq<Out<T>> {
    if h == [] then [] else Output(h[..|h| - 1]) + h[|h| - 1].answer
  }

  /** A command the server does not know has been met; its client is to be disconnected. */
  predicate Faulted<T>(h: seq<Exchange<T>>) {
    h != [] && (h[|h| - 1].cmd.Unknown? || Faulted(h[..|h| - 1]))
  }

  ghost predicate AllGifts<T>(s: seq<Out<T>>) {
    forall i :: 0 <= i < |s| ==> s[i].Gift?
  }

  /**
    * The answer the protocol promises, when `owed` bytes of it are still to come. If `fair` fails, an answer to a
    * blocking read may end up short.
    */
  ghost predicate RightAnswer<T>(x: Exchange<T>, owed: nat, fair: bool) {
    match x.cmd
    case QueryPool => x.answer == Octets(Packed(8 * x.pool))
    case ReadBytes(n) =>
      && x.answer != [] && AllGifts(x.answer[1..])
      && x.answer[0] == Octet(if n <= x.pool then n else x.pool) && |x.answer| == 1 + x.answer[0].o
    case BlockRead(n) => AllGifts(x.answer) && |x.answer| + owed <= n && (fair ==> |x.answer| + owed == n)
    case GetPid => x.answer == Octets([2, 45, 49])
    case _ => x.answer == []
  }

  /** Which piece may follow a history: the payload of an unfinished ADDENTROPY, or else any command. */
  predicate Follows<T>(h: seq<Exchange<T>>, cmd: Cmd) {
    if h != [] && h[|h| - 1].cmd.AddHeader? then cmd.Discard? && |cmd.payload| == h[|h| - 1].cmd.n > 0
    else !cmd.Discard? && (cmd.Unknown? ==> cmd.code > 4)
  }

  /** Every exchange is over, and was right. */
  ghost predicate Settled<T>(h: seq<Exchange<T>>, fair: bool) {
    h == [] ||
    (var front, last := h[..|h| - 1], h[|h| - 1];
    Settled(front, fair) && Follows(front, last.cmd) && RightAnswer(last, 0, fair))
  }

  /** The last exchange may still be going on: the blocked amounts say what is missing. */
  ghost predicate InProgress<T>(h: seq<Exchange<T>>, owed: Option<nat>, due: Option<nat>, fair: bool) {
    if h == [] then owed == None && due == None
    else
      var front, last := h[..|h| - 1], h[|h| - 1];
      && Settled(front, fair) && Follows(front, last.cmd)
      && RightAnswer(last, if owed.Some? then owed.value else 0, fair)
      && (owed.Some? ==> last.cmd.BlockRead? && 0 < owed.value <= last.cmd.n)
      && due == (if last.cmd.AddHeader? then Some(last.cmd.n) else None)
  }

  /** `sent` is everything the client has sent: it is what has been executed, followed by the read buffer. */
  ghost predicate Accounted<T>(c: Client<T>, sent: seq<octet>, fair: bool) {
    && sent == Input(c.history) + c.buf
    && c.out == Output(c.history)
    && c.doomed == Faulted(c.history)
    && InProgress(c.history, c.owed, c.due, fair)
  }

  ghost predicate CanExecute<T>(c: Client<T>, cmd: Cmd) {
    c.owed == None && Follows(c.history, cmd) && Encode(cmd) <= c.buf
  }

  lemma HistorySnoc<T>(h: seq<Exchange<T>>, x: Exchange<T>)
    ensures Input(h + [x]) == Input(h) + Encode(x.cmd) && Output(h + [x]) == Output(h) + x.answer
    ensures Faulted(h + [x]) <==> x.cmd.Unknown? || Faulted(h)
    ensures (h + [x])[..|h + [x]| - 1] == h && (h + [x])[|h + [x]| - 1] == x
  {
    assert (h + [x])[..|h|] == h;
  }

  lemma FinishedIsSettled<T>(h: seq<Exchange<T>>, due: Option<nat>, fair: bool)
    requires InProgress(h, None, due, fair)
    ensures Settled(h, fair)
  {
  }

  lemma AnsweredAccounted<T>(c: Client<T>, cmd: Cmd, pool: nat, answer: seq<Out<T>>, sent: seq<octet>, fair: bool)
    requires Accounted(c, sent, fair) && CanExecute(c, cmd)
    ensures var d := Answered(c, cmd, pool, answer);
      && d.buf == c.buf[|Encode(cmd)|..] && sent == Input(d.history) + d.buf && d.out == Output(d.history)
      && d.history == c.history + [Exchange(cmd, pool, answer)] && d.owed == None && Settled(c.history, fair)
      && (Faulted(d.history) <==> cmd.Unknown? || d.doomed)
  {
    hide Input, Output, Faulted, Settled;
    HistorySnoc(c.history, Exchange(cmd, pool, answer));
    FinishedIsSettled(c.history, c.due, fair);
    var e := Encode(cmd);
    assert c.buf == e + c.buf[|e|..];
    assert Input(c.history) + (e + c.buf[|e|..]) == (Input(c.history) + e) + c.buf[|e|..];
  }

  lemma ExecuteRight<T>(c: Client<T>, blocks: seq<seq<T>>, cmd: Cmd, fair: bool)
    requires c.owed == None
    ensures var d := Execute(c, blocks, cmd).client;
      d.history != [] && RightAnswer(d.history[|d.history| - 1], if d.owed.Some? then d.owed.value else 0, fair)
  {
    hide Packed, Take, Flat;
    if cmd.ReadBytes? || cmd.BlockRead? {
      TakeConserves(blocks, cmd.n);
      var taken := Take(blocks, cmd.n).taken;
      assert ([Octet(|taken|)] + Gifts(taken))[1..] == Gifts(taken);
    }
  }

  lemma ExecuteBlocks<T>(c: Client<T>, blocks: seq<seq<T>>, cmd: Cmd)
    requires c.owed == None
    ensures var d := Execute(c, blocks, cmd).client;
      && (d.owed.Some? ==> cmd.BlockRead? && 0 < d.owed.value <= cmd.n)
      && d.due == (if cmd.AddHeader? then Some(cmd.n) else if cmd.Discard? then None else c.due)
      && (d.doomed <==> cmd.Unknown? || c.doomed)
      && d.history != [] && (var x := d.history[|d.history| - 1];
      x.cmd == cmd && d == Answered(c, cmd, Size(blocks), x.answer).(owed := d.owed, due := d.due, doomed := d.doomed))
  {
    hide Packed, Take;
  }

  lemma SettledSnoc<T>(h: seq<Exchange<T>>, x: Exchange<T>, owed: Option<nat>, due: Option<nat>, fair: bool)
    requires Settled(h, fair) && Follows(h, x.cmd) && RightAnswer(x, if owed.Some? then owed.value else 0, fair)
    requires owed.Some? ==> x.cmd.BlockRead? && 0 < owed.value <= x.cmd.n
    requires due == (if x.cmd.AddHeader? then Some(x.cmd.n) else None)
    ensures InProgress(h + [x], owed, due, fair)
  {
    assert (h + [x])[..|h|] == h;
  }

  lemma NotDue<T>(c: Client<T>, cmd: Cmd, fair: bool)
    requires InProgress(c.history, c.owed, c.due, fair) && Follows(c.history, cmd)
    ensures !cmd.Discard? ==> c.due == None
  {
  }

  /** Executing one command keeps the account of its client. */
  lemma ExecuteAccounted<T>(c: Client<T>, blocks: seq<seq<T>>, cmd: Cmd, sent: seq<octet>, fair: bool)
    requires Accounted(c, sent, fair) && CanExecute(c, cmd)
    ensures Accounted(Execute(c, blocks, cmd).client, sent, fair)
    ensures var d := Execute(c, blocks, cmd).client;
      d.buf == c.buf[|Encode(cmd)|..] && d.history != [] && d.history[|d.history| - 1].cmd == cmd
  {
    hide Input, Output, Faulted, Settled, Execute, RightAnswer, Follows, InProgress;
    var s := Execute(c, blocks, cmd);
    ExecuteBlocks(c, blocks, cmd);
    ExecuteRight(c, blocks, cmd, fair);
    var x := s.client.history[|s.client.history| - 1];
    AnsweredAccounted(c, cmd, Size(blocks), x.answer, sent, fair);
    NotDue(c, cmd, fair);
    SettledSnoc(c.history, x, s.client.owed, s.client.due, fair);
  }

  lemma TakenIsGiven<T>(blocks: seq<seq<T>>, n: nat, out: seq<Out<T>>)
    ensures var d := Take(blocks, n);
      && multiset(Flat(blocks)) + multiset(Given(out)) == multiset(Flat(d.rest)) + multiset(Given(out + Gifts(d.taken)))
      && Size(d.rest) <= Size(blocks)
  {
    hide Given, Take, Flat;
    var d := Take(blocks, n);
    TakeConserves(blocks, n);
    GivenGifts(d.taken);
    GivenConcat(out, Gifts(d.taken));
  }

  lemma OctetsGiveNothing<T>(out: seq<Out<T>>, s: seq<octet>)
    ensures Given(out + Octets(s)) == Given(out)
  {
    hide Given;
    GivenOctets<T>(s);
    GivenConcat(out, Octets(s));
    assert Given(out) + [] == Given(out);
  }

  /** Executing one command moves entropy from the pool to the client and nowhere else. */
  lemma ExecuteConserves<T>(c: Client<T>, blocks: seq<seq<T>>, cmd: Cmd)
    ensures var s := Execute(c, blocks, cmd);
      && multiset(Flat(blocks)) + multiset(Given(c.out)) == multiset(Flat(s.blocks)) + multiset(Given(s.client.out))
      && Size(s.blocks) <= Size(blocks)
  {
    hide Given, Packed, Take, Flat, Octets, Gifts;
    match cmd
    case QueryPool => OctetsGiveNothing(c.out, Packed(8 * Size(blocks)));
    case GetPid => OctetsGiveNothing(c.out, [2, 45, 49]);
    case ReadBytes(n) =>
      var taken := Take(blocks, n).taken;
      var k := if |taken| < 256 then |taken| else 255;
      OctetsGiveNothing(c.out, [k]);
      OneOctet<T>(k);
      assert c.out + ([Octet(k)] + Gifts(taken)) == (c.out + [Octet(k)]) + Gifts(taken);
      TakenIsGiven(blocks, n, c.out + [Octet(k)]);
    case BlockRead(n) => TakenIsGiven(blocks, n, c.out);
    case _ => assert c.out + [] == c.out;
  }

  lemma OneOctet<T>(o: octet)
    ensures Octets<T>([o]) == [Octet(o)]
  {
  }

  // ----- one attempt -----

  /** What an attempt consumes is the front of the buffer, and may be executed piece by piece. */
  lemma FreshFollows<T>(c: Client<T>)
    requires c.owed == None && (c.history == [] || !c.history[|c.history| - 1].cmd.AddHeader?)
    ensures FreshCommands(c.buf) != [] ==> CanExecute(c, FreshCommands(c.buf)[0])
    ensures |FreshCommands(c.buf)| <= 2
    ensures |FreshCommands(c.buf)| == 2 ==>
      FreshCommands(c.buf)[0].AddHeader? && FreshCommands(c.buf)[1].Discard?
      && |FreshCommands(c.buf)[1].payload| == FreshCommands(c.buf)[0].n > 0
      && FreshCommands(c.buf)[1].payload <= c.buf[|Encode(FreshCommands(c.buf)[0])|..]
  {
    var buf := c.buf;
    if buf != [] && buf[0] == 3 && |buf| >= 4 {
      assert [3, buf[1], buf[2], buf[3]] <= buf;
      if |FreshCommands(buf)| == 2 {
        assert buf[4..4 + buf[3]] <= buf[4..];
      }
    }
  }

  lemma FreshAccounted<T>(c: Client<T>, blocks: seq<seq<T>>, sent: seq<octet>, fair: bool)
    requires Accounted(c, sent, fair) && c.owed == None && c.due == None
    ensures Accounted(ExecuteAll(c, blocks, FreshCommands(c.buf)).client, sent, fair)
  {
    hide Input, Output, Faulted, Settled, RightAnswer, FreshCommands, Execute, Encode;
    var cmds := FreshCommands(c.buf);
    FreshFollows(c);
    if cmds != [] {
      var s := Execute(c, blocks, cmds[0]);
      ExecuteAccounted(c, blocks, cmds[0], sent, fair);
      if |cmds| == 2 {
        HeaderLeaves(c, blocks, cmds[0]);
        DiscardEncoding(cmds[1]);
        ExecuteAccounted(s.client, s.blocks, cmds[1], sent, fair);
        ExecuteOne(s.client, s.blocks, cmds[1]);
        assert cmds[1..] == [cmds[1]];
      } else {
        assert cmds[1..] == [];
      }
    }
  }

  lemma ExecuteOne<T>(c: Client<T>, blocks: seq<seq<T>>, cmd: Cmd)
    ensures ExecuteAll(c, blocks, [cmd]) == Execute(c, blocks, cmd)
  {
    hide Execute;
  }

  lemma DiscardEncoding(cmd: Cmd)
    requires cmd.Discard?
    ensures Encode(cmd) == cmd.payload
  {
  }

  lemma HeaderLeaves<T>(c: Client<T>, blocks: seq<seq<T>>, cmd: Cmd)
    requires cmd.AddHeader?
    ensures Execute(c, blocks, cmd).client.owed == c.owed
  {
  }

  /** An attempt keeps the account: what the client has sent is what has been executed and what is left over. */
  lemma ServeAccounted<T>(c: Client<T>, blocks: seq<seq<T>>, sent: seq<octet>, fair: bool)
    requires Accounted(c, sent, fair)
    ensures Accounted(Serve(c, blocks).client, sent, fair)
  {
    hide Input, Output, Faulted, Settled, RightAnswer, FreshCommands, Execute;
    if c.owed == None {
      if c.due.Some? {
        if 0 < c.due.value <= |c.buf| {
          var d := Discard(c.buf[..c.due.value]);
          var cmds := Consumed(c.buf, false, c.due);
          assert cmds[0] == d && cmds[1..] == FreshCommands(c.buf[c.due.value..]);
          ExecuteAccounted(c, blocks, d, sent, fair);
          var s := Execute(c, blocks, d);
          DiscardLeaves(c, blocks, d);
          FreshAccounted(s.client, s.blocks, sent, fair);
        }
      } else {
        FreshAccounted(c, blocks, sent, fair);
      }
    }
  }

  lemma DiscardLeaves<T>(c: Client<T>, blocks: seq<seq<T>>, cmd: Cmd)
    requires cmd.Discard?
    ensures Execute(c, blocks, cmd).client.owed == c.owed && Execute(c, blocks, cmd).client.due == None
  {
  }

  lemma {:induction false} ExecuteAllConserves<T>(c: Client<T>, blocks: seq<seq<T>>, cmds: seq<Cmd>)
    ensures var s := ExecuteAll(c, blocks, cmds);
      && multiset(Flat(blocks)) + multiset(Given(c.out)) == multiset(Flat(s.blocks)) + multiset(Given(s.client.out))
      && Size(s.blocks) <= Size(blocks)
    decreases |cmds|
  {
    hide Execute, Given, Flat;
    if cmds != [] {
      var s := Execute(c, blocks, cmds[0]);
      ExecuteConserves(c, blocks, cmds[0]);
      ExecuteAllConserves(s.client, s.blocks, cmds[1..]);
    }
  }

  /** An incomplete command leaves the client as it is. */
  lemma IncompleteWaits<T>(c: Client<T>, blocks: seq<seq<T>>)
    ensures Consumed(c.buf, c.owed.Some?, c.due) == [] ==> Serve(c, blocks) == Served(c, blocks)
  {
  }

  /** The payload of ADDENTROPY is done with as soon as it is all there, except that an empty one never is. */
  lemma DiscardEnds<T>(c: Client<T>, blocks: seq<seq<T>>)
    requires c.owed == None && c.due.Some?
    ensures Serve(c, blocks) != Served(c, blocks) <==> 0 < c.due.value <= |c.buf|
  {
    hide FreshCommands, Execute;
    var cmds := Consumed(c.buf, false, c.due);
    if 0 < c.due.value <= |c.buf| {
      HistoryGrows(c, blocks, cmds);
    }
  }

  lemma {:induction false} HistoryGrows<T>(c: Client<T>, blocks: seq<seq<T>>, cmds: seq<Cmd>)
    ensures |ExecuteAll(c, blocks, cmds).client.history| == |c.history| + |cmds|
    decreases |cmds|
  {
    hide Execute;
    if cmds != [] {
      ExecuteGrows(c, blocks, cmds[0]);
      var s := Execute(c, blocks, cmds[0]);
      HistoryGrows(s.client, s.blocks, cmds[1..]);
    }
  }

  lemma ExecuteGrows<T>(c: Client<T>, blocks: seq<seq<T>>, cmd: Cmd)
    ensures |Execute(c, blocks, cmd).client.history| == |c.history| + 1
  {
    hide Take, Packed;
  }

  /** What remains of a client's debt is written in one piece. */
  lemma RefillAccounted<T>(c: Client<T>, got: seq<T>, sent: seq<octet>, fair: bool)
    requires Accounted(c, sent, fair) && c.owed.Some? && |got| <= c.owed.value && (fair ==> |got| == c.owed.value)
    ensures Accounted(Refill(c, got), sent, fair)
  {
    hide Input, Output, Faulted, Settled, Packed;
    var h := c.history;
    var x := h[|h| - 1];
    var y := x.(answer := x.answer + Gifts(got));
    HistorySnoc(h[..|h| - 1], x);
    HistorySnoc(h[..|h| - 1], y);
    assert h == h[..|h| - 1] + [x];
    assert Output(h[..|h| - 1]) + (x.answer + Gifts(got)) == (Output(h[..|h| - 1]) + x.answer) + Gifts(got);
  }

  lemma ReceiveAccounted<T>(c: Client<T>, b: octet, sent: seq<octet>, fair: bool)
    requires Accounted(c, sent, fair)
    ensures Accounted(c.(buf := c.buf + [b]), sent + [b], fair)
  {
    assert (Input(c.history) + c.buf) + [b] == Input(c.history) + (c.buf + [b]);
  }
}
