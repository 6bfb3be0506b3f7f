// The EGD functions of host/control.lua in their own form: tables indexed by socket that the functions update, and one
// shared pool. Every function is proved to do what the model of EgdWorld says.

module EgdServer {
  import opened Bytes
  import opened EgdPool
  import opened EgdClient
  import opened EgdWorld

  function Find<V>(table: map<nat, V>, key: nat): Option<V> {
    if key in table then Some(table[key]) else None
  }

  function FindOr<V>(table: map<nat, V>, key: nat, default: V): V {
    if key in table then table[key] else default
  }

  ghost predicate Below(keys: set<nat>, n: nat) {
    forall k :: k in keys ==> k < n
  }

  /** Every command byte of a fresh buffer decides what is consumed. */
  lemma ExecuteFirst<T>(c: Client<T>, blocks: seq<seq<T>>, cmd: Cmd, rest: seq<Cmd>)
    ensures ExecuteAll(c, blocks, [cmd] + rest)
      == ExecuteAll(Execute(c, blocks, cmd).client, Execute(c, blocks, cmd).blocks, rest)
  {
    hide Execute;
    assert ([cmd] + rest)[1..] == rest;
  }

  lemma ExecuteOnly<T>(c: Client<T>, blocks: seq<seq<T>>, cmd: Cmd)
    ensures ExecuteAll(c, blocks, [cmd]) == Execute(c, blocks, cmd)
  {
    hide Execute;
    ExecuteFirst(c, blocks, cmd, []);
    assert [cmd] + [] == [cmd];
  }

  class Server<T> {
    const pool: Pool<T>
    /** The number of connections accepted so far; a socket is known by its number. */
    var connected: nat
    var readBuffers: map<nat, seq<octet>>
    var writeBlocked: map<nat, nat>
    var readBlocked: map<nat, nat>
    var writeBuffers: map<nat, seq<Out<T>>>
    var toKill: set<nat>
    ghost var histories: map<nat, seq<Exchange<T>>>

    ghost function View(sock: nat): Client<T>
      reads this
    {
      Client(
        FindOr(readBuffers, sock, []), Find(writeBlocked, sock), Find(readBlocked, sock), sock in toKill,
        FindOr(writeBuffers, sock, []), FindOr(histories, sock, []))
    }

    ghost function Abs(): World<T>
      reads this, pool
    {
      World(pool.blocks, seq(connected, i requires 0 <= i reads this => View(i)))
    }

    ghost predicate Valid()
      reads this, pool
    {
      && pool.Valid()
      && Below(readBuffers.Keys, connected) && Below(writeBlocked.Keys, connected) && Below(readBlocked.Keys, connected)
      && Below(writeBuffers.Keys, connected) && Below(toKill, connected) && Below(histories.Keys, connected)
    }

    constructor ()
      ensures Valid() && fresh(pool) && Abs() == World([], [])
    {
      var p := new Pool<T>();
      pool := p;
      connected, readBuffers, writeBlocked, readBlocked, writeBuffers := 0, map[], map[], map[], map[];
      toKill, histories := {}, map[];
    }

    /** The accepting half of `egd_ctlread`. */
    method Connect() returns (client: nat)
      requires Valid()
      modifies this
      ensures Valid() && client == old(connected)
      ensures Abs() == Step(old(Abs()), Event.Connect)
    {
      client := connected;
      connected := connected + 1;
      readBuffers := readBuffers[client := []];
      assert View(client) == EgdClient.Fresh();
      assert forall s :: 0 <= s < client ==> View(s) == old(View(s));
    }

    // ----- input -----

    /** `egd_getbytes`: nothing is taken unless all of it is there. No value at all is returned for `nr == 0` either. */
    method GetBytes(sock: nat, nr: nat) returns (t: seq<octet>)
      requires Valid() && sock < connected
      modifies this`readBuffers
      ensures Valid()
      ensures var buf := old(View(sock)).buf;
        && t == (if nr <= |buf| then buf[..nr] else [])
        && View(sock) == old(View(sock)).(buf := if nr <= |buf| then buf[nr..] else buf)
      ensures forall s :: s != sock ==> View(s) == old(View(s))
    {
      var r := FindOr(readBuffers, sock, []);
      t := [];
      if |r| < nr {
        return;
      }
      var i := 0;
      while i < nr
        invariant 0 <= i <= nr && t == r[..i]
      {
        t := t + [r[i]];
        i := i + 1;
      }
      readBuffers := readBuffers[sock := r[nr..]];
    }

    /** `egd_pushbackread`. */
    method PushBack(sock: nat, b: octet)
      requires Valid() && sock < connected
      modifies this`readBuffers
      ensures Valid()
      ensures View(sock) == old(View(sock)).(buf := [b] + old(View(sock)).buf)
      ensures forall s :: s != sock ==> View(s) == old(View(s))
    {
      readBuffers := readBuffers[sock := [b] + FindOr(readBuffers, sock, [])];
    }

    // ----- output -----

    /** `ctlwrite` of an answer to `cmd`. */
    method Reply(sock: nat, str: seq<Out<T>>, ghost cmd: Cmd, ghost held: nat)
      requires Valid() && sock < connected
      modifies this`writeBuffers, this`histories
      ensures Valid()
      ensures View(sock) == old(View(sock)).(
        out := old(View(sock)).out + str, history := old(View(sock)).history + [Exchange(cmd, held, str)])
      ensures forall s :: s != sock ==> View(s) == old(View(s))
    {
      histories := histories[sock := FindOr(histories, sock, []) + [Exchange(cmd, held, str)]];
      if |str| > 0 {
        writeBuffers := writeBuffers[sock := FindOr(writeBuffers, sock, []) + str];
      }
    }

    // ----- blocking -----

    method BlockWriting(sock: nat, amount: nat)
      requires Valid() && sock < connected
      modifies this`writeBlocked
      ensures Valid() && View(sock) == old(View(sock)).(owed := Some(amount))
      ensures forall s :: s != sock ==> View(s) == old(View(s))
    {
      writeBlocked := writeBlocked[sock := amount];
    }

    method BlockReading(sock: nat, amount: nat)
      requires Valid() && sock < connected
      modifies this`readBlocked
      ensures Valid() && View(sock) == old(View(sock)).(due := Some(amount))
      ensures forall s :: s != sock ==> View(s) == old(View(s))
    {
      readBlocked := readBlocked[sock := amount];
    }

    method Unblock(sock: nat)
      requires Valid() && sock < connected
      modifies this`readBlocked
      ensures Valid() && View(sock) == old(View(sock)).(due := None)
      ensures forall s :: s != sock ==> View(s) == old(View(s))
    {
      readBlocked := readBlocked - {sock};
    }

    method Doom(sock: nat)
      requires Valid() && sock < connected
      modifies this`toKill
      ensures Valid() && View(sock) == old(View(sock)).(doomed := true)
      ensures forall s :: s != sock ==> View(s) == old(View(s))
    {
      toKill := toKill + {sock};
    }

    // ----- commands -----

    method QueryPool(sock: nat, ghost c: Client<T>)
      requires Valid() && sock < connected && c == View(sock).(buf := [0] + View(sock).buf)
      modifies this`writeBuffers, this`histories
      ensures Valid() && Served(View(sock), pool.blocks) == ExecuteAll(c, pool.blocks, FreshCommands(c.buf))
      ensures forall s :: s != sock ==> View(s) == old(View(s))
    {
      hide Packed, Flat, ExecuteAll;
      var size := Pack32(pool.total * 8);
      Reply(sock, Octets(size), Cmd.QueryPool, pool.total);
      assert FreshCommands(c.buf) == [Cmd.QueryPool];
      assert Drop(c.buf, 1) == old(View(sock)).buf;
      ExecuteOnly(c, pool.blocks, Cmd.QueryPool);
    }

    method ReadBytes(sock: nat, ghost c: Client<T>)
      requires Valid() && sock < connected && c == View(sock).(buf := [1] + View(sock).buf)
      modifies this`readBuffers, this`writeBuffers, this`histories, pool
      ensures Valid() && Served(View(sock), pool.blocks) == ExecuteAll(c, old(pool.blocks), FreshCommands(c.buf))
      ensures forall s :: s != sock ==> View(s) == old(View(s))
    {
      hide Flat, Take, Conserved, ExecuteAll;
      ghost var held := pool.total;
      var nbytes := GetBytes(sock, 1);
      if nbytes == [] {
        PushBack(sock, 1);
        assert FreshCommands(c.buf) == [];
        ExecuteNone(c, pool.blocks);
        return;
      }
      assert FreshCommands(c.buf) == [Cmd.ReadBytes(nbytes[0])];
      assert Drop(c.buf, 2) == View(sock).buf;
      var ent := pool.Dequeue(nbytes[0]);
      TakenSize(old(pool.blocks), nbytes[0]);
      Reply(sock, [Octet(|ent|)] + Gifts(ent), Cmd.ReadBytes(nbytes[0]), held);
      ExecuteOnly(c, old(pool.blocks), Cmd.ReadBytes(nbytes[0]));
    }

    method BlockRead(sock: nat, ghost c: Client<T>)
      requires Valid() && sock < connected && c == View(sock).(buf := [2] + View(sock).buf) && c.owed == None
      modifies this`readBuffers, this`writeBuffers, this`histories, this`writeBlocked, pool
      ensures Valid() && Served(View(sock), pool.blocks) == ExecuteAll(c, old(pool.blocks), FreshCommands(c.buf))
      ensures forall s :: s != sock ==> View(s) == old(View(s))
    {
      hide Flat, Take, Conserved, ExecuteAll;
      ghost var held := pool.total;
      var nbytes := GetBytes(sock, 1);
      if nbytes == [] {
        PushBack(sock, 2);
        assert FreshCommands(c.buf) == [];
        ExecuteNone(c, pool.blocks);
        return;
      }
      assert FreshCommands(c.buf) == [Cmd.BlockRead(nbytes[0])];
      assert Drop(c.buf, 2) == View(sock).buf;
      var ent := pool.Dequeue(nbytes[0]);
      Reply(sock, Gifts(ent), Cmd.BlockRead(nbytes[0]), held);
      if |ent| < nbytes[0] {
        BlockWriting(sock, nbytes[0] - |ent|);
      }
      ExecuteOnly(c, old(pool.blocks), Cmd.BlockRead(nbytes[0]));
    }

    method AddEntropy(sock: nat, ghost c: Client<T>)
      requires Valid() && sock < connected && c == View(sock).(buf := [3] + View(sock).buf) && c.due == None
      modifies this`readBuffers, this`writeBuffers, this`histories, this`readBlocked
      ensures Valid() && Served(View(sock), pool.blocks) == ExecuteAll(c, pool.blocks, FreshCommands(c.buf))
      ensures forall s :: s != sock ==> View(s) == old(View(s))
    {
      hide Flat, ExecuteAll, View, Valid, FreshCommands, Execute;
      var header := GetBytes(sock, 3);
      if header == [] {
        PushBack(sock, 3);
        AddConsumes(c.buf);
        ExecuteNone(c, pool.blocks);
        return;
      }
      var nbytes := header[2];
      ghost var head := AddHeader(header[0], header[1], nbytes);
      AddConsumes(c.buf);
      AddExecutes(c, pool.blocks, head);
      Held();
      Reply(sock, [], head, pool.total);
      assert View(sock).(due := Some(nbytes)) == Execute(c, pool.blocks, head).client;
      var payload := GetBytes(sock, nbytes);
      if payload == [] {
        BlockReading(sock, nbytes);
        ExecuteOnly(c, pool.blocks, head);
      } else {
        Held();
        DiscardExecutes(Execute(c, pool.blocks, head).client, pool.blocks, Discard(payload));
        Reply(sock, [], Discard(payload), pool.total);
        ExecuteFirst(c, pool.blocks, head, [Discard(payload)]);
        ExecuteOnly(Execute(c, pool.blocks, head).client, pool.blocks, Discard(payload));
      }
    }

    method GetPid(sock: nat, ghost c: Client<T>)
      requires Valid() && sock < connected && c == View(sock).(buf := [4] + View(sock).buf)
      modifies this`writeBuffers, this`histories
      ensures Valid() && Served(View(sock), pool.blocks) == ExecuteAll(c, pool.blocks, FreshCommands(c.buf))
      ensures forall s :: s != sock ==> View(s) == old(View(s))
    {
      hide Flat, ExecuteAll;
      Reply(sock, Octets([2, 45, 49]), Cmd.GetPid, pool.total);
      assert FreshCommands(c.buf) == [Cmd.GetPid];
      assert Drop(c.buf, 1) == old(View(sock)).buf;
      ExecuteOnly(c, pool.blocks, Cmd.GetPid);
    }

    method UnknownCommand(sock: nat, cmd: octet, ghost c: Client<T>)
      requires Valid() && sock < connected && c == View(sock).(buf := [cmd] + View(sock).buf) && cmd > 4
      modifies this`writeBuffers, this`histories, this`toKill
      ensures Valid() && Served(View(sock), pool.blocks) == ExecuteAll(c, pool.blocks, FreshCommands(c.buf))
      ensures forall s :: s != sock ==> View(s) == old(View(s))
    {
      hide Flat, ExecuteAll;
      Reply(sock, [], Unknown(cmd), pool.total);
      Doom(sock);
      assert FreshCommands(c.buf) == [Unknown(cmd)];
      assert Drop(c.buf, 1) == old(View(sock)).buf;
      ExecuteOnly(c, pool.blocks, Unknown(cmd));
    }

    /** The second half of `egd_try_cmd`: a client that is not blocked, and one command, if it is all there. */
    method Command(sock: nat)
      requires Valid() && sock < connected && View(sock).owed == None && View(sock).due == None
      modifies this`readBuffers, this`writeBuffers, this`histories,
        this`writeBlocked, this`readBlocked, this`toKill, pool
      ensures Valid()
      ensures Served(View(sock), pool.blocks)
        == ExecuteAll(old(View(sock)), old(pool.blocks), FreshCommands(old(View(sock)).buf))
      ensures forall s :: s != sock ==> View(s) == old(View(s))
    {
      hide Flat, ExecuteAll, View, Valid, FreshCommands;
      ghost var c := View(sock);
      var first := GetBytes(sock, 1);
      if first == [] {
        NoCommand();
        ExecuteNone(c, pool.blocks);
        return;
      }
      var cmd := first[0];
      assert c.buf == [cmd] + c.buf[1..];
      if cmd == 0 {
        QueryPool(sock, c);
      } else if cmd == 1 {
        ReadBytes(sock, c);
      } else if cmd == 2 {
        BlockRead(sock, c);
      } else if cmd == 3 {
        AddEntropy(sock, c);
      } else if cmd == 4 {
        GetPid(sock, c);
      } else {
        UnknownCommand(sock, cmd, c);
      }
    }

    /** `egd_try_cmd`. */
    method TryCmd(sock: nat)
      requires Valid() && sock < connected
      modifies this`readBuffers, this`writeBuffers, this`histories,
        this`writeBlocked, this`readBlocked, this`toKill, pool
      ensures Valid() && Abs() == TryOne(old(Abs()), sock)
    {
      TryView(sock);
      assert Abs().clients == old(Abs()).clients[sock := View(sock)] by {
        hide Serve, View;
      }
    }

    method TryView(sock: nat)
      requires Valid() && sock < connected
      modifies this`readBuffers, this`writeBuffers, this`histories,
        this`writeBlocked, this`readBlocked, this`toKill, pool
      ensures Valid() && Served(View(sock), pool.blocks) == Serve(old(View(sock)), old(pool.blocks))
      ensures forall s :: s != sock ==> View(s) == old(View(s))
    {
      hide Flat, ExecuteAll, Valid, FreshCommands, View, Execute;
      ghost var c := View(sock);
      Tables(sock);
      ExecuteNone(c, pool.blocks);
      if sock in writeBlocked {
        return;
      }
      if sock in readBlocked {
        var payload := GetBytes(sock, readBlocked[sock]);
        if payload == [] {
          return;
        }
        Unblock(sock);
        ghost var d := Discard(payload);
        Held();
        Reply(sock, [], d, pool.total);
        DiscardExecutes(c, pool.blocks, d);
        ExecuteFirst(c, pool.blocks, d, FreshCommands(View(sock).buf));
      }
      Command(sock);
    }

    // ----- events -----

    /** The reading half of `egd_ctlread`: one command is tried after every byte. */
    method Receive(sock: nat, bytes: seq<octet>)
      requires Valid() && sock < connected
      modifies this`readBuffers, this`writeBuffers, this`histories,
        this`writeBlocked, this`readBlocked, this`toKill, pool
      ensures Valid() && Abs() == ReceiveAll(old(Abs()), sock, bytes)
    {
      hide TryOne, Append, Valid, Abs;
      var i := 0;
      assert bytes[..|bytes|] == bytes;
      while i < |bytes|
        invariant 0 <= i <= |bytes| && Valid() && Abs() == ReceiveAll(old(Abs()), sock, bytes[..i])
      {
        assert bytes[..i + 1][..i] == bytes[..i];
        AppendByte(sock, bytes[i]);
        TryCmd(sock);
        i := i + 1;
      }
    }

    method AppendByte(sock: nat, b: octet)
      requires Valid() && sock < connected
      modifies this`readBuffers
      ensures Valid() && Abs() == Append(old(Abs()), sock, b)
    {
      readBuffers := readBuffers[sock := FindOr(readBuffers, sock, []) + [b]];
      assert Abs().clients == Append(old(Abs()), sock, b).clients;
    }

    /** What the blocked clients are owed together. */
    method TotalPending() returns (tot: nat, ghost order: seq<nat>)
      requires Valid()
      ensures Walks(order, Blocked(Abs())) && tot == Pending(Abs(), order)
    {
      hide Abs, View, Valid, Pending, Distinct, Members;
      tot, order := 0, [];
      WalkNone(Abs());
      var keys := writeBlocked.Keys;
      while keys != {}
        invariant keys <= writeBlocked.Keys
        invariant Distinct(order) && Members(order) == writeBlocked.Keys - keys && tot == Pending(Abs(), order)
        decreases |keys|
      {
        var sock :| sock in keys;
        tot := tot + writeBlocked[sock];
        keys := keys - {sock};
        BlockedOwes(sock);
        WalkSnoc(Abs(), order, sock);
        order := order + [sock];
      }
      BlockedKeys();
    }

    lemma BlockedOwes(sock: nat)
      requires Valid() && sock in writeBlocked
      ensures sock < connected && Owing(Abs(), sock) == writeBlocked[sock]
      ensures sock < |Abs().clients| && Abs().clients[sock].owed == Some(writeBlocked[sock])
    {
    }

    lemma BlockedKeys()
      requires Valid()
      ensures Blocked(Abs()) == writeBlocked.Keys && Below(writeBlocked.Keys, connected)
    {
    }

    /** One turn of the second loop of `egd_spreadwrite`. */
    method FeedOne(sock: nat) returns (unblocked: bool)
      requires Valid() && sock in writeBlocked
      modifies this`writeBuffers, this`histories, this`writeBlocked, pool
      ensures Valid() && Abs() == Feed(old(Abs()), sock)
      ensures writeBlocked == if unblocked then old(writeBlocked) - {sock} else old(writeBlocked)
    {
      hide Flat, Take, Conserved, View, Refill;
      BlockedOwes(sock);
      var amount := writeBlocked[sock];
      var got := pool.Dequeue(amount);
      unblocked := |got| > 0;
      if unblocked {
        Pay(sock, got);
      }
      assert Abs().clients == Feed(old(Abs()), sock).clients;
    }

    method Pay(sock: nat, got: seq<T>)
      requires Valid() && sock < connected
      modifies this`writeBuffers, this`histories, this`writeBlocked
      ensures Valid() && View(sock) == Refill(old(View(sock)), got) && writeBlocked == old(writeBlocked) - {sock}
      ensures forall s :: s != sock ==> View(s) == old(View(s))
    {
      writeBuffers := writeBuffers[sock := FindOr(writeBuffers, sock, []) + Gifts(got)];
      histories := histories[sock := Extended(FindOr(histories, sock, []), Gifts(got))];
      writeBlocked := writeBlocked - {sock};
    }

    /** The second loop of `egd_spreadwrite`. */
    method FeedAll() returns (toTry: set<nat>, ghost order: seq<nat>)
      requires Valid()
      modifies this`writeBuffers, this`histories, this`writeBlocked, pool
      ensures Valid() && Walks(order, Blocked(old(Abs()))) && Abs() == FeedEach(old(Abs()), order)
      ensures toTry == Blocked(old(Abs())) - Blocked(Abs()) && Below(toTry, connected)
    {
      hide Abs, View, Valid, Pending, Flat, Distinct, Members, FeedEach, Feed, TryEach;
      ghost var w := Abs();
      BlockedKeys();
      WalkNone(w);
      toTry, order := {}, [];
      ghost var all := writeBlocked.Keys;
      var keys := writeBlocked.Keys;
      while keys != {}
        invariant Valid() && keys <= writeBlocked.Keys <= all
        invariant Distinct(order) && Members(order) == all - keys && Abs() == FeedEach(w, order)
        invariant toTry == all - writeBlocked.Keys
        decreases |keys|
      {
        var sock :| sock in keys;
        OneLess(all, keys, Members(order), sock);
        OneLess(all, writeBlocked.Keys, toTry, sock);
        keys := keys - {sock};
        WalkSnoc(w, order, sock);
        order := order + [sock];
        var unblocked := FeedOne(sock);
        if unblocked {
          toTry := toTry + {sock};
        }
      }
      BlockedKeys();
    }

    /** The third loop of `egd_spreadwrite`. */
    method TryAll(toTry: set<nat>) returns (ghost again: seq<nat>)
      requires Valid() && Below(toTry, connected)
      modifies this`readBuffers, this`writeBuffers, this`histories,
        this`writeBlocked, this`readBlocked, this`toKill, pool
      ensures Valid() && Walks(again, toTry) && Abs() == TryEach(old(Abs()), again)
    {
      hide Abs, View, Valid, Pending, Flat, Distinct, Members, FeedEach, TryOne, TryEach;
      ghost var w := Abs();
      WalkNone(w);
      again := [];
      var keys := toTry;
      while keys != {}
        invariant Valid() && keys <= toTry
        invariant Distinct(again) && Members(again) == toTry - keys && Abs() == TryEach(w, again)
        decreases |keys|
      {
        var sock :| sock in keys;
        keys := keys - {sock};
        WalkSnoc(w, again, sock);
        again := again + [sock];
        TryCmd(sock);
      }
    }

    /** `ENTROPY`. */
    method Entropy(bytes: seq<T>) returns (ghost order: seq<nat>, ghost again: seq<nat>)
      requires Valid()
      modifies this`readBuffers, this`writeBuffers, this`histories,
        this`writeBlocked, this`readBlocked, this`toKill, pool
      ensures Valid() && Enabled(old(Abs()), Arrival(bytes, order, again))
      ensures Abs() == Step(old(Abs()), Arrival(bytes, order, again))
    {
      hide Flat, View, Pending, Walks, FeedEach, TryEach, Spread;
      ghost var w := Abs();
      var ok := pool.Enqueue(bytes);
      assert Abs().clients == w.clients;
      assert Abs() == Accept(w, bytes);
      assert Blocked(Abs()) == Blocked(w);
      order, again := SpreadWrite();
    }

    /** `egd_spreadwrite`, which also reports the orders in which it happened to walk the two tables. */
    method SpreadWrite() returns (ghost order: seq<nat>, ghost again: seq<nat>)
      requires Valid()
      modifies this`readBuffers, this`writeBuffers, this`histories,
        this`writeBlocked, this`readBlocked, this`toKill, pool
      ensures Valid() && Walks(order, Blocked(old(Abs())))
      ensures Starved(old(Abs()), order) || Walks(again, Blocked(old(Abs())) - Blocked(FeedEach(old(Abs()), order)))
      ensures Abs() == Spread(old(Abs()), order, again)
    {
      hide Abs, View, Valid, Pending, Flat, Distinct, Members, FeedEach, TryEach, TryOne, Feed;
      ghost var w := Abs();
      BlockedKeys();
      if writeBlocked.Keys == {} {
        WalkNone(w);
        EmptyWalk();
        return [], [];
      }
      var totPending;
      totPending, order := TotalPending();
      again := [];
      Held();
      if pool.total < totPending <= MAX_ENTROPY {
        return;
      }
      var toTry;
      ghost var first := order;
      toTry, order := FeedAll();
      PendingOrderFree(w, first, order);
      again := TryAll(toTry);
    }

    lemma Tables(sock: nat)
      ensures View(sock).owed == Find(writeBlocked, sock) && View(sock).due == Find(readBlocked, sock)
    {
    }

    lemma Held()
      requires Valid()
      ensures pool.total == Size(pool.blocks) && pool.blocks == Abs().blocks
    {
    }
  }

  function ReceiveAll<T>(w: World<T>, sock: nat, bytes: seq<octet>): World<T> {
    if bytes == [] then w
    else Step(ReceiveAll(w, sock, bytes[..|bytes| - 1]), Event.Receive(sock, bytes[|bytes| - 1]))
  }

  lemma OneLess(all: set<nat>, left: set<nat>, done: set<nat>, s: nat)
    requires left <= all && done == all - left && s in left
    ensures done + {s} == all - (left - {s}) && s !in done
  {
  }

  lemma NoCommand()
    ensures FreshCommands([]) == []
  {
  }

  lemma AddConsumes(buf: seq<octet>)
    requires buf != [] && buf[0] == 3
    ensures FreshCommands(buf) ==
      if |buf| - 1 < 3 then []
      else
        var header, rest := buf[1..][..3], buf[1..][3..];
        var head := AddHeader(header[0], header[1], header[2]);
        var payload := if header[2] <= |rest| then rest[..header[2]] else [];
        if payload == [] then [head] else [head] + [Discard(payload)]
  {
    if |buf| >= 4 {
      assert buf[1..][3..] == buf[4..];
      if buf[3] <= |buf| - 4 {
        assert buf[4..][..buf[3]] == buf[4..4 + buf[3]];
      }
    }
  }

  lemma AddExecutes<T>(c: Client<T>, blocks: seq<seq<T>>, cmd: Cmd)
    requires cmd.AddHeader? && |c.buf| >= 4
    ensures Execute(c, blocks, cmd) == Served(
      c.(
        buf := c.buf[1..][3..], due := Some(cmd.n), out := c.out + [],
        history := c.history + [Exchange(cmd, Size(blocks), [])]),
      blocks)
  {
    assert c.buf[1..][3..] == c.buf[4..];
  }

  lemma DiscardExecutes<T>(c: Client<T>, blocks: seq<seq<T>>, cmd: Cmd)
    requires cmd.Discard? && |cmd.payload| <= |c.buf|
    ensures Execute(c, blocks, cmd) == Served(
      c.(
        buf := c.buf[|cmd.payload|..], due := None, out := c.out + [],
        history := c.history + [Exchange(cmd, Size(blocks), [])]),
      blocks)
  {
  }

  lemma ExecuteNone<T>(c: Client<T>, blocks: seq<seq<T>>)
    ensures ExecuteAll(c, blocks, []) == Served(c, blocks)
  {
  }

  lemma TakenSize<T>(blocks: seq<seq<T>>, n: octet)
    ensures |Take(blocks, n).taken| < 256
  {
    TakeConserves(blocks, n);
  }
}
