// Whether complete commands are left lying in a client's read buffer.

module EgdCommands {
  import opened Bytes
  import opened EgdPool
  import opened EgdClient
  import opened EgdWorld
  import opened EgdRuns

  /** Nothing complete lies in the buffer, and no entropy is owed. */
  predicate Idle<T>(c: Client<T>) {
    c.owed == None && Consumed(c.buf, false, c.due) == []
  }

  /** Everything the client has sent has been executed, as far as it is complete. */
  predicate Caught<T>(c: Client<T>) {
    if c.owed.Some? then c.buf == [] && c.due == None else Idle(c)
  }

  // ----- what commands do to the buffer -----

  /** What is left of a buffer behind some commands. */
  function Rest(buf: seq<octet>, cmds: seq<Cmd>): seq<octet>
    decreases |cmds|
  {
    if cmds == [] then buf else Rest(Drop(buf, |Encode(cmds[0])|), cmds[1..])
  }

  /** The payload that is due after some commands. */
  function DueAfter(due: Option<nat>, cmds: seq<Cmd>): Option<nat>
    decreases |cmds|
  {
    if cmds == [] then due
    else
      var next := if cmds[0].AddHeader? then Some(cmds[0].n) else if cmds[0].Discard? then None else due;
      DueAfter(next, cmds[1..])
  }

  lemma ExecuteLeaves<T>(c: Client<T>, blocks: seq<seq<T>>, cmd: Cmd)
    ensures var d := Execute(c, blocks, cmd).client;
      && d.buf == Drop(c.buf, |Encode(cmd)|)
      && d.due == (if cmd.AddHeader? then Some(cmd.n) else if cmd.Discard? then None else c.due)
      && (c.owed == None && d.owed.Some? ==> cmd.BlockRead?)
  {
    hide Take, Packed, Octets, Gifts, Encode;
  }

  lemma {:induction false} ExecuteAllLeaves<T>(c: Client<T>, blocks: seq<seq<T>>, cmds: seq<Cmd>)
    ensures var d := ExecuteAll(c, blocks, cmds).client;
      d.buf == Rest(c.buf, cmds) && d.due == DueAfter(c.due, cmds)
    decreases |cmds|
  {
    hide Execute, Encode, Drop;
    if cmds != [] {
      var s := Execute(c, blocks, cmds[0]);
      ExecuteLeaves(c, blocks, cmds[0]);
      ExecuteAllLeaves(s.client, s.blocks, cmds[1..]);
    }
  }

  /**
    * Where commands are left lying: a client that a spread-write unblocks gets one attempt. After it, unless it is
    * blocked again, nothing complete is left if and only if nothing complete stood behind its first command.
    */
  lemma UnblockedIff<T>(c: Client<T>, got: seq<T>, blocks: seq<seq<T>>)
    requires c.owed.Some? && c.due == None
    ensures var first, d := FreshCommands(c.buf), Serve(Refill(c, got), blocks).client;
      d.owed == None ==> (Idle(d) <==> Consumed(Rest(c.buf, first), false, DueAfter(None, first)) == [])
  {
    hide FreshCommands, ExecuteAll, Rest, DueAfter;
    ExecuteAllLeaves(Refill(c, got), blocks, FreshCommands(c.buf));
  }

  // ----- one byte at a time -----

  lemma EmptyIdle(due: Option<nat>)
    ensures Consumed([], false, due) == []
  {
  }

  lemma ByteCompletes(buf: seq<octet>, b: octet, due: Option<nat>)
    requires Consumed(buf, false, due) == []
    ensures var cmds := Consumed(buf + [b], false, due);
      && |cmds| <= 1 && (|cmds| == 1 ==> |Encode(cmds[0])| == |buf| + 1 && (cmds[0].Discard? <==> due.Some?))
  {
    var more := buf + [b];
    if due.Some? && 0 < due.value == |more| {
      assert more[due.value..] == [];
    }
  }

  /** One more byte completes at most one command, and nothing is left of it. */
  lemma ByteServed<T>(c: Client<T>, b: octet, blocks: seq<seq<T>>)
    requires Idle(c)
    ensures Caught(Serve(c.(buf := c.buf + [b]), blocks).client)
  {
    hide Execute, Encode, Consumed;
    var c1 := c.(buf := c.buf + [b]);
    var cmds := Consumed(c1.buf, false, c1.due);
    var d := Serve(c1, blocks).client;
    ByteCompletes(c.buf, b, c.due);
    IncompleteWaits(c1, blocks);
    EmptyIdle(d.due);
    if cmds != [] {
      assert cmds == [cmds[0]];
      ExecuteOne(c1, blocks, cmds[0]);
      ExecuteLeaves(c1, blocks, cmds[0]);
    }
  }

  // ----- runs -----

  /** The client sends nothing while it is waiting for entropy. */
  predicate Patient<T>(events: seq<Event<T>>, i: nat) {
    events == [] ||
    (var front, e := events[..|events| - 1], events[|events| - 1];
    Patient(front, i) &&
    (e.Receive? && e.sock == i && i < |After(front).clients| ==> After(front).clients[i].owed == None))
  }

  lemma {:induction false} FeedLeaves<T>(w: World<T>, order: seq<nat>, i: nat)
    requires i < |w.clients|
    ensures i < |FeedEach(w, order).clients|
    ensures var c, d := w.clients[i], FeedEach(w, order).clients[i];
      d.buf == c.buf && d.due == c.due && (d.owed == c.owed || d.owed == None)
  {
    hide Take;
    if order != [] {
      FeedLeaves(w, order[..|order| - 1], i);
    }
  }

  lemma {:induction false} FeedSkips<T>(w: World<T>, order: seq<nat>, i: nat)
    requires i < |w.clients| && w.clients[i].owed == None
    ensures i < |FeedEach(w, order).clients| && FeedEach(w, order).clients[i] == w.clients[i]
  {
    hide Take, Refill;
    if order != [] {
      FeedSkips(w, order[..|order| - 1], i);
    }
  }

  lemma {:induction false} TrySkips<T>(w: World<T>, order: seq<nat>, i: nat)
    requires i < |w.clients| && Consumed(w.clients[i].buf, w.clients[i].owed.Some?, w.clients[i].due) == []
    ensures i < |TryEach(w, order).clients| && TryEach(w, order).clients[i] == w.clients[i]
  {
    hide Serve, Consumed;
    if order != [] {
      var v := TryEach(w, order[..|order| - 1]);
      TrySkips(w, order[..|order| - 1], i);
      IncompleteWaits(v.clients[i], v.blocks);
    }
  }

  lemma BlockedConsumes(buf: seq<octet>, due: Option<nat>)
    ensures Consumed(buf, true, due) == []
  {
  }

  lemma StepCaught<T>(w: World<T>, e: Event<T>, i: nat)
    requires Enabled(w, e) && i < |w.clients| && Caught(w.clients[i])
    requires e.Receive? && e.sock == i ==> w.clients[i].owed == None
    ensures i < |Step(w, e).clients| && Caught(Step(w, e).clients[i])
  {
    hide Serve, Walks, FeedEach, TryEach, Size, Pending, Consumed;
    match e
    case Connect =>
    case Receive(sock, b) =>
      if sock == i {
        ByteServed(w.clients[i], b, w.blocks);
      }
    case Arrival(bytes, order, again) =>
      var v := Accept(w, bytes);
      FeedLeaves(v, order, i);
      var f := FeedEach(v, order);
      EmptyIdle(w.clients[i].due);
      BlockedConsumes([], None);
      if w.clients[i].owed == None {
        FeedSkips(v, order, i);
      }
      TrySkips(f, again, i);
  }

  lemma NewClient<T>(w: World<T>, e: Event<T>, i: nat)
    requires Enabled(w, e) && |w.clients| <= i < |Step(w, e).clients|
    ensures Caught(Step(w, e).clients[i])
  {
    hide Serve, Walks, FeedEach, TryEach, Size, Pending;
    if e.Arrival? {
      var v := Accept(w, e.bytes);
      FeedOthers(v, e.order);
      TryEachClients(FeedEach(v, e.order), e.again);
    }
  }

  /**
    * A client that sends nothing while it waits for entropy never has a complete command lying in its read buffer: all
    * it has sent is executed with the byte that completes it. The payload of an empty ADDENTROPY counts as incomplete.
    */
  lemma {:induction false} PatientClientServed<T>(events: seq<Event<T>>, i: nat)
    requires IsRun(events) && Patient(events, i) && i < |After(events).clients|
    ensures Caught(After(events).clients[i])
  {
    hide Enabled, Step, Caught;
    if events != [] {
      var front, e := events[..|events| - 1], events[|events| - 1];
      var w := After(front);
      if i < |w.clients| {
        PatientClientServed(front, i);
        StepCaught(w, e, i);
      } else {
        NewClient(w, e, i);
      }
    }
  }

  // ----- clients that never ask for a blocking read -----

  predicate NeverBlocked<T>(h: seq<Exchange<T>>) {
    h == [] || (!h[|h| - 1].cmd.BlockRead? && NeverBlocked(h[..|h| - 1]))
  }

  lemma {:induction false} HistoryPrefix<T>(c: Client<T>, blocks: seq<seq<T>>, cmds: seq<Cmd>)
    ensures NeverBlocked(ExecuteAll(c, blocks, cmds).client.history) ==> NeverBlocked(c.history)
    decreases |cmds|
  {
    hide Take, Packed, Gifts, Octets, Encode;
    if cmds != [] {
      var s := Execute(c, blocks, cmds[0]);
      HistoryPrefix(s.client, s.blocks, cmds[1..]);
      assert s.client.history[..|s.client.history| - 1] == c.history;
    }
  }

  lemma RefillRemembers<T>(c: Client<T>, got: seq<T>)
    ensures NeverBlocked(Refill(c, got).history) <==> NeverBlocked(c.history)
  {
    var h := c.history;
    if h != [] {
      var g := Extended(h, Gifts(got));
      assert g[..|g| - 1] == h[..|h| - 1] && g[|g| - 1].cmd == h[|h| - 1].cmd;
    }
  }

  lemma ServeRemembers<T>(c: Client<T>, blocks: seq<seq<T>>)
    ensures NeverBlocked(Serve(c, blocks).client.history) ==> NeverBlocked(c.history)
  {
    hide NeverBlocked, ExecuteAll, Consumed;
    HistoryPrefix(c, blocks, Consumed(c.buf, c.owed.Some?, c.due));
  }

  lemma {:induction false} FeedRemembers<T>(w: World<T>, order: seq<nat>, i: nat)
    requires i < |w.clients| && i < |FeedEach(w, order).clients|
    ensures NeverBlocked(FeedEach(w, order).clients[i].history) ==> NeverBlocked(w.clients[i].history)
  {
    hide NeverBlocked, Take, Refill;
    if order != [] {
      var front, last := order[..|order| - 1], order[|order| - 1];
      FeedOthers(w, front);
      FeedRemembers(w, front, i);
      var f := FeedEach(w, front);
      if i == last {
        RefillRemembers(f.clients[i], Take(f.blocks, Owed(f.clients[i])).taken);
      }
    }
  }

  lemma {:induction false} TryRemembers<T>(w: World<T>, order: seq<nat>, i: nat)
    requires i < |w.clients| && i < |TryEach(w, order).clients|
    ensures NeverBlocked(TryEach(w, order).clients[i].history) ==> NeverBlocked(w.clients[i].history)
  {
    hide NeverBlocked, Serve;
    if order != [] {
      var front, last := order[..|order| - 1], order[|order| - 1];
      TryEachClients(w, front);
      TryRemembers(w, front, i);
      var f := TryEach(w, front);
      if i == last {
        ServeRemembers(f.clients[i], f.blocks);
      }
    }
  }

  lemma StepRemembers<T>(w: World<T>, e: Event<T>, i: nat)
    requires Enabled(w, e) && i < |w.clients| && i < |Step(w, e).clients|
    ensures NeverBlocked(Step(w, e).clients[i].history) ==> NeverBlocked(w.clients[i].history)
  {
    hide Serve, Walks, FeedEach, TryEach, Size, Pending, NeverBlocked;
    match e
    case Connect =>
    case Receive(sock, b) =>
      if sock == i {
        ServeRemembers(Append(w, sock, b).clients[i], w.blocks);
      }
    case Arrival(bytes, order, again) =>
      var v := Accept(w, bytes);
      FeedOthers(v, order);
      FeedRemembers(v, order, i);
      if !Starved(v, order) {
        TryRemembers(FeedEach(v, order), again, i);
      }
  }

  lemma NotOwed<T>(c: Client<T>, sent: seq<octet>, fair: bool)
    requires Accounted(c, sent, fair) && NeverBlocked(c.history)
    ensures c.owed == None
  {
    hide Input, Output, Faulted, Settled, RightAnswer, Follows;
  }

  lemma {:induction false} NeverBlockedIsPatient<T>(events: seq<Event<T>>, i: nat)
    requires IsRun(events) && (i < |After(events).clients| ==> NeverBlocked(After(events).clients[i].history))
    ensures Patient(events, i)
    ensures i < |After(events).clients| ==> After(events).clients[i].owed == None
  {
    hide Enabled, Step, NeverBlocked, Accounted, Sent, Fair;
    EveryClientAccounted(events);
    if i < |After(events).clients| {
      NotOwed(After(events).clients[i], Sent(events, i), Fair(events));
    }
    if events != [] {
      var front, e := events[..|events| - 1], events[|events| - 1];
      if i < |After(front).clients| {
        ClientStays(After(front), e, i);
        StepRemembers(After(front), e, i);
      }
      NeverBlockedIsPatient(front, i);
    }
  }

  lemma ClientStays<T>(w: World<T>, e: Event<T>, i: nat)
    requires Enabled(w, e) && i < |w.clients|
    ensures i < |Step(w, e).clients|
  {
    hide Serve, Walks, FeedEach, TryEach, Size, Pending;
    if e.Arrival? {
      var v := Accept(w, e.bytes);
      FeedOthers(v, e.order);
      TryEachClients(FeedEach(v, e.order), e.again);
    }
  }

  /** In particular a client that has never asked for a blocking read. */
  lemma EveryCommandServed<T>(events: seq<Event<T>>, i: nat)
    requires IsRun(events) && i < |After(events).clients| && NeverBlocked(After(events).clients[i].history)
    ensures Idle(After(events).clients[i])
  {
    hide After, IsRun, NeverBlocked, Patient;
    NeverBlockedIsPatient(events, i);
    PatientClientServed(events, i);
  }
}
