// Runs at the limits of the EGD functions: one blocked client more than the pool has room for, a client that adds no
// entropy at all and is never served again, and commands that queue up behind a blocking read and are left lying.

module EgdLimits {
  import opened Bytes
  import opened EgdPool
  import opened EgdClient
  import opened EgdWorld
  import opened EgdRuns
  import opened EgdCommands

  // ----- more clients than the pool can serve -----

  function Hungry<T>(): Client<T> {
    Client([], Some(255), None, false, [], [Exchange(BlockRead(255), 0, [])])
  }

  function Crowd<T>(n: nat): (r: seq<Client<T>>)
    ensures |r| == n && forall i :: 0 <= i < n ==> r[i] == Hungry()
  {
    if n == 0 then [] else Crowd(n - 1) + [Hungry()]
  }

  /** Clients connect one after the other, and each asks for 255 bytes. */
  function HungryRun<T>(n: nat): seq<Event<T>> {
    if n == 0 then [] else ((HungryRun(n - 1) + [Connect]) + [Receive(n - 1, 2)]) + [Receive(n - 1, 255)]
  }

  lemma OneMore<T>(w: World<T>, n: nat)
    requires w == World([], Crowd(n))
    ensures Step(Step(Step(w, Connect), Receive(n, 2)), Receive(n, 255)) == World([], Crowd(n + 1))
  {
    hide Packed;
    var v := Step(w, Connect);
    var c := EgdClient.Fresh<T>();
    assert v.clients[n] == c;
    var c2 := c.(buf := [2]);
    assert Append(v, n, 2) == World([], v.clients[n := c2]) by {
      assert c.buf + [2] == [2];
    }
    assert Consumed([2], false, None) == [];
    var v2 := Step(v, Receive(n, 2));
    assert v2 == World([], v.clients[n := c2]);
    var c3 := c.(buf := [2, 255]);
    assert c2.buf + [255] == [2, 255];
    assert Consumed([2, 255], false, None) == [BlockRead(255)];
    ExecuteOne(c3, [], BlockRead(255));
    NoBytes<T>();
    assert Drop([2, 255], 2) == [] && [] + Gifts<T>([]) == [];
    assert Serve(c3, []) == Served(Hungry(), []);
  }

  lemma NoBytes<T>()
    ensures Take<T>([], 255) == Dequeued([], [])
  {
  }

  lemma {:induction false} HungryAfter<T>(n: nat)
    ensures IsRun(HungryRun<T>(n)) && After(HungryRun<T>(n)) == World([], Crowd(n))
  {
    if n > 0 {
      hide Step, After, IsRun;
      HungryAfter<T>(n - 1);
      var r := HungryRun<T>(n - 1);
      RunSnoc(r, Connect);
      RunSnoc(r + [Connect], Receive(n - 1, 2));
      RunSnoc((r + [Connect]) + [Receive(n - 1, 2)], Receive(n - 1, 255));
      OneMore(After(r), n - 1);
      Admitted(After(r), n - 1);
    }
  }

  lemma Admitted<T>(w: World<T>, n: nat)
    requires |w.clients| == n
    ensures n < |Step(w, Connect).clients| && n < |Step(Step(w, Connect), Receive(n, 2)).clients|
  {
    hide Serve;
  }

  function UpTo(n: nat): (r: seq<nat>)
    ensures |r| == n && (forall i :: 0 <= i < n ==> r[i] == i)
    ensures Distinct(r)
  {
    if n == 0 then [] else
      assert (UpTo(n - 1) + [n - 1])[..n - 1] == UpTo(n - 1);
      UpTo(n - 1) + [n - 1]
  }

  lemma {:induction false} CrowdPending<T>(w: World<T>, n: nat)
    requires w.clients == Crowd<T>(|w.clients|) && n <= |w.clients|
    ensures Pending(w, UpTo(n)) == 255 * n
  {
    if n > 0 {
      CrowdPending(w, n - 1);
      assert UpTo(n)[..n - 1] == UpTo(n - 1);
    }
  }

  /** A single byte goes to the first of the crowd, who is then taken for satisfied. */
  lemma {:induction false} CrowdFed<T>(e: T, n: nat, k: nat)
    requires 0 < k <= n
    ensures FeedEach(World([[e]], Crowd<T>(n)), UpTo(k)) == World([], Crowd<T>(n)[0 := Refill(Hungry(), [e])])
  {
    var w := World([[e]], Crowd<T>(n));
    assert UpTo(k)[..k - 1] == UpTo(k - 1);
    if k == 1 {
      assert UpTo(0) == [];
      TakeWhole([[e]], 255);
      assert [[e]][..0] == [] && [e] + [] == [e];
      assert Take([[e]], 255) == Dequeued([e], []);
    } else {
      CrowdFed(e, n, k - 1);
      NoBytes<T>();
    }
  }

  lemma CrowdWalks<T>(e: T, n: nat)
    requires n > 0
    ensures var w := World([[e]], Crowd<T>(n));
      && Walks(UpTo(n), Blocked(w))
      && Walks([0], Blocked(w) - Blocked(World([], Crowd<T>(n)[0 := Refill(Hungry(), [e])])))
  {
    hide Crowd, UpTo;
    var w := World([[e]], Crowd<T>(n));
    var f := World([], Crowd<T>(n)[0 := Refill(Hungry(), [e])]);
    forall i: nat
      ensures i in UpTo(n) <==> i < n
    {
      if i < n {
        assert UpTo(n)[i] == i;
      }
    }
    assert Members(UpTo(n)) == Blocked(w);
    assert Blocked(w) - Blocked(f) == {0};
    assert Members([0]) == {0};
    assert [0][..0] == [];
  }

  lemma IdleTry<T>(w: World<T>)
    requires w.clients != [] && w.clients[0].buf == [] && w.clients[0].owed == None && w.clients[0].due == None
    ensures TryEach(w, [0]) == w
  {
    assert [0][..0] == [];
    assert TryEach(w, []) == w;
    assert w.clients[0 := w.clients[0]] == w.clients;
  }

  /**
    * The bound of 4112 clients is tight for the functions taken alone: with one client more, a run in which everybody
    * waits for 255 bytes and a single byte arrives leaves the first one unblocked, with 254 bytes missing. The daemon
    * does not get there, as it polls 256 descriptors only and aborts a call that takes too long.
    */
  lemma OneTooMany<T>(e: T)
    ensures var events := HungryRun<T>(4113) + [Arrival([e], UpTo(4113), [0])];
      var w := After(events);
      && IsRun(events) && |w.clients| == 4113
      && w.clients[0].owed == None
      && w.clients[0].history == [Exchange(BlockRead(255), 0, [Gift(e)])]
      && !RightAnswer(w.clients[0].history[0], Owed(w.clients[0]), true)
  {
    hide IsRun, After, HungryRun, UpTo, Crowd, FeedEach, Pending;
    var order := UpTo(4113);
    var before := HungryRun<T>(4113);
    var arrival := Arrival([e], order, [0]);
    HungryAfter<T>(4113);
    RunSnoc(before, arrival);
    var w := World([[e]], Crowd<T>(4113));
    var f := World([], Crowd<T>(4113)[0 := Refill(Hungry(), [e])]);
    CrowdPending(w, 4113);
    CrowdFed(e, 4113, 4113);
    CrowdWalks(e, 4113);
    SameClients(After(before), w, order);
    assert Accept(After(before), [e]) == w by {
      assert [] + [[e]] == [[e]];
      NoBytes<T>();
    }
    assert Step(After(before), arrival) == TryEach(f, [0]);
    IdleTry(f);
    assert [] + Gifts([e]) == [Gift(e)];
  }

  // ----- an empty ADDENTROPY -----

  ghost predicate Stuck<T>(c: Client<T>) {
    c.owed == None && c.due == Some(0)
  }

  lemma StepSkips<T>(w: World<T>, e: Event<T>, i: nat)
    requires i < |w.clients| && Stuck(w.clients[i])
    ensures i < |Step(w, e).clients| && Step(w, e).clients[i] == w.clients[i].(buf := Step(w, e).clients[i].buf)
    ensures Stuck(Step(w, e).clients[i])
  {
    hide Serve, FeedEach, TryEach, Size, Pending;
    match e
    case Connect =>
    case Receive(sock, b) =>
      if sock == i {
        IncompleteWaits(w.clients[i].(buf := w.clients[i].buf + [b]), w.blocks);
      }
    case Arrival(bytes, order, again) =>
      var v := Accept(w, bytes);
      FeedSkips(v, order, i);
      TrySkips(FeedEach(v, order), again, i);
      TrySkips(v, again, i);
  }

  /**
    * A client whose last command was an ADDENTROPY without payload never gets another answer, whatever happens.
    */
  lemma {:induction false} StuckForever<T>(events: seq<Event<T>>, more: seq<Event<T>>, i: nat)
    requires i < |After(events).clients| && Stuck(After(events).clients[i])
    ensures i < |After(events + more).clients| && Stuck(After(events + more).clients[i])
    ensures After(events + more).clients[i].history == After(events).clients[i].history
    ensures After(events + more).clients[i].out == After(events).clients[i].out
  {
    hide Step;
    if more == [] {
      assert events + more == events;
    } else {
      var front, e := more[..|more| - 1], more[|more| - 1];
      StuckForever(events, front, i);
      assert events + more == (events + front) + [e];
      RunSnoc(events + front, e);
      StepSkips(After(events + front), e, i);
    }
  }

  /** The run that gets there: four bytes, 3 0 0 0. */
  lemma EmptyPayloadSticks<T>()
    ensures var events: seq<Event<T>> := [Connect, Receive(0, 3), Receive(0, 0), Receive(0, 0), Receive(0, 0)];
      IsRun(events) && |After(events).clients| == 1 && Stuck(After(events).clients[0])
  {
    hide IsRun, After, Step;
    var e0: seq<Event<T>> := [];
    var e1: seq<Event<T>> := [Connect];
    var e2 := e1 + [Receive(0, 3)];
    var e3 := e2 + [Receive(0, 0)];
    var e4 := e3 + [Receive(0, 0)];
    assert e0 + [Connect] == e1;
    RunSnoc(e0, Connect);
    RunSnoc(e1, Receive(0, 3));
    RunSnoc(e2, Receive(0, 0));
    RunSnoc(e3, Receive(0, 0));
    RunSnoc(e4, Receive(0, 0));
    NothingYet<T>();
    HeaderByte(After(e1), 3);
    HeaderByte(After(e2), 0);
    HeaderByte(After(e3), 0);
    LastHeaderByte(After(e4));
    assert e4 + [Receive(0, 0)] == [Connect, Receive(0, 3), Receive(0, 0), Receive(0, 0), Receive(0, 0)];
  }

  lemma NothingYet<T>()
    ensures IsRun<T>([]) && Enabled(After<T>([]), Connect)
    ensures Step(After<T>([]), Connect) == World([], [EgdClient.Fresh()])
  {
  }

  lemma HeaderByte<T>(w: World<T>, b: octet)
    requires |w.clients| == 1 && w.clients[0].owed == None && w.clients[0].due == None
    requires (w.clients[0].buf == [] && b == 3) || (0 < |w.clients[0].buf| < 3 && w.clients[0].buf[0] == 3)
    ensures Enabled(w, Receive(0, b)) && Step(w, Receive(0, b)) == Append(w, 0, b)
    ensures var v := Append(w, 0, b);
      && |v.clients| == 1 && v.clients[0].owed == None && v.clients[0].due == None
      && v.clients[0].buf == w.clients[0].buf + [b]
  {
    var c := Append(w, 0, b).clients[0];
    assert Consumed(c.buf, false, None) == [];
    assert Append(w, 0, b).clients[0 := c] == Append(w, 0, b).clients;
  }

  lemma LastHeaderByte<T>(w: World<T>)
    requires |w.clients| == 1 && w.clients[0].owed == None && w.clients[0].due == None
    requires w.clients[0].buf == [3, 0, 0]
    ensures Enabled(w, Receive(0, 0)) && |Step(w, Receive(0, 0)).clients| == 1
    ensures Stuck(Step(w, Receive(0, 0)).clients[0])
  {
    var c := Append(w, 0, 0).clients[0];
    assert c.buf == [3, 0, 0, 0];
    assert Consumed(c.buf, false, None) == [AddHeader(0, 0, 0)];
    ExecuteOne(c, w.blocks, AddHeader(0, 0, 0));
  }

  // ----- commands behind a blocking read -----

  /** A client that asks for one byte, has to wait, and sends two GETPIDs meanwhile. */
  function QueueRun<T>(e: T): seq<Event<T>> {
    [Connect, Receive(0, 2), Receive(0, 1), Receive(0, 4), Receive(0, 4), Arrival([e], [0], [0])]
  }

  lemma OnlyAppended<T>(w: World<T>, b: octet)
    requires |w.clients| == 1 && (w.clients[0].owed.Some? || (w.clients[0] == EgdClient.Fresh() && b == 2))
    ensures Enabled(w, Receive(0, b))
    ensures Step(w, Receive(0, b)) == World(w.blocks, [w.clients[0].(buf := w.clients[0].buf + [b])])
  {
    var c := w.clients[0].(buf := w.clients[0].buf + [b]);
    assert Append(w, 0, b) == World(w.blocks, [c]);
    assert Consumed(c.buf, c.owed.Some?, c.due) == [] by {
      assert c.owed == None ==> c.buf == [2];
    }
    IncompleteWaits(c, w.blocks);
    assert [c][0 := c] == [c];
  }

  lemma AsksForOne<T>(w: World<T>)
    requires w == World([], [EgdClient.Fresh<T>().(buf := [2])])
    ensures Enabled(w, Receive(0, 1))
    ensures Step(w, Receive(0, 1))
      == World([], [Client([], Some(1), None, false, [], [Exchange(BlockRead(1), 0, [])])])
  {
    hide Packed;
    var c := EgdClient.Fresh<T>().(buf := [2, 1]);
    assert [2] + [1] == [2, 1];
    assert Append(w, 0, 1) == World([], [c]);
    assert Consumed([2, 1], false, None) == [BlockRead(1)];
    ExecuteOne(c, [], BlockRead(1));
    assert Take<T>([], 1) == Dequeued([], []);
    assert Drop([2, 1], 2) == [] && [] + Gifts<T>([]) == [];
    var asked := Client([], Some(1), None, false, [], [Exchange(BlockRead(1), 0, [])]);
    assert Serve(c, []) == Served(asked, []);
    assert [c][0 := asked] == [asked];
  }

  /** The arrival unblocks the client and tries one of its two commands; the other stays in the buffer, complete. */
  lemma QueueStaysBehind<T>(e: T)
    ensures var w := After(QueueRun(e));
      && IsRun(QueueRun(e)) && |w.clients| == 1
      && w.clients[0].owed == None && w.clients[0].due == None
      && w.clients[0].buf == [4] && Consumed(w.clients[0].buf, false, None) == [GetPid]
  {
    hide IsRun, After, Step, Enabled;
    var e0: seq<Event<T>> := [];
    var e1: seq<Event<T>> := [Connect];
    var e2 := e1 + [Receive(0, 2)];
    var e3 := e2 + [Receive(0, 1)];
    var e4 := e3 + [Receive(0, 4)];
    var e5 := e4 + [Receive(0, 4)];
    assert e0 + [Connect] == e1;
    RunSnoc(e0, Connect);
    RunSnoc(e1, Receive(0, 2));
    RunSnoc(e2, Receive(0, 1));
    RunSnoc(e3, Receive(0, 4));
    RunSnoc(e4, Receive(0, 4));
    RunSnoc(e5, Arrival([e], [0], [0]));
    NothingYet<T>();
    OnlyAppended(After(e1), 2);
    assert [] + [2] == [2];
    AsksForOne(After(e2));
    OnlyAppended(After(e3), 4);
    OnlyAppended(After(e4), 4);
    assert ([] + [4]) + [4] == [4, 4];
    ArrivalServesOne(After(e5), e);
    assert e5 + [Arrival([e], [0], [0])] == QueueRun(e);
  }

  lemma ArrivalServesOne<T>(w: World<T>, e: T)
    requires w == World([], [Client([4, 4], Some(1), None, false, [], [Exchange(BlockRead(1), 0, [])])])
    ensures Enabled(w, Arrival([e], [0], [0]))
    ensures var v := Step(w, Arrival([e], [0], [0]));
      && |v.clients| == 1 && v.clients[0].owed == None && v.clients[0].due == None && v.clients[0].buf == [4]
  {
    hide Packed, Pending;
    var u := Accept(w, [e]);
    assert u == World([[e]], w.clients) by {
      assert [] + [[e]] == [[e]];
    }
    OneClientWalk(u);
    TakeWhole([[e]], 1);
    assert [[e]][..0] == [] && [e] + [] == [e];
    var c := Refill(w.clients[0], [e]);
    assert Feed(u, 0) == World([], [c]);
    assert FeedEach(u, [0]) == World([], [c]);
    assert Blocked(World([], [c])) == {};
    assert Blocked(u) == {0} && Blocked(w) == {0};
    assert Members([0]) == {0} && [0][..0] == [];
    assert Consumed([4, 4], false, None) == [GetPid];
    ExecuteOne(c, [], GetPid);
    assert Drop([4, 4], 1) == [4];
    assert TryEach(World([], [c]), [0]) == TryOne(World([], [c]), 0);
  }

  lemma OneClientWalk<T>(w: World<T>)
    requires |w.clients| == 1
    ensures Pending(w, [0]) == Owing(w, 0)
  {
    assert [0][..0] == [];
  }
}
