// Whether the EGD server answers every command as its protocol promises: exactly when every spread-write was fair.

module EgdAnswers {
  import opened Bytes
  import opened EgdPool
  import opened EgdClient
  import opened EgdWorld
  import opened EgdRuns
  import PollSet

  // ----- fair runs -----

  /** The answer to command `k` of a client is right, up to what a blocked client is still owed. */
  ghost predicate AnsweredRight<T>(c: Client<T>, k: nat)
    requires k < |c.history|
  {
    RightAnswer(c.history[k], if k == |c.history| - 1 then Owed(c) else 0, true)
  }

  ghost predicate AllRight<T>(w: World<T>) {
    forall i, k :: 0 <= i < |w.clients| && 0 <= k < |w.clients[i].history| ==> AnsweredRight(w.clients[i], k)
  }

  lemma {:induction false} SettledAt<T>(h: seq<Exchange<T>>, fair: bool, k: nat)
    requires Settled(h, fair) && k < |h|
    ensures RightAnswer(h[k], 0, fair)
  {
    if k < |h| - 1 {
      SettledAt(h[..|h| - 1], fair, k);
    }
  }

  /**
    * In a fair run every command of every client is answered as the protocol promises: in particular a blocking read
    * gets exactly what it asked for, except that the last one may still be waiting for its rest.
    */
  lemma EveryAnswerRight<T>(events: seq<Event<T>>, i: nat, k: nat)
    requires IsRun(events) && Fair(events)
    requires i < |After(events).clients| && k < |After(events).clients[i].history|
    ensures AnsweredRight(After(events).clients[i], k)
  {
    hide After, IsRun, Fair, Sent, RightAnswer, Input, Output, Faulted, Follows, Settled;
    EveryClientAccounted(events);
    var c := After(events).clients[i];
    assert Accounted(c, Sent(events, i), true);
    if k < |c.history| - 1 {
      SettledAt(c.history[..|c.history| - 1], true, k);
    }
  }

  // ----- an unfair spread-write leaves a wrong answer for good -----

  /** Blocking read `k` is over, with fewer bytes than it asked for. */
  predicate Short<T>(c: Client<T>, k: nat) {
    && k < |c.history| && c.history[k].cmd.BlockRead? && |c.history[k].answer| < c.history[k].cmd.n
    && (k < |c.history| - 1 || c.owed == None)
  }

  lemma ShortIsWrong<T>(c: Client<T>, k: nat)
    requires Short(c, k)
    ensures !AnsweredRight(c, k)
  {
  }

  lemma ExecuteAppends<T>(c: Client<T>, blocks: seq<seq<T>>, cmd: Cmd)
    ensures var d := Execute(c, blocks, cmd).client;
      |d.history| == |c.history| + 1 && forall k :: 0 <= k < |c.history| ==> d.history[k] == c.history[k]
  {
    hide Take, Packed, Octets, Gifts;
  }

  lemma {:induction false} HistoryKept<T>(c: Client<T>, blocks: seq<seq<T>>, cmds: seq<Cmd>)
    ensures var d := ExecuteAll(c, blocks, cmds).client;
      && |d.history| == |c.history| + |cmds|
      && (forall k :: 0 <= k < |c.history| ==> d.history[k] == c.history[k])
      && (cmds == [] ==> d == c)
    decreases |cmds|
  {
    hide Execute;
    if cmds != [] {
      var s := Execute(c, blocks, cmds[0]);
      ExecuteAppends(c, blocks, cmds[0]);
      HistoryKept(s.client, s.blocks, cmds[1..]);
    }
  }

  lemma ServeKeepsShort<T>(c: Client<T>, blocks: seq<seq<T>>, k: nat)
    requires Short(c, k)
    ensures Short(Serve(c, blocks).client, k)
  {
    hide ExecuteAll, FreshCommands;
    HistoryKept(c, blocks, Consumed(c.buf, c.owed.Some?, c.due));
  }

  lemma RefillKeepsShort<T>(c: Client<T>, got: seq<T>, k: nat)
    requires Short(c, k) && c.owed.Some?
    ensures Short(Refill(c, got), k)
  {
  }

  lemma {:induction false} FeedEachKeepsShort<T>(w: World<T>, order: seq<nat>, i: nat, k: nat)
    requires i < |w.clients| && Short(w.clients[i], k)
    ensures i < |FeedEach(w, order).clients| && Short(FeedEach(w, order).clients[i], k)
  {
    hide Short, Take, Refill;
    if order != [] {
      var f := FeedEach(w, order[..|order| - 1]);
      FeedEachKeepsShort(w, order[..|order| - 1], i, k);
      if f.clients[i].owed.Some? {
        RefillKeepsShort(f.clients[i], Take(f.blocks, Owed(f.clients[i])).taken, k);
      }
    }
  }

  lemma {:induction false} TryEachKeepsShort<T>(w: World<T>, order: seq<nat>, i: nat, k: nat)
    requires i < |w.clients| && Short(w.clients[i], k)
    ensures i < |TryEach(w, order).clients| && Short(TryEach(w, order).clients[i], k)
  {
    hide Short, Serve;
    if order != [] {
      var f := TryEach(w, order[..|order| - 1]);
      TryEachKeepsShort(w, order[..|order| - 1], i, k);
      ServeKeepsShort(f.clients[i], f.blocks, k);
    }
  }

  lemma StepKeepsShort<T>(w: World<T>, e: Event<T>, i: nat, k: nat)
    requires Enabled(w, e) && i < |w.clients| && Short(w.clients[i], k)
    ensures i < |Step(w, e).clients| && Short(Step(w, e).clients[i], k)
  {
    hide Serve, Walks, FeedEach, TryEach, Size, Pending;
    match e
    case Connect =>
    case Receive(sock, b) =>
      if sock == i {
        ServeKeepsShort(w.clients[i].(buf := w.clients[i].buf + [b]), w.blocks, k);
      }
    case Arrival(bytes, order, again) =>
      var v := Accept(w, bytes);
      FeedEachKeepsShort(v, order, i, k);
      TryEachKeepsShort(FeedEach(v, order), again, i, k);
  }

  /** What a walk does to one of the blocked clients. */
  lemma {:induction false} FeedDelivers<T>(w: World<T>, order: seq<nat>, s: nat) returns (got: seq<T>)
    requires Distinct(order) && AllWaiting(w, order) && s in order
    ensures |FeedEach(w, order).clients| == |w.clients| && s < |w.clients| && |got| <= Owed(w.clients[s])
    ensures var d := FeedEach(w, order).clients[s]; d == w.clients[s] || d == Refill(w.clients[s], got)
  {
    hide FeedEach, Take, Flat, Refill, Distinct;
    var front, last := order[..|order| - 1], order[|order| - 1];
    Split(w, order);
    FeedOthers(w, order);
    FeedOthers(w, front);
    if s == last {
      var f := FeedEach(w, front);
      got := Take(f.blocks, Owed(w.clients[s])).taken;
      TakeConserves(f.blocks, Owed(w.clients[s]));
    } else {
      got := FeedDelivers(w, front, s);
    }
  }

  lemma RefillIsShort<T>(c: Client<T>, got: seq<T>, sent: seq<octet>)
    requires Accounted(c, sent, false) && c.owed.Some? && |got| < Owed(c)
    ensures c.history != [] && Short(Refill(c, got), |c.history| - 1)
  {
    hide Input, Output, Faulted, Settled, Follows;
  }

  /** An unfair spread-write cuts a blocking read short. */
  lemma UnfairCutsShort<T>(w: World<T>, order: seq<nat>, events: seq<Event<T>>) returns (i: nat, k: nat)
    requires AllAccounted(w, events, false) && Walks(order, Blocked(w)) && !FairSpread(w, order)
    requires Size(w.blocks) <= MAX_ENTROPY
    ensures i < |w.clients| && i < |FeedEach(w, order).clients| && Short(FeedEach(w, order).clients[i], k)
  {
    hide FeedEach, Pending, Size, Blocked, Lands, Filled, Refill, Accounted, Sent, Short, Distinct;
    BlockedWait(w, order, events, false);
    HonouredIff(w, order);
    FeedOthers(w, order);
    var f := FeedEach(w, order);
    i :| i in order && i < |w.clients| && !(f.clients[i] == w.clients[i] || Filled(w.clients[i], f.clients[i]));
    var got := FeedDelivers(w, order, i);
    if |got| == Owed(w.clients[i]) {
      RefillFills(w.clients[i], got);
    }
    RefillIsShort(w.clients[i], got, Sent(events, i));
    k := |w.clients[i].history| - 1;
  }

  /** After an unfair run some blocking read is over and short. */
  lemma {:induction false} UnfairIsShort<T>(events: seq<Event<T>>) returns (i: nat, k: nat)
    requires IsRun(events) && !Fair(events)
    ensures i < |After(events).clients| && Short(After(events).clients[i], k)
  {
    hide Enabled, Step, Short, FairSpread, AllAccounted;
    var front, e := events[..|events| - 1], events[|events| - 1];
    if !Fair(front) {
      i, k := UnfairIsShort(front);
      StepKeepsShort(After(front), e, i, k);
    } else {
      i, k := ArrivalCutsShort(front, e);
    }
  }

  lemma ArrivalCutsShort<T>(events: seq<Event<T>>, e: Event<T>) returns (i: nat, k: nat)
    requires IsRun(events) && e.Arrival? && Enabled(After(events), e)
    requires !FairSpread(Accept(After(events), e.bytes), e.order)
    ensures i < |Step(After(events), e).clients| && Short(Step(After(events), e).clients[i], k)
  {
    hide After, IsRun, Fair, AllAccounted, FeedEach, TryEach, Short, Pending, Walks, Lands, Accepted, HandedOut, Flat;
    var w := After(events);
    var v := Accept(w, e.bytes);
    EveryClientAccounted(events);
    EntropyConserved(events);
    FlatSnoc(w.blocks, e.bytes);
    SameClients(w, v, e.order);
    Weaker(w, events, Fair(events), false);
    AcceptAccounted(w, e.bytes, events, false);
    i, k := UnfairCutsShort(v, e.order, events);
    TryEachKeepsShort(FeedEach(v, e.order), e.again, i, k);
  }

  /** Every client has always been answered right if and only if every spread-write of the run was fair. */
  lemma AnswersRightIff<T>(events: seq<Event<T>>)
    requires IsRun(events)
    ensures AllRight(After(events)) <==> Fair(events)
  {
    hide After, IsRun, Fair, AnsweredRight;
    if Fair(events) {
      forall i, k | 0 <= i < |After(events).clients| && 0 <= k < |After(events).clients[i].history|
        ensures AnsweredRight(After(events).clients[i], k)
      {
        EveryAnswerRight(events, i, k);
      }
    } else {
      var i, k := UnfairIsShort(events);
      ShortIsWrong(After(events).clients[i], k);
    }
  }

  // ----- enough room for everybody -----

  lemma {:induction false} DistinctCount(order: seq<nat>)
    requires Distinct(order)
    ensures |Members(order)| == |order|
  {
    if order == [] {
      assert Members(order) == {};
    } else {
      var front, last := order[..|order| - 1], order[|order| - 1];
      DistinctCount(front);
      assert order == front + [last];
      assert Members(order) == Members(front) + {last};
    }
  }

  ghost function Numbers(n: nat): (r: set<nat>)
    ensures |r| <= n
  {
    if n == 0 then {} else Numbers(n - 1) + {n - 1}
  }

  lemma {:induction false} NumbersHave(n: nat, s: nat)
    requires s < n
    ensures s in Numbers(n)
  {
    if s < n - 1 {
      NumbersHave(n - 1, s);
    }
  }

  lemma {:induction false} Subset(a: set<nat>, b: set<nat>)
    requires a <= b
    ensures |a| <= |b|
  {
    assert b == a + (b - a);
  }

  lemma {:induction false} PendingBound<T>(w: World<T>, order: seq<nat>)
    requires forall s :: s in order ==> Owing(w, s) <= 255
    ensures Pending(w, order) <= 255 * |order|
  {
    if order != [] {
      PendingBound(w, order[..|order| - 1]);
    }
  }

  /** Whenever entropy arrives, at most `n` clients are waiting for some. */
  ghost predicate FewBlocked<T>(events: seq<Event<T>>, n: nat) {
    events == [] ||
    (var front, e := events[..|events| - 1], events[|events| - 1];
    FewBlocked(front, n) && (e.Arrival? ==> |Blocked(After(front))| <= n))
  }

  /** However many clients have connected: with at most 4112 blocked at a time every spread-write is fair. */
  lemma {:induction false} FewBlockedFair<T>(events: seq<Event<T>>, n: nat)
    requires IsRun(events) && FewBlocked(events, n) && n <= 4112
    ensures Fair(events)
  {
    hide Enabled, Step, AllAccounted, Pending, Blocked, Lands;
    if events != [] {
      var front, e := events[..|events| - 1], events[|events| - 1];
      FewBlockedFair(front, n);
      if e.Arrival? {
        var w := After(front);
        EveryClientAccounted(front);
        ArrivalWalks(w, e);
        BlockedWait(w, e.order, front, Fair(front));
        DistinctCount(e.order);
        PendingBound(w, e.order);
        SameClients(w, Accept(w, e.bytes), e.order);
      }
    }
  }

  /** So then every answer is right. */
  lemma FewBlockedAnswered<T>(events: seq<Event<T>>, n: nat)
    requires IsRun(events) && FewBlocked(events, n) && n <= 4112
    ensures AllRight(After(events))
  {
    hide After, IsRun, Fair, AllRight, FewBlocked;
    FewBlockedFair(events, n);
    AnswersRightIff(events);
  }

  /** No more clients are blocked than have connected. */
  lemma {:induction false} FewClients<T>(events: seq<Event<T>>, n: nat)
    requires IsRun(events) && |After(events).clients| <= n
    ensures FewBlocked(events, n)
  {
    hide Enabled, Step, AllAccounted, Pending, Fair, Blocked;
    if events != [] {
      var front, e := events[..|events| - 1], events[|events| - 1];
      EveryClientAccounted(front);
      ClientsGrow(After(front), e, front, Fair(front));
      FewClients(front, n);
      BlockedBelow(After(front));
    }
  }

  /** The daemon polls at most 256 descriptors: with no more clients than that every answer is right. */
  lemma PolledAnswered<T>(events: seq<Event<T>>)
    requires IsRun(events)
    requires |After(events).clients| <= 256 || FewBlocked(events, 256)
    ensures Fair(events) && AllRight(After(events))
  {
    hide After, IsRun, Fair, AllRight, FewBlocked;
    if |After(events).clients| <= PollSet.MAX_FDS {
      FewClients(events, PollSet.MAX_FDS);
    }
    FewBlockedFair(events, PollSet.MAX_FDS);
    AnswersRightIff(events);
  }

  lemma BlockedBelow<T>(w: World<T>)
    ensures |Blocked(w)| <= |w.clients|
  {
    forall s | s in Blocked(w)
      ensures s in Numbers(|w.clients|)
    {
      NumbersHave(|w.clients|, s);
    }
    Subset(Blocked(w), Numbers(|w.clients|));
  }

  lemma ArrivalWalks<T>(w: World<T>, e: Event<T>)
    requires e.Arrival? && Enabled(w, e)
    ensures Walks(e.order, Blocked(w))
  {
  }

  lemma ClientsGrow<T>(w: World<T>, e: Event<T>, events: seq<Event<T>>, fair: bool)
    requires Enabled(w, e) && AllAccounted(w, events, fair)
    ensures |w.clients| <= |Step(w, e).clients|
  {
    hide AllAccounted, Serve, Walks, Pending, Size;
    if e.Arrival? {
      var v := Accept(w, e.bytes);
      hide FeedEach, TryEach;
      FeedOthers(v, e.order);
      TryEachClients(FeedEach(v, e.order), e.again);
    }
  }
}
