// What every client of the EGD server can rely on, over all runs.

module EgdRuns {
  import opened Bytes
  import opened EgdPool
  import opened EgdClient
  import opened EgdWorld

  // ----- the spread-write -----

  /** Client `c` has been written everything it was owed, and has become `d`. */
  ghost predicate Filled<T>(c: Client<T>, d: Client<T>) {
    && |c.out| <= |d.out|
    && |Given(d.out[|c.out|..])| == Owed(c)
    && d == Refill(c, Given(d.out[|c.out|..]))
  }

  lemma RefillFills<T>(c: Client<T>, got: seq<T>)
    requires |got| == Owed(c)
    ensures Filled(c, Refill(c, got))
  {
    hide Given;
    assert (c.out + Gifts(got))[|c.out|..] == Gifts(got);
    GivenGifts(got);
  }

  lemma RefillShort<T>(c: Client<T>, got: seq<T>)
    requires |got| != Owed(c)
    ensures !Filled(c, Refill(c, got))
  {
    hide Given;
    assert (c.out + Gifts(got))[|c.out|..] == Gifts(got);
    GivenGifts(got);
  }

  ghost predicate AllWaiting<T>(w: World<T>, order: seq<nat>) {
    forall s :: s in order ==> s < |w.clients| && w.clients[s].owed.Some? && w.clients[s].owed.value > 0
  }

  lemma Split<T>(w: World<T>, order: seq<nat>)
    requires order != [] && Distinct(order) && AllWaiting(w, order)
    ensures var front, last := order[..|order| - 1], order[|order| - 1];
      && order == front + [last] && last !in front && Distinct(front) && AllWaiting(w, front)
      && last < |w.clients| && w.clients[last].owed.Some? && w.clients[last].owed.value > 0
      && FeedEach(w, order) == Feed(FeedEach(w, front), last)
      && Pending(w, order) == Pending(w, front) + Owed(w.clients[last])
  {
    hide Feed, FeedEach, Pending, Owed;
    var front, last := order[..|order| - 1], order[|order| - 1];
    assert order == front + [last] && last in order;
    forall s | s in front
      ensures s < |w.clients| && w.clients[s].owed.Some? && w.clients[s].owed.value > 0
    {
      assert s in order;
    }
    LastTurn(w, order);
  }

  lemma LastTurn<T>(w: World<T>, order: seq<nat>)
    requires order != [] && order[|order| - 1] < |w.clients|
    ensures var front, last := order[..|order| - 1], order[|order| - 1];
      && FeedEach(w, order) == Feed(FeedEach(w, front), last)
      && Pending(w, order) == Pending(w, front) + Owed(w.clients[last])
  {
    hide Feed, Owed;
  }

  lemma {:induction false} FeedOthers<T>(w: World<T>, order: seq<nat>)
    ensures |FeedEach(w, order).clients| == |w.clients|
    ensures forall i :: 0 <= i < |w.clients| && i !in order ==> FeedEach(w, order).clients[i] == w.clients[i]
  {
    if order != [] {
      var front := order[..|order| - 1];
      FeedOthers(w, front);
      assert forall i :: i in front ==> i in order;
      hide Take, Refill;
    }
  }

  /** The pool after the walk: all that was owed is gone, or all there was. */
  lemma {:induction false} FeedSize<T>(w: World<T>, order: seq<nat>)
    requires Distinct(order) && AllWaiting(w, order)
    ensures Size(FeedEach(w, order).blocks)
      == if Pending(w, order) <= Size(w.blocks) then Size(w.blocks) - Pending(w, order) else 0
  {
    hide Take, Flat, FeedEach, Pending, Distinct;
    if order == [] {
      FeedNone(w);
    } else {
      var front, last := order[..|order| - 1], order[|order| - 1];
      Split(w, order);
      FeedSize(w, front);
      FeedOthers(w, front);
      TakeConserves(FeedEach(w, front).blocks, Owed(w.clients[last]));
    }
  }

  lemma FeedNone<T>(w: World<T>)
    ensures FeedEach(w, []) == w && Pending(w, []) == 0
  {
  }

  /** Every client of the list is as it was, or has got everything it was owed. */
  ghost predicate Honoured<T>(w: World<T>, f: World<T>, order: seq<nat>) {
    |f.clients| == |w.clients| &&
    forall s :: s in order && s < |w.clients| ==> f.clients[s] == w.clients[s] || Filled(w.clients[s], f.clients[s])
  }

  predicate Lands<T>(w: World<T>, order: seq<nat>, k: nat) {
    k <= |order| && Pending(w, order[..k]) == Size(w.blocks)
  }

  /** A turn is honoured if and only if the pool can pay it in full or is empty. */
  lemma TurnHonoured<T>(w: World<T>, front: seq<nat>, last: nat)
    requires last !in front && last < |w.clients| && w.clients[last].owed.Some? && w.clients[last].owed.value > 0
    ensures var f := FeedEach(w, front);
      Honoured(w, Feed(f, last), front + [last]) <==>
      Honoured(w, f, front) && (Size(f.blocks) == 0 || Owed(w.clients[last]) <= Size(f.blocks))
  {
    hide Take, Flat, FeedEach, Refill, Filled;
    var f := FeedEach(w, front);
    FeedOthers(w, front);
    var c := w.clients[last];
    var d := Take(f.blocks, Owed(c));
    TakeConserves(f.blocks, Owed(c));
    var g := Feed(f, last);
    assert f.clients[last] == c;
    assert last in front + [last];
    assert forall s :: s in front ==> s in front + [last] && s != last;
    assert forall s :: s in front && s < |w.clients| ==> g.clients[s] == f.clients[s];
    if |d.taken| > 0 {
      assert g.clients[last] == Refill(c, d.taken);
      RefillDiffers(c, d.taken);
      if |d.taken| == Owed(c) {
        RefillFills(c, d.taken);
      } else {
        RefillShort(c, d.taken);
      }
    } else {
      assert g.clients[last] == c;
    }
  }

  lemma RefillDiffers<T>(c: Client<T>, got: seq<T>)
    requires c.owed.Some?
    ensures Refill(c, got) != c
  {
  }

  /**
    * The walk over the blocked clients honours them all if and only if the pool covers them all, or happens to run out
    * exactly between two of them. Otherwise one of them is unblocked with fewer bytes than it asked for.
    */
  lemma {:induction false} HonouredIff<T>(w: World<T>, order: seq<nat>)
    requires Distinct(order) && AllWaiting(w, order)
    ensures Honoured(w, FeedEach(w, order), order)
      <==> Pending(w, order) <= Size(w.blocks) || exists k: nat :: Lands(w, order, k)
  {
    hide FeedEach, Pending, Distinct, Size, Filled, Feed, AllWaiting;
    if order == [] {
      FeedNone(w);
    } else {
      var front, last := order[..|order| - 1], order[|order| - 1];
      Split(w, order);
      HonouredIff(w, front);
      FeedSize(w, front);
      TurnHonoured(w, front, last);
      LandsIff(w, order);
      if exists k: nat :: Lands(w, front, k) {
        var k: nat :| Lands(w, front, k);
        PendingGrows(w, front, k);
      }
      assert front[..|front|] == front;
      assert Pending(w, front) == Size(w.blocks) ==> Lands(w, front, |front|);
    }
  }

  lemma {:induction false} PendingGrows<T>(w: World<T>, order: seq<nat>, k: nat)
    requires k <= |order|
    ensures Pending(w, order[..k]) <= Pending(w, order)
  {
    if k == |order| {
      assert order[..k] == order;
    } else {
      assert order[..|order| - 1][..k] == order[..k];
      PendingGrows(w, order[..|order| - 1], k);
    }
  }

  lemma LandsIff<T>(w: World<T>, order: seq<nat>)
    requires order != []
    ensures var front := order[..|order| - 1];
      (exists k: nat :: Lands(w, order, k))
      <==> (exists k: nat :: Lands(w, front, k)) || Pending(w, order) == Size(w.blocks)
  {
    hide Pending;
    var front := order[..|order| - 1];
    forall k: nat | k <= |front|
      ensures order[..k] == front[..k]
    {
    }
    assert order[..|order|] == order;
    if exists k: nat :: Lands(w, order, k) {
      var k: nat :| Lands(w, order, k);
      assert k <= |front| ==> Lands(w, front, k);
    }
    if exists k: nat :: Lands(w, front, k) {
      var k: nat :| Lands(w, front, k);
      assert Lands(w, order, k);
    }
    if Pending(w, order) == Size(w.blocks) {
      assert Lands(w, order, |order|);
    }
  }

  /** If the pool covers them, everyone gets everything, and the pool pays exactly that. */
  lemma {:induction false} CoveredIsFilled<T>(w: World<T>, order: seq<nat>)
    requires Distinct(order) && AllWaiting(w, order) && Pending(w, order) <= Size(w.blocks)
    ensures var f := FeedEach(w, order);
      && |f.clients| == |w.clients|
      && (forall s :: s in order ==> s < |w.clients| && Filled(w.clients[s], f.clients[s]))
  {
    hide FeedEach, Pending, Distinct, Flat, Filled, Refill, Take;
    FeedOthers(w, order);
    if order != [] {
      var front, last := order[..|order| - 1], order[|order| - 1];
      Split(w, order);
      CoveredIsFilled(w, front);
      FeedSize(w, front);
      FeedOthers(w, front);
      var f := FeedEach(w, front);
      var c := w.clients[last];
      var taken := Take(f.blocks, Owed(c)).taken;
      TakeConserves(f.blocks, Owed(c));
      RefillFills(c, taken);
      assert FeedEach(w, order).clients == f.clients[last := Refill(c, taken)];
    }
  }

  lemma FilledFree<T>(c: Client<T>, d: Client<T>)
    requires Filled(c, d)
    ensures d.owed == None
  {
  }

  /**
    * The spread-write is all or nothing as long as the blocked clients are not owed more than the pool can ever hold:
    * it changes nothing, or pays everybody in full, unblocks everybody, and then tries the commands that have queued.
    */
  lemma SpreadAllOrNothing<T>(w: World<T>, order: seq<nat>, again: seq<nat>)
    requires Walks(order, Blocked(w)) && AllWaiting(w, order) && Pending(w, order) <= MAX_ENTROPY
    ensures Size(w.blocks) < Pending(w, order) ==> Spread(w, order, again) == w
    ensures Pending(w, order) <= Size(w.blocks) ==>
      var f := FeedEach(w, order);
      && Spread(w, order, again) == TryEach(f, again)
      && Size(f.blocks) == Size(w.blocks) - Pending(w, order)
      && Blocked(f) == {} && |f.clients| == |w.clients|
      && forall i :: 0 <= i < |w.clients| ==>
        if w.clients[i].owed.Some? then Filled(w.clients[i], f.clients[i]) else f.clients[i] == w.clients[i]
  {
    hide FeedEach, Pending, Distinct, Flat, Filled, TryEach;
    if Pending(w, order) <= Size(w.blocks) {
      FeedSize(w, order);
      FeedOthers(w, order);
      CoveredIsFilled(w, order);
      var f := FeedEach(w, order);
      forall i | 0 <= i < |w.clients|
        ensures f.clients[i].owed == None
        ensures if w.clients[i].owed.Some? then Filled(w.clients[i], f.clients[i]) else f.clients[i] == w.clients[i]
      {
        assert i in Blocked(w) <==> i in order;
        if i in order {
          FilledFree(w.clients[i], f.clients[i]);
        }
      }
    }
  }

  // ----- accounts over runs -----

  ghost predicate AllAccounted<T>(w: World<T>, events: seq<Event<T>>, fair: bool) {
    forall i :: 0 <= i < |w.clients| ==> Accounted(w.clients[i], Sent(events, i), fair)
  }

  lemma TryOneAccounted<T>(w: World<T>, sock: nat, events: seq<Event<T>>, fair: bool)
    requires AllAccounted(w, events, fair)
    ensures AllAccounted(TryOne(w, sock), events, fair) && |TryOne(w, sock).clients| == |w.clients|
  {
    hide Accounted, Serve, Sent;
    if sock < |w.clients| {
      ServeAccounted(w.clients[sock], w.blocks, Sent(events, sock), fair);
    }
  }

  lemma {:induction false} TryEachAccounted<T>(w: World<T>, order: seq<nat>, events: seq<Event<T>>, fair: bool)
    requires AllAccounted(w, events, fair)
    ensures AllAccounted(TryEach(w, order), events, fair) && |TryEach(w, order).clients| == |w.clients|
  {
    hide AllAccounted, TryOne;
    if order != [] {
      TryEachAccounted(w, order[..|order| - 1], events, fair);
      TryOneAccounted(TryEach(w, order[..|order| - 1]), order[|order| - 1], events, fair);
    }
  }

  lemma FeedAccounted<T>(w: World<T>, sock: nat, events: seq<Event<T>>)
    requires AllAccounted(w, events, false)
    ensures AllAccounted(Feed(w, sock), events, false)
  {
    hide Accounted, Sent, Take, Refill, Flat;
    if sock < |w.clients| && w.clients[sock].owed.Some? {
      var d := Take(w.blocks, Owed(w.clients[sock]));
      TakeConserves(w.blocks, Owed(w.clients[sock]));
      RefillAccounted(w.clients[sock], d.taken, Sent(events, sock), false);
    }
  }

  lemma {:induction false} FeedEachAccounted<T>(w: World<T>, order: seq<nat>, events: seq<Event<T>>)
    requires AllAccounted(w, events, false)
    ensures AllAccounted(FeedEach(w, order), events, false)
  {
    hide AllAccounted, Feed, FeedEach;
    if order == [] {
      FeedNone(w);
    } else {
      FeedLast(w, order);
      FeedEachAccounted(w, order[..|order| - 1], events);
      FeedAccounted(FeedEach(w, order[..|order| - 1]), order[|order| - 1], events);
    }
  }

  /** A walk that honours every client keeps the full account. */
  lemma HonouredAccounted<T>(w: World<T>, order: seq<nat>, events: seq<Event<T>>)
    requires AllAccounted(w, events, true) && AllWaiting(w, order) && Honoured(w, FeedEach(w, order), order)
    ensures AllAccounted(FeedEach(w, order), events, true)
  {
    hide Accounted, Sent, Refill, FeedEach, Given;
    FeedOthers(w, order);
    var f := FeedEach(w, order);
    forall i | 0 <= i < |f.clients|
      ensures Accounted(f.clients[i], Sent(events, i), true)
    {
      var c, d := w.clients[i], f.clients[i];
      assert Accounted(c, Sent(events, i), true);
      if i in order && d != c {
        RefillAccounted(c, Given(d.out[|c.out|..]), Sent(events, i), true);
      }
    }
  }

  lemma FeedLast<T>(w: World<T>, order: seq<nat>)
    requires order != []
    ensures FeedEach(w, order) == Feed(FeedEach(w, order[..|order| - 1]), order[|order| - 1])
  {
  }

  lemma BlockedWait<T>(w: World<T>, order: seq<nat>, events: seq<Event<T>>, fair: bool)
    requires AllAccounted(w, events, fair) && Walks(order, Blocked(w))
    ensures AllWaiting(w, order) && Distinct(order)
    ensures forall s :: s in order ==> Owing(w, s) <= 255
  {
    hide Distinct, Sent, Input, Output, Faulted, Settled, RightAnswer, Follows;
    forall s | s in order
      ensures s < |w.clients| && w.clients[s].owed.Some? && w.clients[s].owed.value > 0 && Owing(w, s) <= 255
    {
      assert s in Blocked(w);
      assert Accounted(w.clients[s], Sent(events, s), fair);
    }
  }

  /**
    * What a spread-write needs to give nobody less than asked for: no more is owed than the pool can ever hold, or the
    * pool happens to run out exactly between two clients.
    */
  ghost predicate FairSpread<T>(w: World<T>, order: seq<nat>) {
    Pending(w, order) <= MAX_ENTROPY || exists k: nat :: Lands(w, order, k)
  }

  lemma SpreadAccounted<T>(w: World<T>, order: seq<nat>, again: seq<nat>, events: seq<Event<T>>, fair: bool)
    requires AllAccounted(w, events, fair) && Walks(order, Blocked(w)) && (fair ==> FairSpread(w, order))
    ensures AllAccounted(Spread(w, order, again), events, fair)
    ensures |Spread(w, order, again).clients| == |w.clients|
  {
    hide AllAccounted, Distinct, Pending, Size, FeedEach, TryEach, Walks, Blocked, Lands, Honoured;
    BlockedWait(w, order, events, fair);
    FeedOthers(w, order);
    if !Starved(w, order) {
      if fair {
        HonouredIff(w, order);
        HonouredAccounted(w, order, events);
      } else {
        FeedEachAccounted(w, order, events);
      }
      TryEachAccounted(FeedEach(w, order), again, events, fair);
    }
  }

  /** Every spread-write of a run was fair. */
  ghost predicate Fair<T>(events: seq<Event<T>>) {
    events == [] ||
    (var front, e := events[..|events| - 1], events[|events| - 1];
    Fair(front) && (e.Arrival? ==> FairSpread(Accept(After(front), e.bytes), e.order)))
  }

  ghost predicate SilentBefore<T>(events: seq<Event<T>>, n: nat) {
    forall i :: n <= i ==> Sent(events, i) == []
  }

  /**
    * Over every run, for every client: what it has sent is what has been executed followed by what is in its read
    * buffer, what has been written to it is the answers to those commands, and a blocked amount is exactly what the
    * last answer still lacks.
    */
  lemma {:induction false} EveryClientAccounted<T>(events: seq<Event<T>>)
    requires IsRun(events)
    ensures AllAccounted(After(events), events, Fair(events))
    ensures SilentBefore(events, |After(events).clients|)
  {
    hide AllAccounted, SilentBefore, Enabled, Step, FairSpread;
    if events == [] {
      Start<T>();
    } else {
      var front, e := events[..|events| - 1], events[|events| - 1];
      EveryClientAccounted(front);
      Weaker(After(front), front, Fair(front), Fair(events));
      StepAccounted(front, e, Fair(events));
      assert events == front + [e];
    }
  }

  lemma Start<T>()
    ensures AllAccounted<T>(World([], []), [], true) && SilentBefore<T>([], 0)
  {
  }

  lemma {:induction false} WeakerHistory<T>(h: seq<Exchange<T>>, fair: bool, less: bool)
    requires Settled(h, fair) && (less ==> fair)
    ensures Settled(h, less)
  {
    if h != [] {
      WeakerHistory(h[..|h| - 1], fair, less);
    }
  }

  lemma Weaker<T>(w: World<T>, events: seq<Event<T>>, fair: bool, less: bool)
    requires AllAccounted(w, events, fair) && (less ==> fair)
    ensures AllAccounted(w, events, less)
  {
    hide Sent, Input, Output, Faulted, Settled, Follows, Packed;
    forall i | 0 <= i < |w.clients|
      ensures Accounted(w.clients[i], Sent(events, i), less)
    {
      var h := w.clients[i].history;
      assert Accounted(w.clients[i], Sent(events, i), fair);
      if h != [] {
        WeakerHistory(h[..|h| - 1], fair, less);
      }
    }
  }

  lemma SentSnoc<T>(events: seq<Event<T>>, e: Event<T>, i: nat)
    ensures Sent(events + [e], i) == Sent(events, i) + (if e.Receive? && e.sock == i then [e.b] else [])
  {
    assert (events + [e])[..|events|] == events;
  }

  lemma OthersSilent<T>(w: World<T>, events: seq<Event<T>>, e: Event<T>, n: nat, fair: bool)
    requires AllAccounted(w, events, fair) && SilentBefore(events, n)
    requires !e.Receive?
    ensures AllAccounted(w, events + [e], fair) && SilentBefore(events + [e], n)
  {
    hide Accounted, Sent;
    forall i: nat
      ensures Sent(events + [e], i) == Sent(events, i)
    {
      SentSnoc(events, e, i);
      assert Sent(events, i) + [] == Sent(events, i);
    }
  }

  lemma StepAccounted<T>(events: seq<Event<T>>, e: Event<T>, fair: bool)
    requires Enabled(After(events), e)
    requires AllAccounted(After(events), events, fair) && SilentBefore(events, |After(events).clients|)
    requires fair && e.Arrival? ==> FairSpread(Accept(After(events), e.bytes), e.order)
    ensures var v := Step(After(events), e);
      AllAccounted(v, events + [e], fair) && SilentBefore(events + [e], |v.clients|)
  {
    hide After, Spread, TryOne, Walks, AllAccounted, SilentBefore, Append, FairSpread;
    var w := After(events);
    match e
    case Connect =>
      OthersSilent(w, events, e, |w.clients|, fair);
      ConnectAccounted(w, events + [e], fair);
    case Receive(sock, b) =>
      AppendAccounted(w, events, sock, b, fair);
      TryOneAccounted(Append(w, sock, b), sock, events + [e], fair);
    case Arrival(bytes, order, again) =>
      OthersSilent(w, events, e, |w.clients|, fair);
      SameClients(w, Accept(w, bytes), order);
      AcceptAccounted(w, bytes, events + [e], fair);
      SpreadAccounted(Accept(w, bytes), order, again, events + [e], fair);
  }

  lemma AcceptAccounted<T>(w: World<T>, bytes: seq<T>, events: seq<Event<T>>, fair: bool)
    requires AllAccounted(w, events, fair)
    ensures AllAccounted(Accept(w, bytes), events, fair)
  {
    hide Accounted;
  }

  lemma {:induction false} SameClients<T>(w: World<T>, v: World<T>, order: seq<nat>)
    requires w.clients == v.clients
    ensures Pending(w, order) == Pending(v, order) && Blocked(w) == Blocked(v)
  {
    if order != [] {
      SameClients(w, v, order[..|order| - 1]);
    }
  }

  lemma ConnectAccounted<T>(w: World<T>, events: seq<Event<T>>, fair: bool)
    requires AllAccounted(w, events, fair) && SilentBefore(events, |w.clients|)
    ensures AllAccounted(w.(clients := w.clients + [EgdClient.Fresh()]), events, fair)
    ensures SilentBefore(events, |w.clients| + 1)
  {
    hide Sent;
    assert Sent(events, |w.clients|) == [];
    assert Accounted(EgdClient.Fresh<T>(), [], fair);
    hide Accounted;
  }

  lemma AppendAccounted<T>(w: World<T>, events: seq<Event<T>>, sock: nat, b: octet, fair: bool)
    requires sock < |w.clients| && AllAccounted(w, events, fair) && SilentBefore(events, |w.clients|)
    ensures var more := events + [Receive(sock, b)];
      && AllAccounted(Append(w, sock, b), more, fair) && SilentBefore(more, |w.clients|)
      && |Append(w, sock, b).clients| == |w.clients|
  {
    hide Accounted, Sent;
    var e: Event<T> := Receive(sock, b);
    forall i: nat
      ensures Sent(events + [e], i) == if i == sock then Sent(events, i) + [b] else Sent(events, i)
    {
      SentSnoc(events, e, i);
      assert Sent(events, i) + [] == Sent(events, i);
    }
    ReceiveAccounted(w.clients[sock], b, Sent(events, sock), fair);
  }

  lemma RunSnoc<T>(events: seq<Event<T>>, e: Event<T>)
    ensures After(events + [e]) == Step(After(events), e)
    ensures IsRun(events + [e]) <==> IsRun(events) && Enabled(After(events), e)
  {
    assert (events + [e])[..|events|] == events;
  }

  lemma {:induction false} TryEachClients<T>(w: World<T>, order: seq<nat>)
    ensures |TryEach(w, order).clients| == |w.clients|
  {
    hide Serve;
    if order != [] {
      TryEachClients(w, order[..|order| - 1]);
    }
  }
}
