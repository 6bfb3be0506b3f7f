// The EGD server as a whole (host/control.lua): many clients drawing on one pool, in any interleaving of arriving
// entropy and arriving commands.

module EgdWorld {
  import opened Bytes
  import opened EgdPool
  import opened EgdClient

  /** Clients are numbered in the order in which they connected. */
  datatype World<T> = World(blocks: seq<seq<T>>, clients: seq<Client<T>>)

  /**
    * The orders in which the table of blocked clients and then the table of unblocked ones are walked are not fixed by
    * the language, so they are part of the event.
    */
  datatype Event<T> =
    | Connect
    | Receive(sock: nat, b: octet)
    | Arrival(bytes: seq<T>, order: seq<nat>, again: seq<nat>)

  // ----- steps -----

  function TryOne<T>(w: World<T>, sock: nat): World<T> {
    if sock < |w.clients| then
      var s := Serve(w.clients[sock], w.blocks);
      World(s.blocks, w.clients[sock := s.client])
    else w
  }

  function Append<T>(w: World<T>, sock: nat, b: octet): World<T> {
    if sock < |w.clients| then
      w.(clients := w.clients[sock := w.clients[sock].(buf := w.clients[sock].buf + [b])])
    else w
  }

  function Accept<T>(w: World<T>, bytes: seq<T>): World<T> {
    if Size(w.blocks) + |bytes| <= MAX_ENTROPY then w.(blocks := w.blocks + [bytes]) else w
  }

  function Owed<T>(c: Client<T>): nat {
    if c.owed.Some? then c.owed.value else 0
  }

  function Owing<T>(w: World<T>, sock: nat): nat {
    if sock < |w.clients| then Owed(w.clients[sock]) else 0
  }

  /** One blocked client's turn: it is taken off the table as soon as it gets anything at all. */
  function Feed<T>(w: World<T>, sock: nat): World<T> {
    if sock < |w.clients| && w.clients[sock].owed.Some? then
      var d := Take(w.blocks, Owed(w.clients[sock]));
      if |d.taken| == 0 then w.(blocks := d.rest)
      else World(d.rest, w.clients[sock := Refill(w.clients[sock], d.taken)])
    else w
  }

  function FeedEach<T>(w: World<T>, order: seq<nat>): World<T> {
    if order == [] then w else Feed(FeedEach(w, order[..|order| - 1]), order[|order| - 1])
  }

  function TryEach<T>(w: World<T>, order: seq<nat>): World<T> {
    if order == [] then w else TryOne(TryEach(w, order[..|order| - 1]), order[|order| - 1])
  }

  /** What the clients of a list are owed together. */
  function Pending<T>(w: World<T>, order: seq<nat>): nat {
    if order == [] then 0 else Pending(w, order[..|order| - 1]) + Owing(w, order[|order| - 1])
  }

  /** The pool does not cover what is owed, although it could. */
  predicate Starved<T>(w: World<T>, order: seq<nat>) {
    Size(w.blocks) < Pending(w, order) <= MAX_ENTROPY
  }

  /** `egd_spreadwrite`. */
  function Spread<T>(w: World<T>, order: seq<nat>, again: seq<nat>): World<T> {
    if Starved(w, order) then w else TryEach(FeedEach(w, order), again)
  }

  function Blocked<T>(w: World<T>): set<nat> {
    set i | 0 <= i < |w.clients| && w.clients[i].owed.Some?
  }

  predicate Distinct(order: seq<nat>) {
    order == [] || (order[|order| - 1] !in order[..|order| - 1] && Distinct(order[..|order| - 1]))
  }

  function Members(order: seq<nat>): set<nat> {
    set i | i in order
  }

  /** A walk over a table visits every key once. */
  predicate Walks(order: seq<nat>, keys: set<nat>) {
    Distinct(order) && keys == Members(order)
  }

  lemma WalkNone<T>(w: World<T>)
    ensures Distinct([]) && Members([]) == {} && Pending(w, []) == 0 && FeedEach(w, []) == w && TryEach(w, []) == w
  {
  }

  lemma WalkSnoc<T>(w: World<T>, order: seq<nat>, sock: nat)
    requires Distinct(order) && sock !in Members(order)
    ensures Distinct(order + [sock]) && Members(order + [sock]) == Members(order) + {sock}
    ensures Pending(w, order + [sock]) == Pending(w, order) + Owing(w, sock)
    ensures FeedEach(w, order + [sock]) == Feed(FeedEach(w, order), sock)
    ensures TryEach(w, order + [sock]) == TryOne(TryEach(w, order), sock)
  {
    assert (order + [sock])[..|order|] == order;
    hide Feed, TryOne;
  }

  lemma EmptyWalk()
    ensures Walks([], {})
  {
  }

  /** What is owed on a set of sockets, added up in the order of their numbers. */
  function OwedBelow<T>(w: World<T>, keys: set<nat>, n: nat): nat {
    if n == 0 then 0 else OwedBelow(w, keys, n - 1) + (if n - 1 in keys then Owing(w, n - 1) else 0)
  }

  lemma {:induction false} OwedInsert<T>(w: World<T>, keys: set<nat>, sock: nat, n: nat)
    requires sock !in keys
    ensures OwedBelow(w, keys + {sock}, n) == OwedBelow(w, keys, n) + (if sock < n then Owing(w, sock) else 0)
  {
    if n > 0 {
      OwedInsert(w, keys, sock, n - 1);
    }
  }

  lemma {:induction false} OwedNone<T>(w: World<T>, n: nat)
    ensures OwedBelow(w, {}, n) == 0
  {
    if n > 0 {
      OwedNone(w, n - 1);
    }
  }

  lemma {:induction false} PendingIsOwed<T>(w: World<T>, order: seq<nat>)
    requires Distinct(order)
    ensures Pending(w, order) == OwedBelow(w, Members(order), |w.clients|)
  {
    if order == [] {
      OwedNone(w, |w.clients|);
      assert Members(order) == {};
    } else {
      var front, last := order[..|order| - 1], order[|order| - 1];
      assert order == front + [last];
      PendingIsOwed(w, front);
      WalkSnoc(w, front, last);
      OwedInsert(w, Members(front), last, |w.clients|);
    }
  }

  /** The total does not depend on the order in which the table is walked. */
  lemma PendingOrderFree<T>(w: World<T>, order: seq<nat>, other: seq<nat>)
    requires Distinct(order) && Distinct(other) && Members(order) == Members(other)
    ensures Pending(w, order) == Pending(w, other)
  {
    PendingIsOwed(w, order);
    PendingIsOwed(w, other);
  }

  predicate Enabled<T>(w: World<T>, e: Event<T>) {
    match e
    case Connect => true
    case Receive(sock, _) => sock < |w.clients|
    case Arrival(bytes, order, again) =>
      && Walks(order, Blocked(w))
      && (Starved(Accept(w, bytes), order) || Walks(again, Blocked(w) - Blocked(FeedEach(Accept(w, bytes), order))))
  }

  function Step<T>(w: World<T>, e: Event<T>): World<T> {
    match e
    case Connect => w.(clients := w.clients + [EgdClient.Fresh()])
    case Receive(sock, b) => TryOne(Append(w, sock, b), sock)
    case Arrival(bytes, order, again) => Spread(Accept(w, bytes), order, again)
  }

  // ----- runs -----

  function After<T>(events: seq<Event<T>>): World<T> {
    if events == [] then World([], []) else Step(After(events[..|events| - 1]), events[|events| - 1])
  }

  predicate IsRun<T>(events: seq<Event<T>>) {
    events == [] || (IsRun(events[..|events| - 1]) && Enabled(After(events[..|events| - 1]), events[|events| - 1]))
  }

  /** What a client has sent during a run. */
  function Sent<T>(events: seq<Event<T>>, sock: nat): seq<octet> {
    if events == [] then []
    else
      var e := events[|events| - 1];
      Sent(events[..|events| - 1], sock) + (if e.Receive? && e.sock == sock then [e.b] else [])
  }

  /** The entropy that arrived during a run and found room. */
  function Accepted<T>(events: seq<Event<T>>): seq<T> {
    if events == [] then []
    else
      var e := events[|events| - 1];
      var w := After(events[..|events| - 1]);
      Accepted(events[..|events| - 1])
      + (if e.Arrival? && Size(w.blocks) + |e.bytes| <= MAX_ENTROPY then e.bytes else [])
  }

  /** The entropy written to clients. */
  function HandedOut<T>(clients: seq<Client<T>>): seq<T> {
    if clients == [] then [] else HandedOut(clients[..|clients| - 1]) + Given(clients[|clients| - 1].out)
  }

  lemma HandedLast<T>(clients: seq<Client<T>>)
    requires clients != []
    ensures multiset(HandedOut(clients))
      == multiset(HandedOut(clients[..|clients| - 1])) + multiset(Given(clients[|clients| - 1].out))
  {
    hide Given;
  }

  lemma Shuffle<T>(h: multiset<T>, k: multiset<T>, g: multiset<T>, d: multiset<T>, more: multiset<T>)
    requires k + g == h + d
    ensures (k + more) + g == (h + more) + d
  {
    forall x
      ensures ((k + more) + g)[x] == ((h + more) + d)[x]
    {
      assert (k + g)[x] == (h + d)[x];
    }
  }

  lemma {:induction false} HandedUpdate<T>(clients: seq<Client<T>>, i: nat, c: Client<T>)
    requires i < |clients|
    ensures multiset(HandedOut(clients[i := c])) + multiset(Given(clients[i].out))
      == multiset(HandedOut(clients)) + multiset(Given(c.out))
  {
    hide Given, HandedOut;
    var n := |clients| - 1;
    HandedLast(clients);
    HandedLast(clients[i := c]);
    if i < n {
      assert clients[i := c][..n] == clients[..n][i := c];
      HandedUpdate(clients[..n], i, c);
      Shuffle(
        multiset(HandedOut(clients[..n])), multiset(HandedOut(clients[..n][i := c])), multiset(Given(clients[i].out)),
        multiset(Given(c.out)), multiset(Given(clients[n].out)));
    } else {
      assert clients[i := c][..n] == clients[..n];
    }
  }

  lemma Swapped<T>(h: multiset<T>, k: multiset<T>, g: multiset<T>, d: multiset<T>, f: multiset<T>, e: multiset<T>)
    requires k + g == h + d && f + g == e + d
    ensures f + h == e + k
  {
    forall x
      ensures (f + h)[x] == (e + k)[x]
    {
      assert (k + g)[x] == (h + d)[x] && (f + g)[x] == (e + d)[x];
    }
  }

  // ----- conservation -----

  ghost predicate SameEntropy<T>(w: World<T>, v: World<T>) {
    && multiset(Flat(w.blocks)) + multiset(HandedOut(w.clients))
      == multiset(Flat(v.blocks)) + multiset(HandedOut(v.clients))
    && Size(v.blocks) <= Size(w.blocks)
  }

  lemma Moved<T>(w: World<T>, sock: nat, c: Client<T>, blocks: seq<seq<T>>)
    requires sock < |w.clients| && Size(blocks) <= Size(w.blocks)
    requires multiset(Flat(w.blocks)) + multiset(Given(w.clients[sock].out))
      == multiset(Flat(blocks)) + multiset(Given(c.out))
    ensures SameEntropy(w, World(blocks, w.clients[sock := c]))
  {
    hide Given, Flat, HandedOut;
    HandedUpdate(w.clients, sock, c);
    Swapped(
      multiset(HandedOut(w.clients)), multiset(HandedOut(w.clients[sock := c])), multiset(Given(w.clients[sock].out)),
      multiset(Given(c.out)), multiset(Flat(w.blocks)), multiset(Flat(blocks)));
  }

  lemma TryOneConserves<T>(w: World<T>, sock: nat)
    ensures SameEntropy(w, TryOne(w, sock))
  {
    hide Given, Flat, HandedOut, Serve, SameEntropy;
    if sock < |w.clients| {
      var c := w.clients[sock];
      var s := Serve(c, w.blocks);
      ServeConserves(c, w.blocks);
      Moved(w, sock, s.client, s.blocks);
    } else {
      SameRefl(w);
    }
  }

  lemma SameRefl<T>(w: World<T>)
    ensures SameEntropy(w, w)
  {
  }

  lemma SameTrans<T>(u: World<T>, v: World<T>, w: World<T>)
    requires SameEntropy(u, v) && SameEntropy(v, w)
    ensures SameEntropy(u, w)
  {
    hide Flat, HandedOut;
  }

  lemma ServeConserves<T>(c: Client<T>, blocks: seq<seq<T>>)
    ensures var s := Serve(c, blocks);
      && multiset(Flat(blocks)) + multiset(Given(c.out)) == multiset(Flat(s.blocks)) + multiset(Given(s.client.out))
      && Size(s.blocks) <= Size(blocks)
  {
    hide Given, Flat, ExecuteAll, Consumed;
    ExecuteAllConserves(c, blocks, Consumed(c.buf, c.owed.Some?, c.due));
  }

  lemma FeedConserves<T>(w: World<T>, sock: nat)
    ensures SameEntropy(w, Feed(w, sock))
  {
    hide Given, Flat, HandedOut, Take, SameEntropy;
    if sock < |w.clients| && w.clients[sock].owed.Some? {
      var c := w.clients[sock];
      var d := Take(w.blocks, Owed(c));
      TakenIsGiven(w.blocks, Owed(c), c.out);
      if |d.taken| == 0 {
        assert c.out + Gifts(d.taken) == c.out;
        Moved(w, sock, c, d.rest);
        assert w.clients[sock := c] == w.clients;
      } else {
        Moved(w, sock, Refill(c, d.taken), d.rest);
      }
    } else {
      SameRefl(w);
    }
  }

  lemma {:induction false} FeedEachConserves<T>(w: World<T>, order: seq<nat>)
    ensures SameEntropy(w, FeedEach(w, order))
  {
    hide SameEntropy, Feed;
    if order == [] {
      SameRefl(w);
    } else {
      var front := order[..|order| - 1];
      FeedEachConserves(w, front);
      FeedConserves(FeedEach(w, front), order[|order| - 1]);
      SameTrans(w, FeedEach(w, front), FeedEach(w, order));
    }
  }

  lemma {:induction false} TryEachConserves<T>(w: World<T>, order: seq<nat>)
    ensures SameEntropy(w, TryEach(w, order))
  {
    hide SameEntropy, TryOne;
    if order == [] {
      SameRefl(w);
    } else {
      var front := order[..|order| - 1];
      TryEachConserves(w, front);
      TryOneConserves(TryEach(w, front), order[|order| - 1]);
      SameTrans(w, TryEach(w, front), TryEach(w, order));
    }
  }

  lemma SpreadConserves<T>(w: World<T>, order: seq<nat>, again: seq<nat>)
    ensures SameEntropy(w, Spread(w, order, again))
  {
    hide SameEntropy, FeedEach, TryEach, Size;
    FeedEachConserves(w, order);
    TryEachConserves(FeedEach(w, order), again);
    SameTrans(w, FeedEach(w, order), TryEach(FeedEach(w, order), again));
    SameRefl(w);
  }

  lemma AppendConserves<T>(w: World<T>, sock: nat, b: octet)
    ensures SameEntropy(w, Append(w, sock, b))
  {
    hide Given, Flat, HandedOut, SameEntropy;
    if sock < |w.clients| {
      Moved(w, sock, w.clients[sock].(buf := w.clients[sock].buf + [b]), w.blocks);
    } else {
      SameRefl(w);
    }
  }

  /**
    * Conservation over all runs: what has been accepted is the pool and what has been handed out, byte for byte, and
    * the pool never outgrows its bound.
    */
  lemma {:induction false} EntropyConserved<T>(events: seq<Event<T>>)
    ensures var w := After(events);
      && multiset(Accepted(events)) == multiset(Flat(w.blocks)) + multiset(HandedOut(w.clients))
      && Size(w.blocks) <= MAX_ENTROPY
  {
    if events != [] {
      var front, e := events[..|events| - 1], events[|events| - 1];
      EntropyConserved(front);
      StepConserves(After(front), e, Accepted(front), Accepted(events));
    }
  }

  lemma StepConserves<T>(w: World<T>, e: Event<T>, before: seq<T>, after: seq<T>)
    requires multiset(before) == multiset(Flat(w.blocks)) + multiset(HandedOut(w.clients))
    requires Size(w.blocks) <= MAX_ENTROPY
    requires after == before + (if e.Arrival? && Size(w.blocks) + |e.bytes| <= MAX_ENTROPY then e.bytes else [])
    ensures var v := Step(w, e);
      && multiset(after) == multiset(Flat(v.blocks)) + multiset(HandedOut(v.clients))
      && Size(v.blocks) <= MAX_ENTROPY
  {
    hide Flat, HandedOut, TryOne, Append, Spread, Given;
    match e
    case Connect =>
      HandedSnoc(w.clients, Fresh());
      assert after == before;
      Nothing<T>();
    case Receive(sock, b) =>
      assert after == before;
      AppendConserves(w, sock, b);
      TryOneConserves(Append(w, sock, b), sock);
    case Arrival(bytes, order, again) =>
      FlatSnoc(w.blocks, bytes);
      SpreadConserves(Accept(w, bytes), order, again);
  }

  lemma HandedSnoc<T>(clients: seq<Client<T>>, c: Client<T>)
    ensures HandedOut(clients + [c]) == HandedOut(clients) + Given(c.out)
  {
    assert (clients + [c])[..|clients|] == clients;
  }

  lemma Nothing<T>()
    ensures Given<T>([]) == []
  {
  }

  /** No byte is ever handed out twice: not to two clients, not twice to one, and not while it is still in the pool. */
  lemma NeverTwice<T(!new)>(events: seq<Event<T>>, e: T)
    requires multiset(Accepted(events))[e] <= 1
    ensures var w := After(events);
      && multiset(HandedOut(w.clients))[e] + multiset(Flat(w.blocks))[e] <= 1
      && (forall i, j :: 0 <= i < j < |w.clients| && e in Given(w.clients[i].out) ==> e !in Given(w.clients[j].out))
      && (forall i :: 0 <= i < |w.clients| && e in Given(w.clients[i].out) ==> e !in Flat(w.blocks))
      && (forall i :: 0 <= i < |w.clients| ==> multiset(Given(w.clients[i].out))[e] <= 1)
  {
    hide Given, Flat, After, Accepted, HandedOut;
    EntropyConserved(events);
    var w := After(events);
    forall i | 0 <= i < |w.clients|
      ensures multiset(Given(w.clients[i].out))[e] <= multiset(HandedOut(w.clients))[e]
    {
      HandedPart(w.clients, i, e);
    }
    forall i, j | 0 <= i < j < |w.clients| && e in Given(w.clients[i].out)
      ensures e !in Given(w.clients[j].out)
    {
      HandedTwo(w.clients, i, j, e);
    }
  }

  lemma {:induction false} HandedPart<T>(clients: seq<Client<T>>, i: nat, e: T)
    requires i < |clients|
    ensures multiset(Given(clients[i].out))[e] <= multiset(HandedOut(clients))[e]
  {
    hide Given;
    if i < |clients| - 1 {
      HandedPart(clients[..|clients| - 1], i, e);
    }
  }

  lemma {:induction false} HandedTwo<T>(clients: seq<Client<T>>, i: nat, j: nat, e: T)
    requires i < j < |clients|
    ensures multiset(Given(clients[i].out))[e] + multiset(Given(clients[j].out))[e] <= multiset(HandedOut(clients))[e]
  {
    hide Given;
    if j < |clients| - 1 {
      HandedTwo(clients[..|clients| - 1], i, j, e);
    } else {
      HandedPart(clients[..j], i, e);
    }
  }
}
