// The poll set (host/fds.c): parallel arrays from which entries are removed by moving the last one into the gap, even
// by a callback while the arrays are being walked.

module PollSet {
  const MAX_FDS: nat := 256

  type mask = bv16

  /** A registration: a descriptor, the events it waits for, and what to call. `D` is a callback with its data. */
  datatype Reg<D> = Reg(fd: int, events: mask, ent: D)

  /** One callback: with which descriptor, which events, and whose data. */
  datatype Call<D> = Call(fd: int, revents: mask, ent: D)

  /** What a callback may do to the set: change events of any descriptor, and remove its own. */
  datatype Change = Set(fd: int, events: mask) | Clear(fd: int, events: mask)

  datatype Reaction = Reaction(changes: seq<Change>, leave: bool)

  // ----- registrations as values -----

  ghost predicate Distinct<D>(regs: seq<Reg<D>>) {
    forall i, j :: 0 <= i < j < |regs| ==> regs[i].fd != regs[j].fd
  }

  ghost predicate Registered<D>(regs: seq<Reg<D>>, fd: int) {
    exists i :: 0 <= i < |regs| && regs[i].fd == fd
  }

  /** `regs` without the entry at `i`: the last one takes its place. */
  function SwapOut<D>(regs: seq<Reg<D>>, i: nat): (r: seq<Reg<D>>)
    requires i < |regs|
    ensures |r| == |regs| - 1
  {
    regs[i := regs[|regs| - 1]][..|regs| - 1]
  }

  /** The removal loop from position `i` on. An entry that has just been moved in is not looked at again. */
  function RemovedFrom<D>(regs: seq<Reg<D>>, fd: int, i: nat): seq<Reg<D>>
    decreases |regs| - i
  {
    if i >= |regs| then regs
    else if regs[i].fd == fd then RemovedFrom(SwapOut(regs, i), fd, i + 1)
    else RemovedFrom(regs, fd, i + 1)
  }

  function Removed<D>(regs: seq<Reg<D>>, fd: int): seq<Reg<D>> {
    RemovedFrom(regs, fd, 0)
  }

  lemma {:induction false} RemoveMissing<D>(regs: seq<Reg<D>>, fd: int, i: nat)
    requires forall j :: i <= j < |regs| ==> regs[j].fd != fd
    ensures RemovedFrom(regs, fd, i) == regs
    decreases |regs| - i
  {
    if i < |regs| {
      RemoveMissing(regs, fd, i + 1);
    }
  }

  lemma {:induction false} RemoveFound<D>(regs: seq<Reg<D>>, i: nat, k: nat)
    requires Distinct(regs) && i <= k < |regs|
    ensures RemovedFrom(regs, regs[k].fd, i) == SwapOut(regs, k)
    decreases k - i
  {
    if i < k {
      RemoveFound(regs, i + 1, k);
    } else {
      RemoveMissing(SwapOut(regs, k), regs[k].fd, k + 1);
    }
  }

  /** Of distinct descriptors, exactly the one asked for goes; the others keep their events and their callbacks. */
  lemma RemoveOne<D>(regs: seq<Reg<D>>, fd: int)
    requires Distinct(regs)
    ensures var rs := Removed(regs, fd);
      && Distinct(rs) && !Registered(rs, fd)
      && |rs| == (if Registered(regs, fd) then |regs| - 1 else |regs|)
      && (forall r :: r in rs <==> r in regs && r.fd != fd)
  {
    if Registered(regs, fd) {
      var k :| 0 <= k < |regs| && regs[k].fd == fd;
      RemoveFound(regs, 0, k);
      SwapOutMembers(regs, k);
    } else {
      RemoveMissing(regs, fd, 0);
    }
  }

  lemma SwapOutMembers<D>(regs: seq<Reg<D>>, k: nat)
    requires Distinct(regs) && k < |regs|
    ensures var rs := SwapOut(regs, k);
      && Distinct(rs)
      && (forall r :: r in rs <==> r in regs && r.fd != regs[k].fd)
  {
    var n := |regs| - 1;
    var rs := SwapOut(regs, k);
    forall r | r in regs && r.fd != regs[k].fd
      ensures r in rs
    {
      var i :| 0 <= i < |regs| && regs[i] == r;
      assert i < n ==> rs[i] == r;
      assert i == n ==> rs[k] == r;
    }
  }

  // ----- registered more than once -----

  /** How often a descriptor is registered. */
  function Occurrences<D>(regs: seq<Reg<D>>, fd: int): nat {
    if regs == [] then 0
    else Occurrences(regs[..|regs| - 1], fd) + (if regs[|regs| - 1].fd == fd then 1 else 0)
  }

  /** How many entries stand behind the last one of a descriptor. */
  function Behind<D>(regs: seq<Reg<D>>, fd: int): nat {
    if regs == [] || regs[|regs| - 1].fd == fd then 0 else Behind(regs[..|regs| - 1], fd) + 1
  }

  /** A descriptor is counted exactly if it is registered. */
  lemma {:induction false} OccurrencesPositive<D>(regs: seq<Reg<D>>, fd: int)
    ensures Occurrences(regs, fd) > 0 <==> Registered(regs, fd)
  {
    if regs != [] {
      var n := |regs| - 1;
      OccurrencesPositive(regs[..n], fd);
      forall j | 0 <= j < n
        ensures regs[j].fd == regs[..n][j].fd
      {
      }
    }
  }

  /** Overwriting the first of a descriptor's entries counts one less, and leaves alone what stands behind the last. */
  lemma {:induction false} Overwrite<D>(regs: seq<Reg<D>>, i: nat, r: Reg<D>, fd: int)
    requires i < |regs| && regs[i].fd == fd && r.fd != fd
    requires forall j :: 0 <= j < i ==> regs[j].fd != fd
    ensures Occurrences(regs[i := r], fd) == Occurrences(regs, fd) - 1
    ensures Occurrences(regs, fd) > 1 ==> Behind(regs[i := r], fd) == Behind(regs, fd)
  {
    var n := |regs| - 1;
    if i < n {
      assert regs[i := r][..n] == regs[..n][i := r];
      Overwrite(regs[..n], i, r, fd);
    } else {
      assert regs[i := r][..n] == regs[..n];
      OccurrencesPositive(regs[..n], fd);
    }
  }

  /** An entry the loop has passed stays. */
  lemma {:induction false} PassedStays<D>(regs: seq<Reg<D>>, fd: int, i: nat, j: nat)
    requires j < i && j < |regs| && regs[j].fd == fd
    ensures Registered(RemovedFrom(regs, fd, i), fd)
    decreases |regs| - i
  {
    if i < |regs| {
      PassedStays(if regs[i].fd == fd then SwapOut(regs, i) else regs, fd, i + 1, j);
    }
  }

  lemma {:induction false} RemovedFromIff<D>(regs: seq<Reg<D>>, fd: int, i: nat)
    requires forall j :: 0 <= j < i && j < |regs| ==> regs[j].fd != fd
    ensures Registered(RemovedFrom(regs, fd, i), fd) <==> Occurrences(regs, fd) >= Behind(regs, fd) + 2
    decreases |regs| - i
  {
    OccurrencesPositive(regs, fd);
    if i >= |regs| {
      return;
    }
    var n := |regs| - 1;
    var last := regs[n];
    if regs[i].fd != fd {
      RemovedFromIff(regs, fd, i + 1);
    } else if last.fd == fd {
      OccurrencesPositive(regs[..n], fd);
      if i < n {
        assert regs[..n][i].fd == fd;
        PassedStays(SwapOut(regs, i), fd, i + 1, i);
      } else {
        RemoveMissing(SwapOut(regs, i), fd, i + 1);
      }
    } else {
      assert SwapOut(regs, i) == regs[..n][i := last];
      Overwrite(regs[..n], i, last, fd);
      RemovedFromIff(SwapOut(regs, i), fd, i + 1);
    }
  }

  /**
   * A descriptor is still registered after its removal exactly if its entries outnumber those behind the last one of
   * them by two or more: each gap is filled from behind, and what fills it is not looked at again.
   */
  lemma RemoveIff<D>(regs: seq<Reg<D>>, fd: int)
    ensures Registered(Removed(regs, fd), fd) <==> Occurrences(regs, fd) >= Behind(regs, fd) + 2
  {
    RemovedFromIff(regs, fd, 0);
  }

  /** However often anything is registered, removal neither loses nor repeats an entry of another descriptor. */
  lemma {:induction false} OthersStay<D>(regs: seq<Reg<D>>, fd: int, i: nat, r: Reg<D>)
    requires r.fd != fd
    ensures multiset(RemovedFrom(regs, fd, i))[r] == multiset(regs)[r]
    decreases |regs| - i
  {
    if i < |regs| {
      var n := |regs| - 1;
      if regs[i].fd == fd {
        assert regs == regs[..n] + [regs[n]];
        OthersStay(SwapOut(regs, i), fd, i + 1, r);
        if i < n {
          assert SwapOut(regs, i) == regs[..n][i := regs[n]];
        }
      } else {
        OthersStay(regs, fd, i + 1, r);
      }
    }
  }

  function NewEvents(events: mask, c: Change): mask {
    if c.Set? then BitsSet(events, c.events) else BitsCleared(events, c.events)
  }

  function BitsSet(a: mask, e: mask): mask { a | e }
  function BitsCleared(a: mask, e: mask): mask { a & !e }

  function Changed<D>(r: Reg<D>, c: Change): (s: Reg<D>)
    ensures s.fd == r.fd && s.ent == r.ent
  {
    if r.fd != c.fd then r else r.(events := NewEvents(r.events, c))
  }

  function ChangeAll<D>(regs: seq<Reg<D>>, c: Change): (r: seq<Reg<D>>)
    ensures |r| == |regs|
  {
    seq(|regs|, i requires 0 <= i < |regs| => Changed(regs[i], c))
  }

  /** Setting and then clearing events of one descriptor leaves those events clear and all others as they were. */
  lemma SetClear<D>(r: Reg<D>, events: mask)
    ensures Changed(Changed(r, Set(r.fd, events)), Clear(r.fd, events)) == Changed(r, Clear(r.fd, events))
  {
    hide NewEvents;
    Masks(r.events, r.fd, events);
  }

  lemma Masks(a: mask, fd: int, b: mask)
    ensures NewEvents(NewEvents(a, Set(fd, b)), Clear(fd, b)) == NewEvents(a, Clear(fd, b))
  {
    hide BitsSet, BitsCleared;
    SetThenCleared(a, b);
  }

  lemma SetThenCleared(a: mask, b: mask)
    ensures BitsCleared(BitsSet(a, b), b) == BitsCleared(a, b)
  {
    assert BitsCleared(a | b, b) == a & !b;
  }

  /** Of the events `e` just `on` are left in `now`, and the others are as they were. */
  predicate Only(was: mask, now: mask, e: mask, on: mask) {
    now & e == on && now & !e == was & !e
  }

  /** Setting sets the events asked for, clearing clears them, and neither touches the others. */
  predicate Applied(was: mask, now: mask, c: Change) {
    Only(was, now, c.events, if c.Set? then c.events else 0)
  }

  lemma SetsAndClears(a: mask, c: Change)
    ensures Applied(a, NewEvents(a, c), c)
  {
    hide Only, BitsSet, BitsCleared;
    if c.Set? {
      Covered(a, c.events);
    } else {
      Wiped(a, c.events);
    }
  }

  lemma Covered(a: mask, e: mask)
    ensures Only(a, BitsSet(a, e), e, e)
  {
    hide BitsSet;
    Kept(a, e);
    Uncovered(a, e);
  }

  lemma Kept(a: mask, e: mask)
    ensures BitsSet(a, e) & e == e
  {
  }

  lemma Uncovered(a: mask, e: mask)
    ensures BitsSet(a, e) & !e == a & !e
  {
  }

  lemma Wiped(a: mask, e: mask)
    ensures Only(a, BitsCleared(a, e), e, 0)
  {
    hide BitsCleared;
    Gone(a, e);
    Same(a, e);
  }

  lemma Gone(a: mask, e: mask)
    ensures BitsCleared(a, e) & e == 0
  {
  }

  lemma Same(a: mask, e: mask)
    ensures BitsCleared(a, e) & !e == a & !e
  {
  }

  // ----- a round of calls -----

  /** The call due for entry `j`. */
  function CallAt<D>(regs: seq<Reg<D>>, revents: seq<mask>, j: nat): Call<D>
    requires j < |regs| && j < |revents|
  {
    Call(regs[j].fd, revents[j], regs[j].ent)
  }

  ghost predicate Due<D>(c: Call<D>, regs: seq<Reg<D>>, revents: seq<mask>, j: nat) {
    && j < |regs| && j < |revents| && revents[j] != 0
    && c.fd == regs[j].fd && c.revents == revents[j] && c.ent == regs[j].ent
  }

  /** The calls due for the first `m` entries, in order. */
  function Ready<D>(regs: seq<Reg<D>>, revents: seq<mask>, m: nat): (calls: seq<Call<D>>)
    requires m <= |regs| && m <= |revents|
    ensures |calls| <= m
  {
    if m == 0 then []
    else if revents[m - 1] != 0 then Ready(regs, revents, m - 1) + [CallAt(regs, revents, m - 1)]
    else Ready(regs, revents, m - 1)
  }

  lemma {:induction false} ReadyGrows<D>(regs: seq<Reg<D>>, revents: seq<mask>, m: nat, n: nat)
    requires m <= n <= |regs| && n <= |revents|
    ensures |Ready(regs, revents, m)| <= |Ready(regs, revents, n)|
    ensures |Ready(regs, revents, m)| == |Ready(regs, revents, n)| ==>
      Ready(regs, revents, m) == Ready(regs, revents, n)
  {
    if m < n {
      ReadyGrows(regs, revents, m, n - 1);
    }
  }

  lemma {:induction false} ReadyIsDue<D>(regs: seq<Reg<D>>, revents: seq<mask>, m: nat, a: nat) returns (j: nat)
    requires m <= |regs| && m <= |revents| && a < |Ready(regs, revents, m)|
    ensures j < m && Due(Ready(regs, revents, m)[a], regs, revents, j)
  {
    if a < |Ready(regs, revents, m - 1)| {
      j := ReadyIsDue(regs, revents, m - 1, a);
    } else {
      j := m - 1;
    }
  }

  lemma {:induction false} DueIsReady<D>(regs: seq<Reg<D>>, revents: seq<mask>, m: nat, j: nat)
    requires j < m <= |regs| && m <= |revents| && revents[j] != 0
    ensures CallAt(regs, revents, j) in Ready(regs, revents, m)
  {
    if j < m - 1 {
      DueIsReady(regs, revents, m - 1, j);
    }
  }

  /** Of distinct descriptors none is called twice, and those of the first `m` entries are not called for others. */
  lemma {:induction false} ReadyOnce<D>(regs: seq<Reg<D>>, revents: seq<mask>, m: nat)
    requires m <= |regs| && m <= |revents| && Distinct(regs)
    ensures forall a, b :: 0 <= a < b < |Ready(regs, revents, m)| ==>
      Ready(regs, revents, m)[a].fd != Ready(regs, revents, m)[b].fd
    ensures forall a, j :: 0 <= a < |Ready(regs, revents, m)| && m <= j < |regs| ==>
      Ready(regs, revents, m)[a].fd != regs[j].fd
  {
    var calls := Ready(regs, revents, m);
    if m > 0 {
      ReadyOnce(regs, revents, m - 1);
      var front := Ready(regs, revents, m - 1);
      assert calls == front || calls == front + [CallAt(regs, revents, m - 1)];
      assert forall a :: 0 <= a < |front| ==> calls[a] == front[a] && front[a].fd != regs[m - 1].fd;
    }
    forall a, j | 0 <= a < |calls| && m <= j < |regs|
      ensures calls[a].fd != regs[j].fd
    {
      var i := ReadyIsDue(regs, revents, m, a);
    }
  }

  /** Which descriptor belongs to which callback. */
  ghost function Owners<D>(regs: seq<Reg<D>>): set<(int, D)> {
    set r | r in regs :: (r.fd, r.ent)
  }

  /** The descriptors whose callbacks asked to leave. */
  ghost function Left<D>(calls: seq<Call<D>>, react: int -> Reaction): set<int> {
    set c | c in calls && react(c.fd).leave :: c.fd
  }

  ghost function Without<D>(owners: set<(int, D)>, left: set<int>): set<(int, D)> {
    set o | o in owners && o.0 !in left
  }

  /** A descriptor that was ready but whose turn did not come is still registered, with its own callback. */
  lemma MissedStays<D>(regs: seq<Reg<D>>, revents: seq<mask>, upto: nat, j: nat, react: int -> Reaction)
    requires Distinct(regs) && upto <= j < |regs| && |revents| == |regs|
    ensures (regs[j].fd, regs[j].ent) in Without(Owners(regs), Left(Ready(regs, revents, upto), react))
  {
    ReadyOnce(regs, revents, upto);
    assert regs[j] in regs;
  }

  lemma OwnersRemoved<D>(regs: seq<Reg<D>>, fd: int)
    requires Distinct(regs)
    ensures Owners(Removed(regs, fd)) == Without(Owners(regs), {fd})
  {
    RemoveOne(regs, fd);
    var rs := Removed(regs, fd);
    forall o | o in Without(Owners(regs), {fd})
      ensures o in Owners(rs)
    {
      var r :| r in regs && o == (r.fd, r.ent);
      assert r in rs;
    }
    forall o | o in Owners(rs)
      ensures o in Without(Owners(regs), {fd})
    {
      var r :| r in rs && o == (r.fd, r.ent);
      assert r in regs;
    }
  }

  lemma OwnersChanged<D>(regs: seq<Reg<D>>, c: Change)
    ensures Owners(ChangeAll(regs, c)) == Owners(regs)
  {
    var rs := ChangeAll(regs, c);
    forall o | o in Owners(regs)
      ensures o in Owners(rs)
    {
      var r :| r in regs && o == (r.fd, r.ent);
      var i :| 0 <= i < |regs| && regs[i] == r;
      assert rs[i] in rs;
    }
    forall o | o in Owners(rs)
      ensures o in Owners(regs)
    {
      var r :| r in rs && o == (r.fd, r.ent);
      var i :| 0 <= i < |rs| && rs[i] == r;
      assert regs[i] in regs;
    }
  }
}
