// host/fds.c in its own form: two arrays of structures and a counter.

module PollTable {
  import opened PollSet

  datatype PollFd = PollFd(fd: int, events: mask, revents: mask)

  class Table<D> {
    const pollfd: array<PollFd>
    const funcs: array<D>
    var lastfd: nat

    ghost predicate Valid()
      reads this
    {
      pollfd.Length == MAX_FDS && funcs.Length == MAX_FDS && lastfd <= MAX_FDS
      && pollfd as object != funcs as object
    }

    ghost function Regs(): (regs: seq<Reg<D>>)
      requires Valid()
      reads this, pollfd, funcs
      ensures |regs| == lastfd
      ensures forall i :: 0 <= i < lastfd ==> regs[i] == Reg(pollfd[i].fd, pollfd[i].events, funcs[i])
    {
      seq(lastfd, i requires 0 <= i < lastfd && Valid() reads this, pollfd, funcs =>
        Reg(pollfd[i].fd, pollfd[i].events, funcs[i]))
    }

    constructor (none: D)
      ensures Valid() && Regs() == [] && fresh(pollfd) && fresh(funcs)
    {
      var entries := new PollFd[MAX_FDS](_ => PollFd(0, 0, 0));
      var callbacks := new D[MAX_FDS](_ => none);
      pollfd, funcs := entries, callbacks;
      lastfd := 0;
    }

    /** `ekeyfd_add`. Nothing checks that there is room. */
    method Add(fd: int, events: mask, ent: D) returns (count: nat)
      requires Valid() && lastfd < MAX_FDS
      modifies this, pollfd, funcs
      ensures Valid() && Regs() == old(Regs()) + [Reg(fd, events, ent)] && count == lastfd
    {
      pollfd[lastfd] := pollfd[lastfd].(fd := fd, events := events);
      funcs[lastfd] := ent;
      lastfd := lastfd + 1;
      count := lastfd;
    }

    method Move(from: nat, to: nat)
      requires Valid() && from < MAX_FDS && to < MAX_FDS
      modifies pollfd, funcs
      ensures pollfd[to] == old(pollfd[from]).(revents := old(pollfd[to]).revents) && funcs[to] == old(funcs[from])
      ensures forall i :: 0 <= i < MAX_FDS && i != to ==> pollfd[i] == old(pollfd[i]) && funcs[i] == old(funcs[i])
    {
      pollfd[to] := pollfd[to].(fd := pollfd[from].fd);
      pollfd[to] := pollfd[to].(events := pollfd[from].events);
      funcs[to] := funcs[from];
    }

    /** `ekeyfd_rm`. The `revents` of the entry that is moved stay behind. */
    method Rm(fd: int)
      requires Valid()
      modifies this, pollfd, funcs
      ensures Valid() && Regs() == Removed(old(Regs()), fd)
      ensures forall i :: 0 <= i < MAX_FDS ==> pollfd[i].revents == old(pollfd[i].revents)
    {
      var fdloop := 0;
      while fdloop < lastfd
        invariant Valid() && 0 <= fdloop
        invariant RemovedFrom(Regs(), fd, fdloop) == Removed(old(Regs()), fd)
        invariant forall i :: 0 <= i < MAX_FDS ==> pollfd[i].revents == old(pollfd[i].revents)
        decreases MAX_FDS - fdloop
      {
        ghost var regs := Regs();
        if pollfd[fdloop].fd == fd {
          lastfd := lastfd - 1;
          if fdloop != lastfd {
            Move(lastfd, fdloop);
          }
          assert Regs() == SwapOut(regs, fdloop);
        }
        fdloop := fdloop + 1;
      }
    }

    /** `ekeyfd_set_events` and `ekeyfd_clear_events`. */
    method Change(c: Change)
      requires Valid()
      modifies pollfd
      ensures Regs() == ChangeAll(old(Regs()), c)
      ensures forall i :: 0 <= i < lastfd ==>
        var r, was := Regs()[i], old(Regs())[i];
        && r.fd == was.fd && r.ent == was.ent
        && (if was.fd == c.fd then Applied(was.events, r.events, c) else r.events == was.events)
      ensures forall i :: 0 <= i < MAX_FDS ==> pollfd[i].revents == old(pollfd[i].revents)
    {
      hide NewEvents, Applied, Only;
      ghost var regs := Regs();
      for fdloop := 0 to lastfd
        invariant forall i :: 0 <= i < MAX_FDS ==> pollfd[i].revents == old(pollfd[i].revents)
        invariant forall i :: 0 <= i < lastfd ==> Regs()[i] == if i < fdloop then Changed(regs[i], c) else regs[i]
      {
        if pollfd[fdloop].fd == c.fd {
          pollfd[fdloop] := pollfd[fdloop].(events := NewEvents(pollfd[fdloop].events, c));
        }
      }
      assert Regs() == ChangeAll(regs, c);
      forall i | 0 <= i < lastfd {
        SetsAndClears(regs[i].events, c);
      }
    }

    /** What the callback of `fd` does to the set. */
    method React(fd: int, r: Reaction)
      requires Valid() && Distinct(Regs())
      modifies this, pollfd, funcs
      ensures Valid() && Distinct(Regs())
      ensures Owners(Regs()) == if r.leave then Without(old(Owners(Regs())), {fd}) else old(Owners(Regs()))
      ensures forall i :: 0 <= i < MAX_FDS ==> pollfd[i].revents == old(pollfd[i].revents)
      ensures lastfd == old(lastfd) - (if r.leave && Registered(old(Regs()), fd) then 1 else 0)
      ensures forall k :: 0 <= k < lastfd && !(r.leave && k < old(lastfd) && old(Regs())[k].fd == fd) ==>
        Regs()[k].fd == old(Regs())[k].fd && Regs()[k].ent == old(Regs())[k].ent
    {
      ghost var regs := Regs();
      var i := 0;
      while i < |r.changes|
        invariant 0 <= i <= |r.changes| && Valid() && lastfd == old(lastfd)
        invariant Owners(Regs()) == Owners(regs)
        invariant forall k :: 0 <= k < lastfd ==> Regs()[k].fd == regs[k].fd && Regs()[k].ent == regs[k].ent
        invariant forall k :: 0 <= k < MAX_FDS ==> pollfd[k].revents == old(pollfd[k].revents)
      {
        OwnersChanged(Regs(), r.changes[i]);
        Change(r.changes[i]);
        i := i + 1;
      }
      if r.leave {
        ghost var now := Regs();
        Leaving(regs, now, fd);
        Rm(fd);
      }
    }

    /** What `poll(2)` writes. */
    method StoreEvents(revents: seq<mask>)
      requires Valid() && |revents| == lastfd
      modifies pollfd
      ensures Regs() == old(Regs())
      ensures forall i :: 0 <= i < lastfd ==> pollfd[i].revents == revents[i]
    {
      ghost var regs := Regs();
      for i := 0 to lastfd
        invariant Regs() == regs
        invariant forall k :: 0 <= k < i ==> pollfd[k].revents == revents[k]
      {
        pollfd[i] := pollfd[i].(revents := revents[i]);
      }
    }

    /**
      * `ekeyfd_poll`. `ret` and `revents` are the kernel's answer, `react` says what each callback does to the set.
      * The callbacks made are those that were due among the first `upto` entries, each once and with its own
      * descriptor, events and data; none that is left in the set up to there has been passed over.
      */
    method Poll(ret: int, revents: seq<mask>, react: int -> Reaction)
      returns (rdy: int, calls: seq<Call<D>>, ghost upto: nat)
      requires Valid() && Distinct(Regs()) && |revents| == lastfd
      requires ret > 0 ==> ret == |Ready(Regs(), revents, lastfd)|
      modifies this, pollfd, funcs
      ensures Valid() && rdy == (if old(lastfd) == 0 then 0 else ret)
      ensures rdy <= 0 ==> calls == [] && Regs() == old(Regs())
      ensures upto <= old(lastfd) && (rdy > 0 ==> calls == Ready(old(Regs()), revents, upto))
      ensures rdy > 0 ==> lastfd <= upto || calls == Ready(old(Regs()), revents, old(lastfd))
      ensures Distinct(Regs()) && Owners(Regs()) == Without(old(Owners(Regs())), Left(calls, react))
      ensures lastfd + |Left(calls, react)| == old(lastfd)
    {
      hide Left, Without, Owners, Ready;
      ghost var regs := Regs();
      calls, upto := [], 0;
      NobodyLeft(regs, revents, react);
      if lastfd == 0 {
        return 0, [], 0;
      }
      rdy := ret;
      StoreEvents(revents);
      if rdy > 0 {
        var fdcnt, fdloop := 0, 0;
        while fdcnt < rdy && fdloop < lastfd
          invariant Valid() && Distinct(Regs()) && 0 <= fdloop <= |regs| && lastfd <= |regs|
          invariant fdcnt == |calls| && calls == Ready(regs, revents, fdloop)
          invariant forall j :: fdloop <= j < |regs| ==> pollfd[j].revents == revents[j]
          invariant forall j :: fdloop <= j < lastfd ==> Regs()[j].fd == regs[j].fd && Regs()[j].ent == regs[j].ent
          invariant Owners(Regs()) == Without(Owners(regs), Left(calls, react))
          invariant lastfd + |Left(calls, react)| == |regs|
          decreases |regs| - fdloop
        {
          NextReady(regs, revents, fdloop);
          if pollfd[fdloop].revents != 0 {
            fdcnt := fdcnt + 1;
            var c := Call(pollfd[fdloop].fd, pollfd[fdloop].revents, funcs[fdloop]);
            assert c == CallAt(regs, revents, fdloop);
            ReadyOnce(regs, revents, fdloop);
            OneMoreCall(Owners(regs), calls, c, react);
            React(c.fd, react(c.fd));
            calls := calls + [c];
          }
          fdloop := fdloop + 1;
        }
        upto := fdloop;
        ReadyGrows(regs, revents, upto, |regs|);
      }
    }
  }

  lemma NobodyLeft<D>(regs: seq<Reg<D>>, revents: seq<mask>, react: int -> Reaction)
    requires |revents| == |regs|
    ensures Ready(regs, revents, 0) == [] && Left<D>([], react) == {}
    ensures Without(Owners(regs), {}) == Owners(regs)
  {
  }

  lemma NextReady<D>(regs: seq<Reg<D>>, revents: seq<mask>, m: nat)
    requires m < |regs| && |revents| == |regs|
    ensures Ready(regs, revents, m + 1)
      == if revents[m] != 0 then Ready(regs, revents, m) + [CallAt(regs, revents, m)] else Ready(regs, revents, m)
  {
  }

  lemma OneMoreCall<D>(owners: set<(int, D)>, calls: seq<Call<D>>, c: Call<D>, react: int -> Reaction)
    requires forall a :: 0 <= a < |calls| ==> calls[a].fd != c.fd
    ensures var left, more := Left(calls, react), Left(calls + [c], react);
      if react(c.fd).leave then more == left + {c.fd} && c.fd !in left
        && Without(owners, more) == Without(Without(owners, left), {c.fd})
      else more == left
  {
    var left, more := Left(calls, react), Left(calls + [c], react);
    forall fd | fd in left
      ensures fd in more
    {
      var d :| d in calls && react(d.fd).leave && d.fd == fd;
      assert d in calls + [c];
    }
    if react(c.fd).leave {
      assert c in calls + [c];
    }
  }

  lemma Leaving<D>(regs: seq<Reg<D>>, now: seq<Reg<D>>, fd: int)
    requires Distinct(regs) && |now| == |regs|
    requires forall k :: 0 <= k < |regs| ==> now[k].fd == regs[k].fd && now[k].ent == regs[k].ent
    ensures Distinct(now) && Distinct(Removed(now, fd)) && Owners(Removed(now, fd)) == Without(Owners(now), {fd})
    ensures |Removed(now, fd)| == |regs| - (if Registered(regs, fd) then 1 else 0)
    ensures forall k :: 0 <= k < |Removed(now, fd)| && regs[k].fd != fd ==>
      Removed(now, fd)[k].fd == regs[k].fd && Removed(now, fd)[k].ent == regs[k].ent
  {
    RemoveOne(now, fd);
    OwnersRemoved(now, fd);
    if Registered(regs, fd) {
      var k :| 0 <= k < |regs| && regs[k].fd == fd;
      assert now[k].fd == fd;
      RemoveFound(now, 0, k);
    } else {
      RemoveMissing(now, fd, 0);
    }
  }
}
