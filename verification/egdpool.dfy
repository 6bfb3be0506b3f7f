// The entropy pool of the EGD server (host/control.lua): a list of blocks, bounded in total size.
//
// Entropy bytes are values of an arbitrary type `T`, so that they can carry an identity.

module EgdPool {
  const MAX_ENTROPY: nat := 1024 * 1024

  function Flat<T>(blocks: seq<seq<T>>): seq<T> {
    if blocks == [] then [] else blocks[0] + Flat(blocks[1..])
  }

  function Size<T>(blocks: seq<seq<T>>): nat {
    |Flat(blocks)|
  }

  lemma {:induction false} FlatSnoc<T>(blocks: seq<seq<T>>, b: seq<T>)
    ensures Flat(blocks + [b]) == Flat(blocks) + b
  {
    if blocks == [] {
      assert blocks + [b] == [b] && Flat([b]) == b + Flat([b][1..]);
    } else {
      assert (blocks + [b])[1..] == blocks[1..] + [b];
      FlatSnoc(blocks[1..], b);
    }
  }

  lemma FlatLast<T>(blocks: seq<seq<T>>)
    requires blocks != []
    ensures Flat(blocks) == Flat(blocks[..|blocks| - 1]) + blocks[|blocks| - 1]
  {
    var front, last := blocks[..|blocks| - 1], blocks[|blocks| - 1];
    assert blocks == front + [last];
    FlatSnoc(front, last);
  }

  datatype Dequeued<T> = Dequeued(taken: seq<T>, rest: seq<seq<T>>)

  /** Taking `n` bytes: whole blocks from the end of the list, then the front part of one more. */
  function Take<T>(blocks: seq<seq<T>>, n: nat): (d: Dequeued<T>)
    decreases |blocks|
  {
    if n == 0 || Size(blocks) == 0 || blocks == [] then Dequeued([], blocks)
    else
      var front, last := blocks[..|blocks| - 1], blocks[|blocks| - 1];
      if |last| <= n then
        var d := Take(front, n - |last|);
        Dequeued(last + d.taken, d.rest)
      else Dequeued(last[..n], front + [last[n..]])
  }

  lemma TakeWhole<T>(blocks: seq<seq<T>>, n: nat)
    requires n > 0 && Size(blocks) > 0 && blocks != [] && |blocks[|blocks| - 1]| <= n
    ensures var last := blocks[|blocks| - 1];
      var d := Take(blocks[..|blocks| - 1], n - |last|);
      Take(blocks, n) == Dequeued(last + d.taken, d.rest)
  {
  }

  lemma TakePart<T>(blocks: seq<seq<T>>, n: nat)
    requires n > 0 && blocks != [] && n < |blocks[|blocks| - 1]|
    ensures Size(blocks) > 0
    ensures var front, last := blocks[..|blocks| - 1], blocks[|blocks| - 1];
      Take(blocks, n) == Dequeued(last[..n], front + [last[n..]])
  {
    FlatLast(blocks);
  }

  ghost predicate Conserved<T>(blocks: seq<seq<T>>, n: nat, d: Dequeued<T>) {
    && |d.taken| == (if n <= Size(blocks) then n else Size(blocks))
    && Size(d.rest) == Size(blocks) - |d.taken|
    && multiset(Flat(blocks)) == multiset(d.taken) + multiset(Flat(d.rest))
  }

  /** A request gets exactly what it asks for, or all there is; nothing is invented and nothing lost. */
  lemma {:induction false} TakeConserves<T>(blocks: seq<seq<T>>, n: nat)
    ensures Conserved(blocks, n, Take(blocks, n))
    decreases |blocks|
  {
    hide Flat, Take;
    if n == 0 || Size(blocks) == 0 || blocks == [] {
      TakeNothing(blocks, n);
    } else {
      var front, last := blocks[..|blocks| - 1], blocks[|blocks| - 1];
      FlatLast(blocks);
      if |last| <= n {
        TakeConserves(front, n - |last|);
        TakeWhole(blocks, n);
      } else {
        TakePart(blocks, n);
        FlatSnoc(front, last[n..]);
        assert last == last[..n] + last[n..];
      }
    }
  }

  /** The pool as it is handed out: the youngest block first. */
  function Backward<T>(blocks: seq<seq<T>>): seq<T> {
    if blocks == [] then [] else blocks[|blocks| - 1] + Backward(blocks[..|blocks| - 1])
  }

  lemma {:induction false} BackwardSize<T>(blocks: seq<seq<T>>)
    ensures |Backward(blocks)| == Size(blocks)
  {
    hide Flat;
    if blocks == [] {
      NoBlocks<T>();
    } else {
      FlatLast(blocks);
      BackwardSize(blocks[..|blocks| - 1]);
    }
  }

  lemma NoBlocks<T>()
    ensures Flat<T>([]) == []
  {
  }

  /** What is taken is the front of that, and what is left its rest. */
  lemma {:induction false} TakeIsFront<T>(blocks: seq<seq<T>>, n: nat)
    ensures var d, all := Take(blocks, n), Backward(blocks);
      if n <= |all| then d.taken == all[..n] && Backward(d.rest) == all[n..]
      else d.taken == all && Backward(d.rest) == []
    decreases |blocks|
  {
    hide Flat, Take;
    BackwardSize(blocks);
    if n == 0 || Size(blocks) == 0 || blocks == [] {
      TakeNothing(blocks, n);
    } else {
      var front, last := blocks[..|blocks| - 1], blocks[|blocks| - 1];
      if |last| <= n {
        TakeIsFront(front, n - |last|);
        TakeWhole(blocks, n);
      } else {
        TakePart(blocks, n);
        assert (front + [last[n..]])[..|front|] == front;
      }
    }
  }

  lemma NotEmpty<T>(blocks: seq<seq<T>>)
    requires Size(blocks) > 0
    ensures blocks != []
  {
  }

  lemma TakeNothing<T>(blocks: seq<seq<T>>, n: nat)
    requires n == 0 || Size(blocks) == 0 || blocks == []
    ensures Take(blocks, n) == Dequeued([], blocks) && (blocks == [] ==> Flat(blocks) == [])
  {
  }

  class Pool<T> {
    var blocks: seq<seq<T>>
    var total: nat

    constructor ()
      ensures Valid() && blocks == []
    {
      blocks, total := [], 0;
    }

    ghost predicate Valid()
      reads this
    {
      total == Size(blocks) && total <= MAX_ENTROPY
    }

    /** `enqueue_entropy`: bytes that do not fit are dropped as a whole. */
    method Enqueue(bytes: seq<T>) returns (ok: bool)
      requires Valid()
      modifies this
      ensures Valid() && ok == (old(total) + |bytes| <= MAX_ENTROPY)
      ensures blocks == if ok then old(blocks) + [bytes] else old(blocks)
      ensures multiset(Flat(blocks)) == multiset(Flat(old(blocks))) + (if ok then multiset(bytes) else multiset{})
    {
      ok := total + |bytes| <= MAX_ENTROPY;
      FlatSnoc(blocks, bytes);
      if ok {
        blocks := blocks + [bytes];
        total := total + |bytes|;
      }
    }

    /** `dequeue_entropy`. */
    method Dequeue(nbytes: nat) returns (ret: seq<T>)
      requires Valid()
      modifies this
      ensures Valid() && Dequeued(ret, blocks) == Take(old(blocks), nbytes)
      ensures total == Size(blocks) && Conserved(old(blocks), nbytes, Dequeued(ret, blocks))
    {
      hide Flat, Take, Conserved;
      var left := nbytes;
      ret := [];
      TakeConserves(blocks, nbytes);
      ghost var goal := Take(blocks, nbytes);
      assert [] + Take(blocks, left).taken == Take(blocks, left).taken;
      while total > 0 && left > 0
        invariant Valid() && left >= 0
        invariant goal == Dequeued(ret + Take(blocks, left).taken, Take(blocks, left).rest)
        decreases |blocks| + left
      {
        NotEmpty(blocks);
        var last := blocks[|blocks| - 1];
        FlatLast(blocks);
        if |last| <= left {
          TakeWhole(blocks, left);
          ghost var more := Take(blocks[..|blocks| - 1], left - |last|).taken;
          assert ret + (last + more) == (ret + last) + more;
          ret := ret + last;
          left := left - |last|;
          blocks := blocks[..|blocks| - 1];
          total := total - |last|;
        } else {
          TakePart(blocks, left);
          TakeNothing(blocks[..|blocks| - 1] + [last[left..]], 0);
          assert (ret + last[..left]) + [] == ret + last[..left];
          ret := ret + last[..left];
          FlatSnoc(blocks[..|blocks| - 1], last[left..]);
          total := total - left;
          blocks := blocks[..|blocks| - 1] + [last[left..]];
          left := 0;
        }
      }
      TakeNothing(blocks, left);
      assert ret + [] == ret;
    }
  }
}
