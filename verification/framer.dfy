// The resynchronising framer (host/frame.c): 64-byte windows that start "* " and end CR LF.

module Framer {
  import opened Bytes

  const FRAME_LEN: nat := 64
  const SOF0: byte := 42
  const SOF1: byte := 32
  const EOF0: byte := 13
  const EOF1: byte := 10

  predicate IsFrame(w: seq<byte>) {
    |w| == FRAME_LEN && w[0] == SOF0 && w[1] == SOF1 && w[FRAME_LEN - 2] == EOF0 && w[FRAME_LEN - 1] == EOF1
  }

  /** A frame and the stream offset it starts at. */
  datatype Located = Located(start: nat, bytes: seq<byte>)

  /** Reference: scan one byte at a time, take every frame met, go on behind it. */
  function Frames(s: seq<byte>, off: nat): (fs: seq<Located>) {
    if |s| < FRAME_LEN then []
    else if IsFrame(s[..FRAME_LEN]) then [Located(off, s[..FRAME_LEN])] + Frames(s[FRAME_LEN..], off + FRAME_LEN)
    else Frames(s[1..], off + 1)
  }

  // ----- what "greedy leftmost" means -----

  /** A frame of `s` starts at `k`. */
  predicate FrameAt(s: seq<byte>, k: nat) {
    k + FRAME_LEN <= |s| && IsFrame(WindowAt(s, k))
  }

  function WindowAt(s: seq<byte>, k: nat): seq<byte>
    requires k + FRAME_LEN <= |s|
  {
    s[k..k + FRAME_LEN]
  }

  /** Every selected window is a frame of `s`. */
  ghost predicate Selected(s: seq<byte>, off: nat, fs: seq<Located>) {
    forall i :: 0 <= i < |fs| ==> IsSelected(s, off, fs[i])
  }

  predicate IsSelected(s: seq<byte>, off: nat, f: Located) {
    off <= f.start && FrameAt(s, f.start - off) && f.bytes == WindowAt(s, f.start - off)
  }

  /** Selected windows come in order and do not overlap. */
  ghost predicate Disjoint(fs: seq<Located>) {
    forall i, j :: 0 <= i < j < |fs| ==> fs[i].start + FRAME_LEN <= fs[j].start
  }

  /** Offset `p` lies in a selected window. */
  ghost predicate Covered(fs: seq<Located>, p: nat) {
    exists i :: 0 <= i < |fs| && fs[i].start <= p < fs[i].start + FRAME_LEN
  }

  /** Greedy and leftmost: a frame of `s` that is not selected starts inside a selected one. */
  ghost predicate Greedy(s: seq<byte>, off: nat, fs: seq<Located>) {
    Selected(s, off, fs) && Disjoint(fs) && forall k: nat :: FrameAt(s, k) ==> Covered(fs, off + k)
  }

  lemma FrameAtShift(s: seq<byte>, n: nat, k: nat)
    requires n <= |s|
    ensures FrameAt(s[n..], k) == FrameAt(s, n + k)
    ensures FrameAt(s, n + k) ==> WindowAt(s[n..], k) == WindowAt(s, n + k)
  {
    if n + k + FRAME_LEN <= |s| {
      assert s[n..][k..k + FRAME_LEN] == s[n + k..n + k + FRAME_LEN];
    }
  }

  lemma FirstWindow(s: seq<byte>)
    requires |s| >= FRAME_LEN
    ensures WindowAt(s, 0) == s[..FRAME_LEN]
  {
  }

  lemma SelectedShift(s: seq<byte>, off: nat, n: nat, fs: seq<Located>)
    requires n <= |s| && Selected(s[n..], off + n, fs)
    ensures Selected(s, off, fs)
  {
    hide IsSelected;
    forall i | 0 <= i < |fs| ensures IsSelected(s, off, fs[i]) {
      OneSelectedShift(s, off, n, fs[i]);
    }
  }

  lemma OneSelectedShift(s: seq<byte>, off: nat, n: nat, f: Located)
    requires n <= |s| && IsSelected(s[n..], off + n, f)
    ensures IsSelected(s, off, f)
  {
    hide FrameAt, WindowAt;
    var k := f.start - (off + n);
    assert f.start - off == n + k;
    FrameAtShift(s, n, k);
  }

  lemma {:induction false} FramesAreSelected(s: seq<byte>, off: nat)
    ensures Selected(s, off, Frames(s, off))
  {
    hide IsFrame, IsSelected;
    if |s| >= FRAME_LEN {
      if IsFrame(s[..FRAME_LEN]) {
        FramesAreSelected(s[FRAME_LEN..], off + FRAME_LEN);
        SelectedShift(s, off, FRAME_LEN, Frames(s[FRAME_LEN..], off + FRAME_LEN));
        FirstIsSelected(s, off);
      } else {
        FramesAreSelected(s[1..], off + 1);
        SelectedShift(s, off, 1, Frames(s[1..], off + 1));
      }
    }
  }

  lemma FirstIsSelected(s: seq<byte>, off: nat)
    requires |s| >= FRAME_LEN && IsFrame(s[..FRAME_LEN])
    ensures IsSelected(s, off, Located(off, s[..FRAME_LEN]))
  {
    hide IsFrame, WindowAt;
    FirstWindow(s);
  }

  lemma {:induction false} FramesAreDisjoint(s: seq<byte>, off: nat)
    ensures Disjoint(Frames(s, off))
    ensures forall i :: 0 <= i < |Frames(s, off)| ==> off <= Frames(s, off)[i].start
  {
    hide IsFrame;
    if |s| >= FRAME_LEN {
      if IsFrame(s[..FRAME_LEN]) {
        FramesAreDisjoint(s[FRAME_LEN..], off + FRAME_LEN);
      } else {
        FramesAreDisjoint(s[1..], off + 1);
      }
    }
  }

  lemma {:induction false} FramesCover(s: seq<byte>, off: nat, k: nat)
    requires FrameAt(s, k)
    ensures Covered(Frames(s, off), off + k)
  {
    hide IsFrame, WindowAt;
    FirstWindow(s);
    if IsFrame(s[..FRAME_LEN]) {
      var fs, rest := Frames(s, off), Frames(s[FRAME_LEN..], off + FRAME_LEN);
      if k < FRAME_LEN {
        assert fs[0].start <= off + k < fs[0].start + FRAME_LEN;
      } else {
        FrameAtShift(s, FRAME_LEN, k - FRAME_LEN);
        FramesCover(s[FRAME_LEN..], off + FRAME_LEN, k - FRAME_LEN);
        var i :| 0 <= i < |rest| && rest[i].start <= off + k < rest[i].start + FRAME_LEN;
        assert fs[i + 1] == rest[i];
      }
    } else {
      FrameAtShift(s, 1, k - 1);
      FramesCover(s[1..], off + 1, k - 1);
    }
  }

  lemma FramesAreGreedy(s: seq<byte>, off: nat)
    ensures Greedy(s, off, Frames(s, off))
  {
    hide FrameAt, Frames, Selected, Disjoint;
    FramesAreSelected(s, off);
    FramesAreDisjoint(s, off);
    forall k: nat | FrameAt(s, k) ensures Covered(Frames(s, off), off + k) {
      FramesCover(s, off, k);
    }
  }

  /** If `fs` selects one more frame after a common part, `gs` selects one there too, and not a later one. */
  lemma NextGreedy(s: seq<byte>, off: nat, fs: seq<Located>, gs: seq<Located>, n: nat)
    requires Greedy(s, off, fs) && Greedy(s, off, gs) && n < |fs| && n <= |gs| && fs[..n] == gs[..n]
    ensures n < |gs| && gs[n].start <= fs[n].start
  {
    hide FrameAt, Disjoint;
    assert IsSelected(s, off, fs[n]);
    assert Covered(gs, off + (fs[n].start - off));
    var i :| 0 <= i < |gs| && gs[i].start <= fs[n].start < gs[i].start + FRAME_LEN;
    if i < n {
      assert gs[i] == gs[..n][i] == fs[..n][i] == fs[i];
      InOrder(fs, i, n);
    } else if i > n {
      InOrder(gs, n, i);
    }
  }

  lemma InOrder(fs: seq<Located>, i: nat, j: nat)
    requires Disjoint(fs) && i < j < |fs|
    ensures fs[i].start + FRAME_LEN <= fs[j].start
  {
  }

  lemma SameStart(s: seq<byte>, off: nat, fs: seq<Located>, gs: seq<Located>, n: nat)
    requires Selected(s, off, fs) && Selected(s, off, gs) && n < |fs| && n < |gs| && fs[n].start == gs[n].start
    ensures fs[n] == gs[n]
  {
    hide FrameAt;
    assert IsSelected(s, off, fs[n]) && IsSelected(s, off, gs[n]);
  }

  /** Greedy selection is unique, so `FramesAreGreedy` says exactly what is delivered. */
  lemma {:induction false} GreedyUnique(s: seq<byte>, off: nat, fs: seq<Located>, gs: seq<Located>, n: nat)
    requires Greedy(s, off, fs) && Greedy(s, off, gs)
    requires n <= |fs| && n <= |gs| && fs[..n] == gs[..n]
    ensures fs == gs
    decreases |fs| - n
  {
    hide FrameAt, Selected, Disjoint, Covered;
    if n < |fs| {
      NextGreedy(s, off, fs, gs, n);
      NextGreedy(s, off, gs, fs, n);
      SameStart(s, off, fs, gs, n);
      assert fs[..n + 1] == fs[..n] + [fs[n]] && gs[..n + 1] == gs[..n] + [gs[n]];
      GreedyUnique(s, off, fs, gs, n + 1);
    } else {
      if n < |gs| {
        NextGreedy(s, off, gs, fs, n);
      }
      assert fs == fs[..n] && gs == gs[..n];
    }
  }

  // ----- skipping -----

  lemma {:induction false} SkipNonStarts(s: seq<byte>, off: nat, k: nat)
    requires k <= |s| && forall i :: 0 <= i < k ==> s[i] != SOF0
    ensures Frames(s, off) == Frames(s[k..], off + k)
  {
    if k == 0 {
      assert s[0..] == s;
    } else {
      assert s[1..][k - 1..] == s[k..];
      SkipNonStarts(s[1..], off + 1, k - 1);
    }
  }

  /** First index from `i` on that holds SOF0, or the end: `memchr`. */
  function NextStar(b: seq<byte>, i: nat): (j: nat)
    requires i <= |b|
    ensures i <= j <= |b| && (forall k :: i <= k < j ==> b[k] != SOF0) && (j < |b| ==> b[j] == SOF0)
    decreases |b| - i
  {
    if i == |b| || b[i] == SOF0 then i else NextStar(b, i + 1)
  }

  /** A full buffer that is no frame: everything before the next SOF0 is decided, whatever follows. */
  lemma DropToNextStar(b: seq<byte>, ext: seq<byte>, off: nat)
    requires |b| == FRAME_LEN && !IsFrame(b)
    ensures Frames(b + ext, off) == Frames(b[NextStar(b, 1)..] + ext, off + NextStar(b, 1))
  {
    hide IsFrame, Frames, NextStar;
    var j := NextStar(b, 1);
    var s := b + ext;
    assert s[..FRAME_LEN] == b;
    NotAFrame(s, off);
    assert forall i :: 0 <= i < j - 1 ==> s[1..][i] == b[i + 1];
    SkipNonStarts(s[1..], off + 1, j - 1);
    assert s[1..][j - 1..] == b[j..] + ext;
  }

  lemma NotAFrame(s: seq<byte>, off: nat)
    requires |s| >= FRAME_LEN && !IsFrame(s[..FRAME_LEN])
    ensures Frames(s, off) == Frames(s[1..], off + 1)
  {
    hide IsFrame;
  }

  lemma TakeFrame(b: seq<byte>, ext: seq<byte>, off: nat)
    requires IsFrame(b)
    ensures Frames(b + ext, off) == [Located(off, b)] + Frames(ext, off + FRAME_LEN)
  {
    assert (b + ext)[..FRAME_LEN] == b && (b + ext)[FRAME_LEN..] == ext;
  }

  // ----- one call of the framer, on values -----

  datatype Step = Step(pending: seq<byte>, frame: Option<seq<byte>>)

  /** Reading `bytes` behind `pending`; the consumer takes a frame away at once. */
  function FramerStep(pending: seq<byte>, bytes: seq<byte>): (r: Step)
    requires |pending| < FRAME_LEN && |pending| + |bytes| <= FRAME_LEN
    ensures |r.pending| < FRAME_LEN
    ensures r.frame.Some? <==> IsFrame(pending + bytes)
    ensures r.frame.Some? ==> r.frame.value == pending + bytes && r.pending == []
  {
    var b := pending + bytes;
    if |b| < FRAME_LEN then Step(b, None)
    else if IsFrame(b) then Step([], Some(b))
    else Step(b[NextStar(b, 1)..], None)
  }

  /** Having consumed `consumed`, delivered `delivered` and kept `pending`, the framer's future is the reference's. */
  ghost predicate Continues(consumed: seq<byte>, delivered: seq<Located>, pending: seq<byte>) {
    && |pending| <= |consumed|
    && forall ext {:trigger consumed + ext} ::
      Frames(consumed + ext, 0) == delivered + Frames(pending + ext, |consumed| - |pending|)
  }

  function Deliver(delivered: seq<Located>, frame: Option<seq<byte>>, consumed: nat): seq<Located>
    requires frame.Some? ==> consumed >= FRAME_LEN
  {
    if frame.Some? then delivered + [Located(consumed - FRAME_LEN, frame.value)] else delivered
  }

  lemma FullStepFuture(pending: seq<byte>, bytes: seq<byte>, ext: seq<byte>, off: nat)
    requires |pending| < FRAME_LEN && |pending| + |bytes| == FRAME_LEN
    ensures var r := FramerStep(pending, bytes);
      Frames(pending + (bytes + ext), off)
      == (if r.frame.Some? then [Located(off, r.frame.value)] else [])
        + Frames(r.pending + ext, off + FRAME_LEN - |r.pending|)
  {
    hide IsFrame, Frames;
    var b := pending + bytes;
    assert pending + (bytes + ext) == b + ext;
    if IsFrame(b) {
      TakeFrame(b, ext, off);
      assert [] + ext == ext;
    } else {
      DropToNextStar(b, ext, off);
    }
  }

  lemma StepContinues(consumed: seq<byte>, delivered: seq<Located>, pending: seq<byte>, bytes: seq<byte>)
    requires Continues(consumed, delivered, pending) && |pending| < FRAME_LEN && |pending| + |bytes| <= FRAME_LEN
    ensures var r := FramerStep(pending, bytes);
      && |pending + bytes| <= |consumed + bytes|
      && Continues(consumed + bytes, Deliver(delivered, r.frame, |consumed + bytes|), r.pending)
  {
    hide IsFrame, Frames;
    var r, now, off := FramerStep(pending, bytes), consumed + bytes, |consumed| - |pending|;
    forall ext
      ensures Frames(now + ext, 0)
        == Deliver(delivered, r.frame, |now|) + Frames(r.pending + ext, |now| - |r.pending|)
    {
      assert now + ext == consumed + (bytes + ext);
      if |pending| + |bytes| == FRAME_LEN {
        FullStepFuture(pending, bytes, ext, off);
      } else {
        assert pending + (bytes + ext) == r.pending + ext;
      }
    }
  }

  /** Nothing is left undecided: what has been delivered is all the reference finds so far. */
  lemma DeliveredSoFar(consumed: seq<byte>, delivered: seq<Located>, pending: seq<byte>)
    requires Continues(consumed, delivered, pending) && |pending| < FRAME_LEN
    ensures delivered == Frames(consumed, 0)
  {
    assert consumed + [] == consumed && pending + [] == pending;
    assert Frames(consumed + [], 0) == delivered + Frames(pending + [], |consumed| - |pending|);
  }

  // ----- the framer object -----

  datatype Errno = EWOULDBLOCK | EINVAL | EPROTO | OTHER(code: nat)

  /** A full buffer that begins like a frame and is none: a framing error. */
  predicate BadFrame(b: seq<byte>) {
    |b| == FRAME_LEN && b[0] == SOF0 && !IsFrame(b)
  }

  /** It begins with '*' but has not all of "* " and CR LF in their places. */
  lemma BadFrameIff(b: seq<byte>)
    requires |b| == 64
    ensures BadFrame(b) <==> b[0] == 42 && !(b[1] == 32 && b[62] == 13 && b[63] == 10)
  {
  }

  /** What `read` on the key stream did. */
  datatype StreamRead = Data(bytes: seq<byte>) | Closed | Failed(error: Errno)

  datatype ReadResult = Ready | EndOfStream | Fail(errno: Errno)

  const COUNTER_SIZE: nat := 0x1_0000_0000

  /** A 32-bit statistics counter. */
  function Count(n: nat): nat {
    n % COUNTER_SIZE
  }

  lemma CountNext(n: nat)
    ensures Count(Count(n) + 1) == Count(n + 1)
  {
  }

  class FrameReader {
    const frame: array<byte>
    var used: nat
    var byteLast: nat
    var framingErrors: nat
    var framesOk: nat
    var bytesRead: nat

    ghost var consumed: seq<byte>
    ghost var delivered: seq<Located>

    constructor ()
      ensures Valid() && used == 0 && consumed == [] && delivered == [] && fresh(frame)
    {
      frame := new byte[FRAME_LEN];
      used, byteLast, framingErrors, framesOk, bytesRead := 0, 0, 0, 0, 0;
      consumed, delivered := [], [];
    }

    /** The undecided bytes. A full buffer is a frame that has been handed up and not cleared yet. */
    ghost function Pending(): (p: seq<byte>)
      reads this`used, frame
      requires frame.Length == FRAME_LEN && used <= FRAME_LEN
    {
      if used == FRAME_LEN then [] else frame[..used]
    }

    ghost predicate Valid()
      reads this, frame
    {
      && frame.Length == FRAME_LEN && used <= FRAME_LEN
      && bytesRead == |consumed|
      && Continues(consumed, delivered, Pending())
      && delivered == Frames(consumed, 0)
      && framesOk == Count(|delivered|)
      && (delivered != [] ==> byteLast == delivered[|delivered| - 1].start)
      && (used == FRAME_LEN ==> delivered != [] && frame[..] == delivered[|delivered| - 1].bytes)
    }

    /** The consumer is done with the frame (`frame->used = 0` in `epkt_read`). */
    method Clear()
      requires Valid() && used == FRAME_LEN
      modifies this`used
      ensures Valid() && used == 0
    {
      hide Continues, Frames;
      used := 0;
      assert Pending() == [];
    }

    /** `eframe_read`. */
    method Read(input: StreamRead) returns (r: ReadResult)
      requires Valid()
      requires input.Data? && used < FRAME_LEN ==> 1 <= |input.bytes| <= FRAME_LEN - used
      modifies this, frame
      ensures Valid()
      ensures old(used) == FRAME_LEN ==>
        r == Fail(EINVAL) && consumed == old(consumed) && used == FRAME_LEN && frame[..] == old(frame[..])
      ensures old(used) < FRAME_LEN ==> (used == FRAME_LEN <==> r == Ready)
      ensures old(used) < FRAME_LEN && !input.Data? ==>
        consumed == old(consumed) && Pending() == old(Pending()) &&
        r == if input.Closed? then EndOfStream else Fail(input.error)
      ensures old(used) < FRAME_LEN && input.Data? ==>
        var s := FramerStep(old(Pending()), input.bytes);
        && consumed == old(consumed) + input.bytes && Pending() == s.pending
        && r == (if s.frame.Some? then Ready else Fail(EWOULDBLOCK))
        && (s.frame.Some? ==> frame[..] == s.frame.value)
    {
      hide Continues, Frames, IsFrame, FramerStep;
      if used == FRAME_LEN {
        return Fail(EINVAL);
      }
      match input {
        case Closed => return EndOfStream;
        case Failed(e) => return Fail(e);
        case Data(bytes) => r := Accept(bytes);
      }
    }

    /** What follows a successful read: wait for a full buffer, then look for a frame in it. */
    method Accept(bytes: seq<byte>) returns (r: ReadResult)
      requires Valid() && used < FRAME_LEN && 1 <= |bytes| <= FRAME_LEN - used
      modifies this, frame
      ensures Valid()
      ensures var s := FramerStep(old(Pending()), bytes);
        && consumed == old(consumed) + bytes && Pending() == s.pending
        && r == (if s.frame.Some? then Ready else Fail(EWOULDBLOCK)) && (r == Ready <==> used == FRAME_LEN)
        && (s.frame.Some? ==> frame[..] == s.frame.value)
    {
      hide Continues, Frames, IsFrame, Count, NextStar;
      CountNext(|delivered|);
      ghost var pending := frame[..used];
      StepContinues(consumed, delivered, pending, bytes);
      ghost var s := FramerStep(pending, bytes);
      DeliveredSoFar(consumed + bytes, Deliver(delivered, s.frame, |consumed + bytes|), s.pending);
      consumed := consumed + bytes;
      bytesRead := bytesRead + |bytes|;
      delivered := Deliver(delivered, s.frame, |consumed|);
      FillBuffer(bytes);
      if used != FRAME_LEN {
        return Fail(EWOULDBLOCK);
      }
      assert frame[..] == frame[..used];
      r := Resync();
    }

    method FillBuffer(bytes: seq<byte>)
      requires frame.Length == FRAME_LEN && used + |bytes| <= FRAME_LEN
      modifies this`used, frame
      ensures used == old(used) + |bytes| && frame[..used] == old(frame[..used]) + bytes
    {
      ghost var before := frame[..used];
      forall i | 0 <= i < |bytes| {
        frame[used + i] := bytes[i];
      }
      assert frame[..used] == before;
      used := used + |bytes|;
      assert frame[..used] == before + bytes;
    }

    /** `memchr(frame + from, SOF0, EFRAME_LEN - from)`. */
    method FindStar(from: nat) returns (k: nat)
      requires frame.Length == FRAME_LEN && from <= FRAME_LEN
      ensures k == NextStar(frame[..], from)
    {
      k := from;
      while k < FRAME_LEN && frame[k] != SOF0
        invariant from <= k <= FRAME_LEN
        invariant NextStar(frame[..], from) == NextStar(frame[..], k)
      {
        k := k + 1;
      }
    }

    /** Drops what precedes `sof` (the whole buffer when there is no further SOF0). */
    method DropTo(sof: nat)
      requires frame.Length == FRAME_LEN && 1 <= sof <= FRAME_LEN
      modifies this`used, frame
      ensures used == FRAME_LEN - sof && frame[..used] == old(frame[sof..])
    {
      used := FRAME_LEN - sof;
      forall i | 0 <= i < used {
        frame[i] := frame[sof + i];
      }
    }

    /** The search for SOF and EOF in a full buffer. */
    method Resync() returns (r: ReadResult)
      requires frame.Length == FRAME_LEN && used == FRAME_LEN && bytesRead >= FRAME_LEN
      modifies this`used, this`framesOk, this`byteLast, this`framingErrors, frame
      ensures IsFrame(old(frame[..])) ==>
        && r == Ready && used == FRAME_LEN && frame[..] == old(frame[..])
        && framesOk == Count(old(framesOk) + 1) && byteLast == bytesRead - FRAME_LEN
      ensures !IsFrame(old(frame[..])) ==>
        && r == Fail(EWOULDBLOCK) && used < FRAME_LEN && frame[..used] == old(frame[NextStar(frame[..], 1)..])
        && framesOk == old(framesOk) && byteLast == old(byteLast)
      ensures framingErrors == if BadFrame(old(frame[..])) then Count(old(framingErrors) + 1) else old(framingErrors)
    {
      ghost var b := frame[..];
      var sof := FindStar(0);
      if sof == FRAME_LEN {
        used := 0;
        return Fail(EWOULDBLOCK);
      }
      if sof != 0 {
        DropTo(sof);
        return Fail(EWOULDBLOCK);
      }
      if frame[1] != SOF1 || frame[FRAME_LEN - 2] != EOF0 || frame[FRAME_LEN - 1] != EOF1 {
        sof := FindStar(1);
        if sof == FRAME_LEN {
          used := 0;
        } else {
          DropTo(sof);
        }
        framingErrors := Count(framingErrors + 1);
        return Fail(EWOULDBLOCK);
      }
      framesOk := Count(framesOk + 1);
      byteLast := bytesRead - FRAME_LEN;
      r := Ready;
    }
  }

  // ----- self-synchronisation -----

  /** A frame as the device sends it: CR only where the end marker is. */
  predicate CleanFrame(w: seq<byte>) {
    IsFrame(w) && forall i :: 0 <= i < FRAME_LEN - 2 ==> w[i] != EOF0
  }

  function Concat(ws: seq<seq<byte>>): seq<byte> {
    if ws == [] then [] else ws[0] + Concat(ws[1..])
  }

  function Numbered(ws: seq<seq<byte>>, off: nat): seq<Located> {
    if ws == [] then [] else [Located(off, ws[0])] + Numbered(ws[1..], off + FRAME_LEN)
  }

  /** In front of a clean frame no window that starts in the junk can end inside or across it. */
  lemma NoFalseFrame(junk: seq<byte>, w: seq<byte>, rest: seq<byte>)
    requires |junk| > 0 && CleanFrame(w) && !FrameAt(junk, 0)
    ensures !FrameAt(junk + w + rest, 0)
  {
    var s := junk + w + rest;
    var n := |junk|;
    if n >= FRAME_LEN {
      assert s[0..0 + FRAME_LEN] == junk[0..0 + FRAME_LEN];
    } else if n == FRAME_LEN - 1 {
      assert s[FRAME_LEN - 1] == w[0];
    } else {
      assert s[FRAME_LEN - 2] == w[FRAME_LEN - 2 - n];
    }
  }

  lemma {:induction false} JunkThenFrame(junk: seq<byte>, w: seq<byte>, rest: seq<byte>, off: nat)
    requires CleanFrame(w) && Frames(junk, off) == []
    ensures Frames(junk + w + rest, off) == [Located(off + |junk|, w)] + Frames(rest, off + |junk| + FRAME_LEN)
    decreases |junk|
  {
    hide CleanFrame;
    var s := junk + w + rest;
    if junk == [] {
      assert s == w + rest;
      CleanIsFrame(w);
      TakeFrame(w, rest, off);
    } else {
      CleanIsFrame(w);
      if |junk| >= FRAME_LEN { assert junk[0..0 + FRAME_LEN] == junk[..FRAME_LEN]; }
      assert !FrameAt(junk, 0) && Frames(junk[1..], off + 1) == [];
      NoFalseFrame(junk, w, rest);
      assert s[0..0 + FRAME_LEN] == s[..FRAME_LEN] && s[1..] == junk[1..] + w + rest;
      JunkThenFrame(junk[1..], w, rest, off + 1);
    }
  }

  lemma CleanIsFrame(w: seq<byte>)
    requires CleanFrame(w)
    ensures IsFrame(w)
  {
  }

  /** After any junk that holds no frame of its own, a run of clean frames is delivered in full,
      with no false frame before it and none lost, even when payloads contain "* ". */
  lemma {:induction false} SelfSynchronising(junk: seq<byte>, ws: seq<seq<byte>>, off: nat)
    requires Frames(junk, off) == [] && forall i :: 0 <= i < |ws| ==> CleanFrame(ws[i])
    ensures Frames(junk + Concat(ws), off) == Numbered(ws, off + |junk|)
    decreases |ws|
  {
    hide CleanFrame;
    if ws == [] {
      assert junk + Concat(ws) == junk;
    } else {
      JunkThenFrame(junk, ws[0], Concat(ws[1..]), off);
      assert junk + Concat(ws) == junk + ws[0] + Concat(ws[1..]);
      SelfSynchronising([], ws[1..], off + |junk| + FRAME_LEN);
      assert [] + Concat(ws[1..]) == Concat(ws[1..]);
    }
  }
}
