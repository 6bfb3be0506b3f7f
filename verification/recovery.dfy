// Recovery of a session after a reset, with frames still under way that the device sent before it heard of it, and with
// a device that answers every single reset by its serial number.

module Recovery {
  import opened Bytes
  import opened Pem
  import opened Hashing
  import opened Framer
  import opened DeviceFrames
  import opened Packets
  import opened Protocol
  import opened SessionRuns
  import opened Session

  // ----- frames that may be under way -----

  /** Anything a device sends but its serial number, under any key. */
  predicate Late(f: seq<byte>) {
    Honest(f) && KnownClass(f) && TypeOf(f[2]) != NONE && TypeOf(f[2]) != SNUM && PacketData(f) != []
  }

  lemma UsableIsLate(h: Hashes, k: Keyed, f: seq<byte>)
    requires Honest(f)
    requires var p := ReadPacket(h, Some(k), f, Fill(6, 0));
      p.Packet? && p.typ != KEYREJECTED && p.typ != SNUM && p.data != []
    ensures Late(f) && TypeOf(f[2]) == ReadPacket(h, Some(k), f, Fill(6, 0)).typ
  {
    hide Honest, MacOk, PacketSubcode, CleanFrame;
    assert MacField(f) && PayloadField(f) by {
      HonestDecodable(f, Some(k));
      HonestFields(f);
    }
  }

  lemma HonestFields(f: seq<byte>)
    requires Honest(f)
    ensures MacField(f) && PayloadField(f)
  {
    hide CleanFrame;
  }

  /** Whatever a device sends but its serial number is such a frame. */
  lemma SentIsLate(s: Setting, d: Device, step: Session.Step, unread: seq<byte>)
    requires IsDeviceStep(step) && !step.Announce?
    requires (step.Rekey? ==> CommandReady(unread)) && (step.Inform? ==> GoodText(step.text))
    requires step.Ask? ==> GoodText(step.text)
    ensures Late(Send(s, d, step, unread).0)
  {
    hide FrameOf, Honest, Late, CommandReady, CommandNonce, FindStop, BinaryPayload, Encode12, Code, ReadPacket;
    hide XorSeq, GoodText, TrimRight;
    TypeLetters();
    var f := Send(s, d, step, unread).0;
    match step {
      case Inform(t) => TextHonest(s.h, Under(d), LETTER_I, t);
      case Ask(t) => TextHonest(s.h, Under(d), LETTER_k, t);
      case Rekey(entropy) => BinaryHonest(s.h, Under(d), LETTER_K, Code(|CommandNonce(unread)|), entropy);
      case Emit(plain) =>
        BinaryHonest(s.h, Under(d), LETTER_E, d.seqNo, XorSeq(plain, s.h.pad(Under(d), Encode12(d.seqNo))));
      case _ =>
    }
    UsableIsLate(s.h, Under(d), f);
  }

  /** The device as it is behind a reset, and its answer to one. */
  function Home(d: Device): Device {
    d.(key := DEFAULT_KEY)
  }

  function Announcement(s: Setting, d: Device): seq<byte> {
    SerialFrame(s.h, Home(d))
  }

  predicate Plausible(s: Setting, d: Device, f: seq<byte>) {
    f == Announcement(s, d) || Late(f)
  }

  predicate AllPlausible(s: Setting, d: Device, fs: seq<seq<byte>>) {
    forall i :: 0 <= i < |fs| ==> Plausible(s, d, fs[i])
  }

  predicate IsSerial(f: seq<byte>) {
    |f| == FRAME_LEN && TypeOf(f[2]) == SNUM
  }

  predicate IsRequest(f: seq<byte>) {
    |f| == FRAME_LEN && TypeOf(f[2]) == KEYREQ
  }

  /** A key request whose MAC passes under the default key. */
  predicate Genuine(s: Setting, d: Device, f: seq<byte>) {
    && Honest(f) && IsRequest(f)
    && ReadPacket(s.h, Some(Under(Home(d))), f, Fill(6, 0)) == Packet(KEYREQ, PacketSubcode(f), PacketData(f))
  }

  // ----- what they do to the host -----

  predicate Known(s: Setting, d: Device) {
    |d.serial| == SERIAL_LEN && d.serial in s.keyring && s.keyring[d.serial] == d.ltkey
  }

  /** The states a host passes through on its way back, with the default key and perhaps the serial number. */
  predicate OnItsWay(d: Device, c: Conn) {
    && Inv(c) && |d.serial| == SERIAL_LEN && (c.state == INIT || c.state == SESSION || c.state == KEYED_BAD)
    && (c.snum == None || (c.snum == Some(d.serial) && c.snumLen == SERIAL_LEN))
    && (c.skMac == None || c.skMac == Some(Under(Home(d))))
    && (c.state != INIT ==> c.snum.Some? && c.skMac.Some?)
    && (c.state == SESSION ==> c.ltkey == Some(d.ltkey))
  }

  lemma Handlers()
    ensures forall t :: HandlerFor(INIT, t) == if t == SNUM then SnumHandler else ResetHandler
    ensures forall t :: t != KEYREQ ==> HandlerFor(SESSION, t) == if t == INFO then InfoHandler else ResetHandler
    ensures forall t :: HandlerFor(KEYED_BAD, t) == if t == KEYREQ then BadKeyCountHandler else NullHandler
  {
  }

  lemma LateEffect(s: Setting, d: Device, c: Conn, f: seq<byte>)
    requires s.Valid() && Between(c) && OnItsWay(d, c) && Late(f)
    ensures c.state == INIT ==> Effect(s, c, f) == Reset(c)
    ensures c.state == SESSION && !IsRequest(f) ==> Effect(s, c, f) == c || Effect(s, c, f) == Reset(c)
    ensures c.state == KEYED_BAD ==>
      Effect(s, c, f) == if Genuine(s, d, f) then CountRequest(c, MAX_REKEYS_BEFORE_RESET) else c
  {
    hide Reset, CountRequest, CleanFrame, Decode, MacOk, PacketData, PacketSubcode, HandlerFor;
    Handlers();
  }

  lemma AnnouncementShape(s: Setting, d: Device)
    requires |d.serial| == SERIAL_LEN
    ensures var f := Announcement(s, d);
      && Honest(f) && IsSerial(f) && !IsRequest(f) && !Late(f)
      && ReadPacket(s.h, Some(Under(Home(d))), f, Fill(6, 0)) == Packet(SNUM, Encode12(0), d.serial)
      && ReadPacket(s.h, None, f, Fill(6, 0)) == Packet(SNUM, Encode12(0), d.serial)
  {
    hide FrameOf, BinaryPayload, Encode12, MacOk, PacketData, PacketSubcode, CleanFrame, Decode;
    TypeLetters();
    BinaryHonest(s.h, Under(Home(d)), LETTER_S, 0, d.serial);
  }

  lemma AnnouncementEffect(s: Setting, d: Device, c: Conn)
    requires s.Valid() && Between(c) && OnItsWay(d, c) && Known(s, d)
    ensures Honest(Announcement(s, d))
    ensures c.state == INIT ==>
      Effect(s, c, Announcement(s, d)) == c.(
        snum := Some(d.serial), snumLen := SERIAL_LEN, state := SESSION, skMac := Some(Under(Home(d))),
        ltkey := Some(d.ltkey))
    ensures c.state == SESSION ==> Effect(s, c, Announcement(s, d)) == Reset(c)
    ensures c.state == KEYED_BAD ==> Effect(s, c, Announcement(s, d)) == c
  {
    hide Effect, Honest, ReadPacket, Announcement, Encode12, SnumPacket, Inv, DataBuffer, Reset, HandlerFor, IsSerial,
      Late;
    AnnouncementShape(s, d);
    EffectOfPacket(s, c, Announcement(s, d), Packet(SNUM, Encode12(0), d.serial));
    SameBuffer(d.serial, Fill(DATA_LEN, 0), Fill(DATA_LEN, 0), SERIAL_LEN);
    SerialAccepted(c, d, DataBuffer(d.serial, Fill(DATA_LEN, 0)), s.keyring);
    Handlers();
  }

  // ----- one frame -----

  /** How many steps a frame can still cause: a reset, the hearing of it, and the serial number that answers it. */
  function Cost(f: seq<byte>): nat {
    if IsSerial(f) then 9 else 11
  }

  function Credit(c: Conn): nat {
    if c.state == SESSION then 2 else 0
  }

  /** What the host has sent more: a reset or nothing. */
  function Added(c: Conn, c': Conn): nat {
    if |c'.sent| >= |c.sent| then |c'.sent| - |c.sent| else 0
  }

  /** A frame on its way to the host has less left to cause behind its arrival than before. */
  ghost predicate Arrived(s: Setting, d: Device, c: Conn, f: seq<byte>, c': Conn) {
    && OnItsWay(d, c') && c'.out == c.out && c'.sent == c.sent + Fill(Added(c, c'), 3)
    && 10 * Added(c, c') + Credit(c') < Cost(f) + Credit(c)
    && (c'.state == INIT ==> Added(c, c') == 1)
    && (c'.state == SESSION ==> c.state == SESSION || (c.state == INIT && IsSerial(f)))
    && (c'.state == KEYED_BAD ==> c.state == KEYED_BAD && c'.keyreqs == c.keyreqs + if Genuine(s, d, f) then 1 else 0)
  }

  lemma ResetOnItsWay(d: Device, c: Conn)
    requires OnItsWay(d, c)
    ensures var c' := Reset(c);
      && OnItsWay(d, c') && c'.state == INIT && c'.out == c.out && c'.sent == c.sent + Fill(1, 3) && Added(c, c') == 1
  {
    assert RESET_COMMAND == Fill(1, 3);
    assert d.serial[..SERIAL_LEN] == d.serial;
  }

  lemma NothingAdded(c: Conn, c': Conn)
    ensures c'.sent == c.sent ==> Added(c, c') == 0 && c'.sent == c.sent + Fill(0, 3)
  {
  }

  lemma LateArrives(s: Setting, d: Device, c: Conn, f: seq<byte>)
    requires s.Valid() && Between(c) && OnItsWay(d, c) && Late(f) && (c.state == SESSION ==> !IsRequest(f))
    ensures Arrived(s, d, c, f, Effect(s, c, f))
  {
    hide Effect, Inv, Reset, Added, Between, Genuine, Honest, PacketData;
    LateEffect(s, d, c, f);
    ResetOnItsWay(d, c);
    NothingAdded(c, Effect(s, c, f));
    assert Cost(f) == 11;
    if c.state == KEYED_BAD && Genuine(s, d, f) {
      CountArrives(s, d, c, f);
    }
  }

  lemma CountArrives(s: Setting, d: Device, c: Conn, f: seq<byte>)
    requires OnItsWay(d, c) && c.state == KEYED_BAD && Genuine(s, d, f) && Cost(f) == 11
    ensures Arrived(s, d, c, f, CountRequest(c, MAX_REKEYS_BEFORE_RESET))
  {
    hide Genuine;
    var c' := CountRequest(c, MAX_REKEYS_BEFORE_RESET);
    ResetOnItsWay(d, c);
    if c.keyreqs < MAX_REKEYS_BEFORE_RESET {
      NothingAdded(c, c');
    }
  }

  lemma AnnouncementArrives(s: Setting, d: Device, c: Conn)
    requires s.Valid() && Between(c) && OnItsWay(d, c) && Known(s, d)
    ensures Honest(Announcement(s, d)) && Arrived(s, d, c, Announcement(s, d), Effect(s, c, Announcement(s, d)))
  {
    hide Effect, Reset, Added, Honest, Announcement, PacketData, Late, ReadPacket;
    AnnouncementShape(s, d);
    AnnouncementEffect(s, d, c);
    ResetOnItsWay(d, c);
    NothingAdded(c, Effect(s, c, Announcement(s, d)));
    assert d.serial[..SERIAL_LEN] == d.serial;
  }

  // ----- runs -----

  /**
    * The line, the host, how many of the host's resets the device has still to hear, and whether it has heard any. What
    * the device may hear before the first of them only makes it send late frames.
    */
  datatype Recovering = Recovering(wire: seq<byte>, host: Conn, unheard: nat, heard: bool)

  datatype RecoveryStep =
    | Straggle(f: seq<byte>)    // the device sends something before it has heard any reset
    | Hear                      // it hears a reset, and answers by its serial number
    | Tell(text: seq<byte>)     // then it may send information,
    | Plead(text: seq<byte>)    // and ask for a key, but not when its serial number is being looked at
    | Read(n: nat, macStale: seq<byte>, dataStale: seq<byte>)

  predicate ReadFits(r: Recovering, n: nat) {
    CanRead(World(AnyDevice(), r.wire, r.host), n)
  }

  function AnyDevice(): Device {
    Device([], DEFAULT_KEY, Start, DEFAULT_KEY, 0, [], 0, [])
  }

  /** No serial number is under way, and the host has not just accepted one. */
  ghost predicate NoSerialAhead(r: Recovering) {
    r.host.state != SESSION && forall l :: l in Frames(r.host.pending + r.wire, 0) ==> !IsSerial(l.bytes)
  }

  ghost predicate Possible(s: Setting, d: Device, r: Recovering, step: RecoveryStep) {
    match step
    case Straggle(f) => !r.heard && Plausible(s, d, f) && (IsRequest(f) ==> NoSerialAhead(r))
    case Hear => r.unheard > 0
    case Tell(t) => r.heard && GoodText(t)
    case Plead(t) => r.heard && GoodText(t) && NoSerialAhead(r)
    case Read(n, ms, ds) => ReadFits(r, n) && |ms| == 6 && |ds| == DATA_LEN
  }

  ghost predicate CanGoOn(s: Setting, r: Recovering) {
    && s.Valid() && Inv(r.host) && r.host.state != CLOSE
    && forall n: nat :: ReadFits(r, n) ==> ReadShape(r.host, r.wire[..n])
  }

  function Reading(s: Setting, r: Recovering, n: nat, ms: seq<byte>, ds: seq<byte>): (c: Conn)
    requires s.Valid() && Inv(r.host) && r.host.state != CLOSE && n <= |r.wire| && |ms| == 6 && |ds| == DATA_LEN
    requires ReadShape(r.host, r.wire[..n])
  {
    Run(s.h, r.host, HostEnv(s, r.host, Data(r.wire[..n]), ms, ds))
  }

  ghost function Onward(s: Setting, d: Device, r: Recovering, step: RecoveryStep): Recovering
    requires CanGoOn(s, r) && Possible(s, d, r, step)
  {
    match step
    case Straggle(f) => r.(wire := r.wire + f)
    case Hear => r.(wire := r.wire + Announcement(s, d), unheard := r.unheard - 1, heard := true)
    case Tell(t) => r.(wire := r.wire + TextFrame(s.h, Home(d), LETTER_I, t))
    case Plead(t) => r.(wire := r.wire + TextFrame(s.h, Home(d), LETTER_k, t))
    case Read(n, ms, ds) =>
      var c := Reading(s, r, n, ms, ds);
      r.(wire := r.wire[n..], host := c, unheard := r.unheard + Added(r.host, c))
  }

  ghost predicate NoRequestBehindSerial(fs: seq<seq<byte>>) {
    forall i, j :: 0 <= i < j < |fs| && IsSerial(fs[i]) ==> !IsRequest(fs[j])
  }

  ghost predicate NoRequests(fs: seq<seq<byte>>) {
    forall i :: 0 <= i < |fs| ==> !IsRequest(fs[i])
  }

  ghost predicate SomeSerial(fs: seq<seq<byte>>) {
    exists i :: 0 <= i < |fs| && IsSerial(fs[i])
  }

  /** What holds after every step, with `junk` and then the frames `fs` under way. */
  ghost predicate Holds(s: Setting, d: Device, r: Recovering, junk: seq<byte>, fs: seq<seq<byte>>) {
    && s.Valid() && Known(s, d) && OnItsWay(d, r.host)
    && AllPlausible(s, d, fs) && NoRequestBehindSerial(fs) && (r.host.state == SESSION ==> NoRequests(fs))
    && Frames(junk, 0) == [] && r.host.pending + r.wire == junk + Concat(fs)
    && (r.host.state == INIT ==> r.unheard > 0 || SomeSerial(fs)) && (r.heard || r.unheard > 0)
    && r.unheard <= |r.host.sent| && r.host.sent[|r.host.sent| - r.unheard..] == Fill(r.unheard, 3)
  }

  function Costs(fs: seq<seq<byte>>): nat {
    if fs == [] then 0 else Cost(fs[0]) + Costs(fs[1..])
  }

  function Genuines(s: Setting, d: Device, fs: seq<seq<byte>>): nat {
    if fs == [] then 0 else (if Genuine(s, d, fs[0]) then 1 else 0) + Genuines(s, d, fs[1..])
  }

  /** How much the frames under way and the resets not heard yet can still cause. */
  function Energy(r: Recovering, fs: seq<seq<byte>>): nat {
    Costs(fs) + 10 * r.unheard + Credit(r.host)
  }

  lemma {:induction false} SumsSnoc(s: Setting, d: Device, fs: seq<seq<byte>>, f: seq<byte>)
    ensures Costs(fs + [f]) == Costs(fs) + Cost(f)
    ensures Genuines(s, d, fs + [f]) == Genuines(s, d, fs) + if Genuine(s, d, f) then 1 else 0
  {
    hide Cost, Genuine;
    if fs == [] {
      assert fs + [f] == [f] && [f][1..] == [];
    } else {
      assert (fs + [f])[1..] == fs[1..] + [f];
      SumsSnoc(s, d, fs[1..], f);
    }
  }

  lemma {:induction false} CostsBound(fs: seq<seq<byte>>)
    ensures Costs(fs) <= 11 * |fs|
  {
    if fs != [] {
      CostsBound(fs[1..]);
    }
  }

  lemma PlausibleAreHonest(s: Setting, d: Device, fs: seq<seq<byte>>)
    requires |d.serial| == SERIAL_LEN && AllPlausible(s, d, fs)
    ensures AllHonest(fs)
  {
    hide Honest, Announcement, IsSerial, IsRequest, ReadPacket;
    AnnouncementShape(s, d);
    forall i | 0 <= i < |fs|
      ensures Honest(fs[i])
    {
      assert Plausible(s, d, fs[i]);
    }
  }

  /** The frames of the line are those under way. */
  lemma LineFrames(s: Setting, d: Device, r: Recovering, junk: seq<byte>, fs: seq<seq<byte>>)
    requires Holds(s, d, r, junk, fs)
    ensures Frames(r.host.pending + r.wire, 0) == Numbered(fs, |junk|)
  {
    hide Plausible, Frames, IsRequest, IsSerial;
    PlausibleAreHonest(s, d, fs);
    AllClean(fs);
    SelfSynchronising(junk, fs, 0);
  }

  lemma {:induction false} NumberedHas(fs: seq<seq<byte>>, off: nat, i: nat)
    requires i < |fs|
    ensures exists l :: l in Numbered(fs, off) && l.bytes == fs[i]
  {
    var rest := Numbered(fs[1..], off + FRAME_LEN);
    if i == 0 {
      assert Located(off, fs[0]) in Numbered(fs, off);
    } else {
      NumberedHas(fs[1..], off + FRAME_LEN, i - 1);
      var l :| l in rest && l.bytes == fs[1..][i - 1];
      assert l in Numbered(fs, off);
    }
  }

  // ----- the device's steps -----

  lemma TextArrives(s: Setting, d: Device, text: seq<byte>)
    requires GoodText(text)
    ensures Late(TextFrame(s.h, Home(d), LETTER_I, text)) && !IsRequest(TextFrame(s.h, Home(d), LETTER_I, text))
    ensures Late(TextFrame(s.h, Home(d), LETTER_k, text)) && Genuine(s, d, TextFrame(s.h, Home(d), LETTER_k, text))
  {
    hide FrameOf, Honest, GoodText, TrimRight, MacOk;
    TypeLetters();
    TextHonest(s.h, Under(Home(d)), LETTER_I, text);
    TextHonest(s.h, Under(Home(d)), LETTER_k, text);
    hide ReadPacket;
    UsableIsLate(s.h, Under(Home(d)), TextFrame(s.h, Home(d), LETTER_I, text));
    UsableIsLate(s.h, Under(Home(d)), TextFrame(s.h, Home(d), LETTER_k, text));
    GenuineText(s, d, TextFrame(s.h, Home(d), LETTER_k, text));
  }

  lemma GenuineText(s: Setting, d: Device, f: seq<byte>)
    requires Late(f)
    requires ReadPacket(s.h, Some(Under(Home(d))), f, Fill(6, 0)).Packet?
    requires ReadPacket(s.h, Some(Under(Home(d))), f, Fill(6, 0)).typ == KEYREQ == TypeOf(f[2])
    ensures Genuine(s, d, f)
  {
    hide MacOk, PacketData, PacketSubcode, CleanFrame;
  }

  lemma Queued(s: Setting, d: Device, r: Recovering, junk: seq<byte>, fs: seq<seq<byte>>, f: seq<byte>)
    requires Holds(s, d, r, junk, fs) && Plausible(s, d, f) && (IsRequest(f) ==> NoSerialAhead(r))
    ensures Holds(s, d, r.(wire := r.wire + f), junk, fs + [f])
    ensures Energy(r.(wire := r.wire + f), fs + [f]) == Energy(r, fs) + Cost(f)
  {
    hide Plausible, Frames, IsSerial, Inv, Known, OnItsWay, Cost, Genuine;
    ConcatSnoc(fs, f);
    SumsSnoc(s, d, fs, f);
    assert r.host.pending + (r.wire + f) == (r.host.pending + r.wire) + f;
    assert junk + (Concat(fs) + f) == (junk + Concat(fs)) + f;
    if IsRequest(f) {
      LineFrames(s, d, r, junk, fs);
      forall i | 0 <= i < |fs|
        ensures !IsSerial(fs[i])
      {
        NumberedHas(fs, |junk|, i);
      }
    }
    if SomeSerial(fs) {
      var i :| 0 <= i < |fs| && IsSerial(fs[i]);
      assert (fs + [f])[i] == fs[i];
    }
  }

  lemma Answered(s: Setting, d: Device, r: Recovering, junk: seq<byte>, fs: seq<seq<byte>>)
    requires Holds(s, d, r, junk, fs) && r.unheard > 0
    ensures var f := Announcement(s, d);
      var r' := r.(wire := r.wire + f, unheard := r.unheard - 1, heard := true);
      Holds(s, d, r', junk, fs + [f]) && Energy(r', fs + [f]) < Energy(r, fs)
  {
    hide Frames, Inv, OnItsWay, Announcement, Late, Honest, Genuine, ReadPacket, IsRequest, Concat;
    AnnouncementShape(s, d);
    var f := Announcement(s, d);
    Queued(s, d, r, junk, fs, f);
    assert (fs + [f])[|fs|] == f;
    assert Cost(f) == 9;
    var sent, u := r.host.sent, r.unheard;
    assert sent[|sent| - (u - 1)..] == sent[|sent| - u..][1..] == Fill(u - 1, 3);
  }

  // ----- the host's reads -----

  /** After a read that has turned the host into `c`. */
  function Afterwards(r: Recovering, n: nat, c: Conn): Recovering
    requires n <= |r.wire|
  {
    r.(wire := r.wire[n..], host := c, unheard := r.unheard + Added(r.host, c))
  }

  lemma TailGrows(sent: seq<byte>, u: nat, k: nat)
    requires u <= |sent| && sent[|sent| - u..] == Fill(u, 3)
    ensures var more := sent + Fill(k, 3); more[|more| - (u + k)..] == Fill(u + k, 3)
  {
    var more := sent + Fill(k, 3);
    assert more[|more| - (u + k)..] == sent[|sent| - u..] + Fill(k, 3);
  }

  lemma OnItsWayBetween(d: Device, c: Conn, c1: Conn)
    requires OnItsWay(d, c) && c1 == c.(pending := c1.pending) && Inv(c1)
    ensures OnItsWay(d, c1) && (c1.pending == [] ==> Between(c1))
  {
  }

  /** The first frame under way takes effect, */
  lemma FirstEffect(s: Setting, d: Device, c: Conn, f: seq<byte>)
    requires s.Valid() && OnItsWay(d, c) && Known(s, d) && Plausible(s, d, f) && (c.state == SESSION ==> !IsRequest(f))
    ensures Honest(f) && Between(c.(pending := []))
    ensures var c' := Effect(s, c.(pending := []), f); Arrived(s, d, c, f, c') && c'.pending == []
  {
    hide Late, Announcement, Effect, Honest, Genuine, IsSerial, IsRequest, Inv;
    var c1 := c.(pending := []);
    EmptyPending(c);
    OnItsWayBetween(d, c, c1);
    if f == Announcement(s, d) {
      AnnouncementArrives(s, d, c1);
    } else {
      LateHonest(f);
      LateArrives(s, d, c1, f);
    }
    EffectPending(s, c1, f);
  }

  /** and what holds then is the same for the others. */
  lemma FirstArrives(s: Setting, d: Device, r: Recovering, fs: seq<seq<byte>>, n: nat, c: Conn)
    requires Holds(s, d, r, [], fs) && fs != [] && n <= |r.wire| && r.wire[n..] == Concat(fs[1..])
    requires Arrived(s, d, r.host, fs[0], c) && c.pending == []
    ensures var r' := Afterwards(r, n, c);
      Holds(s, d, r', [], fs[1..]) && Energy(r', fs[1..]) < Energy(r, fs)
    ensures c.state == KEYED_BAD ==>
      r.host.state == KEYED_BAD && c.keyreqs + Genuines(s, d, fs[1..]) == r.host.keyreqs + Genuines(s, d, fs)
  {
    hide Plausible, Frames, Genuine, Added, IsSerial, IsRequest, Known, OnItsWay, Cost, Credit, Concat;
    TailGrows(r.host.sent, r.unheard, Added(r.host, c));
    assert [] + r.wire[n..] == Concat(fs[1..]) == [] + Concat(fs[1..]);
  }

  lemma EmptyPending(c: Conn)
    requires Inv(c)
    ensures Inv(c.(pending := []))
  {
  }

  lemma LateHonest(f: seq<byte>)
    requires Late(f)
    ensures Honest(f)
  {
  }

  lemma EffectPending(s: Setting, c: Conn, f: seq<byte>)
    requires Between(c) && Honest(f) && s.Valid()
    ensures Effect(s, c, f).pending == []
  {
    hide Effect, Honest;
    EffectKeepsBetween(s, c, f);
  }

  /** Only where the bytes are has changed. */
  lemma NoneArrives(s: Setting, d: Device, r: Recovering, junk: seq<byte>, junk': seq<byte>, fs: seq<seq<byte>>,
                    n: nat, c: Conn)
    requires Holds(s, d, r, junk, fs) && n <= |r.wire| && c == r.host.(pending := c.pending) && Inv(c)
    requires Frames(junk', 0) == [] && c.pending + r.wire[n..] == junk' + Concat(fs)
    ensures var r' := Afterwards(r, n, c);
      Holds(s, d, r', junk', fs) && Energy(r', fs) == Energy(r, fs) && r'.unheard == r.unheard
  {
    hide Plausible, Frames, Inv, Known, IsSerial, IsRequest, Concat;
    OnItsWayBetween(d, r.host, c);
  }

  predicate Completes(r: Recovering, n: nat)
    requires n <= |r.wire|
  {
    IsFrame(r.host.pending + r.wire[..n])
  }

  lemma ReadArrives(
    s: Setting, d: Device, r: Recovering, junk: seq<byte>, fs: seq<seq<byte>>, n: nat, ms: seq<byte>, ds: seq<byte>)
    returns (junk': seq<byte>, fs': seq<seq<byte>>)
    requires Holds(s, d, r, junk, fs) && ReadFits(r, n) && |ms| == 6 && |ds| == DATA_LEN
    ensures Inv(r.host) && r.host.state != CLOSE && ReadShape(r.host, r.wire[..n])
    ensures var c := Reading(s, r, n, ms, ds);
      var r' := Afterwards(r, n, c);
      && Holds(s, d, r', junk', fs') && c.out == r.host.out
      && Energy(r', fs') + (if Completes(r, n) then 1 else 0) <= Energy(r, fs)
    ensures var c := Reading(s, r, n, ms, ds);
      c.state == KEYED_BAD ==>
      r.host.state == KEYED_BAD && c.keyreqs + Genuines(s, d, fs') == r.host.keyreqs + Genuines(s, d, fs)
  {
    hide Inv, Effect, Plausible, Honest, Run, Frames, IsFrame, Decodable, Energy, Genuines, Added, Concat, IsSerial,
      IsRequest, FramerStep, ReadShape;
    OnItsWayHost(d, r.host);
    var w := World(AnyDevice(), r.wire, r.host);
    PlausibleAreHonest(s, d, fs);
    var got, rest := r.host.pending + r.wire[..n], r.wire[n..];
    assert r.wire == r.wire[..n] + rest;
    assert r.host.pending + r.wire == got + rest;
    if IsFrame(got) {
      FrontIsFirst(junk, fs, got, rest);
      junk', fs' := [], fs[1..];
      FirstEffect(s, d, r.host, got);
      FullRead(s, w, got, n, ms, ds);
      FirstArrives(s, d, r, fs, n, Reading(s, r, n, ms, ds));
    } else {
      PartialRead(s, w, n, ms, ds);
      junk', fs' := junk, fs;
      if |got| == FRAME_LEN {
        junk' := FrontIsJunk(junk, fs, got, rest);
      }
      RunKeepsInv(s.h, r.host, HostEnv(s, r.host, Data(r.wire[..n]), ms, ds));
      NoneArrives(s, d, r, junk, junk', fs, n, Reading(s, r, n, ms, ds));
    }
  }

  lemma OnItsWayHost(d: Device, c: Conn)
    requires OnItsWay(d, c)
    ensures Inv(c) && c.state != CLOSE && (c.snum.Some? ==> c.snumLen == SERIAL_LEN)
  {
  }

  // ----- whole recoveries -----

  predicate IsSend(step: RecoveryStep) {
    step.Straggle? || step.Tell? || step.Plead?
  }

  /** A reset is heard, or a frame reaches the host. */
  predicate IsMove(r: Recovering, step: RecoveryStep) {
    step.Hear? || (step.Read? && step.n <= |r.wire| && Completes(r, step.n))
  }

  function Sends(steps: seq<RecoveryStep>): nat {
    if steps == [] then 0 else Sends(steps[..|steps| - 1]) + (if IsSend(steps[|steps| - 1]) then 1 else 0)
  }

  function Pleas(steps: seq<RecoveryStep>): nat {
    if steps == [] then 0 else Pleas(steps[..|steps| - 1]) + (if steps[|steps| - 1].Plead? then 1 else 0)
  }

  function Moves(rs: seq<Recovering>, steps: seq<RecoveryStep>, n: nat): nat
    requires n <= |steps| && n <= |rs|
  {
    if n == 0 then 0 else Moves(rs, steps, n - 1) + (if IsMove(rs[n - 1], steps[n - 1]) then 1 else 0)
  }

  /** Any interleaving of these steps, with `junk` and then the frames `fs` under way at first. */
  ghost predicate IsRecovery(
    s: Setting, d: Device, rs: seq<Recovering>, steps: seq<RecoveryStep>, junk: seq<byte>, fs: seq<seq<byte>>)
  {
    && |rs| == |steps| + 1 && Holds(s, d, rs[0], junk, fs)
    && forall i :: 0 <= i < |steps| && CanGoOn(s, rs[i]) ==>
      Possible(s, d, rs[i], steps[i]) && rs[i + 1] == Onward(s, d, rs[i], steps[i])
  }

  lemma HoldsGoesOn(s: Setting, d: Device, r: Recovering, junk: seq<byte>, fs: seq<seq<byte>>)
    requires Holds(s, d, r, junk, fs)
    ensures CanGoOn(s, r)
  {
    hide Plausible, Frames, Energy, Genuines, Run, ReadShape, Inv;
    OnItsWayHost(d, r.host);
    forall n: nat | ReadFits(r, n)
      ensures ReadShape(r.host, r.wire[..n])
    {
      var junk', fs' := ReadArrives(s, d, r, junk, fs, n, Fill(6, 0), Fill(DATA_LEN, 0));
    }
  }

  lemma OneStep(s: Setting, d: Device, r: Recovering, junk: seq<byte>, fs: seq<seq<byte>>, step: RecoveryStep)
    returns (junk': seq<byte>, fs': seq<seq<byte>>)
    requires Holds(s, d, r, junk, fs) && CanGoOn(s, r) && Possible(s, d, r, step)
    ensures var r' := Onward(s, d, r, step);
      && Holds(s, d, r', junk', fs') && r'.host.out == r.host.out
      && Energy(r', fs') + (if IsMove(r, step) then 1 else 0) <= Energy(r, fs) + (if IsSend(step) then 11 else 0)
    ensures var r' := Onward(s, d, r, step);
      r'.host.state == KEYED_BAD ==>
      r.host.state == KEYED_BAD &&
      r'.host.keyreqs + Genuines(s, d, fs') >= r.host.keyreqs + Genuines(s, d, fs) + (if step.Plead? then 1 else 0)
  {
    hide Holds, Plausible, Energy, Genuines, Genuine, Run, ReadShape, Inv, GoodText, TextFrame, Announcement, Late,
      NoSerialAhead, ReadFits, Completes, CanGoOn;
    junk', fs' := junk, fs;
    match step {
      case Straggle(f) =>
        fs' := fs + [f];
        Queued(s, d, r, junk, fs, f);
        SumsSnoc(s, d, fs, f);
        CostAtMost(f);
      case Hear =>
        fs' := fs + [Announcement(s, d)];
        Answered(s, d, r, junk, fs);
        SumsSnoc(s, d, fs, Announcement(s, d));
      case Tell(t) =>
        var f := TextFrame(s.h, Home(d), LETTER_I, t);
        fs' := fs + [f];
        TextArrives(s, d, t);
        IsPlausible(s, d, f);
        Queued(s, d, r, junk, fs, f);
        SumsSnoc(s, d, fs, f);
        CostAtMost(f);
      case Plead(t) =>
        var f := TextFrame(s.h, Home(d), LETTER_k, t);
        fs' := fs + [f];
        TextArrives(s, d, t);
        IsPlausible(s, d, f);
        Queued(s, d, r, junk, fs, f);
        SumsSnoc(s, d, fs, f);
        CostAtMost(f);
      case Read(n, ms, ds) => junk', fs' := ReadArrives(s, d, r, junk, fs, n, ms, ds);
    }
  }

  lemma CostAtMost(f: seq<byte>)
    ensures Cost(f) <= 11
  {
  }

  lemma IsPlausible(s: Setting, d: Device, f: seq<byte>)
    requires Late(f)
    ensures Plausible(s, d, f)
  {
  }

  lemma {:induction false} EveryStep(
    s: Setting, d: Device, rs: seq<Recovering>, steps: seq<RecoveryStep>, junk: seq<byte>, fs: seq<seq<byte>>, n: nat)
    returns (junk': seq<byte>, fs': seq<seq<byte>>)
    requires IsRecovery(s, d, rs, steps, junk, fs) && n < |rs|
    ensures Holds(s, d, rs[n], junk', fs') && rs[n].host.out == rs[0].host.out
    ensures Moves(rs, steps, n) + Energy(rs[n], fs') <= Energy(rs[0], fs) + 11 * Sends(steps[..n])
    ensures rs[n].host.state == KEYED_BAD ==>
      rs[0].host.state == KEYED_BAD &&
      rs[n].host.keyreqs + Genuines(s, d, fs') >= rs[0].host.keyreqs + Genuines(s, d, fs) + Pleas(steps[..n])
  {
    hide Holds, Possible, Onward, CanGoOn, Energy, Genuines, IsMove, IsSend;
    if n == 0 {
      junk', fs' := junk, fs;
    } else {
      var oldJunk, before := EveryStep(s, d, rs, steps, junk, fs, n - 1);
      HoldsGoesOn(s, d, rs[n - 1], oldJunk, before);
      junk', fs' := OneStep(s, d, rs[n - 1], oldJunk, before, steps[n - 1]);
      assert steps[..n][..n - 1] == steps[..n - 1];
    }
  }

  predicate Quiet(r: Recovering) {
    r.unheard == 0 && Frames(r.host.pending + r.wire, 0) == []
  }

  /** The device when it has answered the host's last reset. */
  function Announced(d: Device, host: Conn): Device {
    Reborn(d, host).(phase := Idle)
  }

  /**
    * Recovery. Whatever the order in which frames arrive and resets are heard, the host puts out nothing, and there is
    * a bound to the number of arrivals and hearings, so that the exchange of resets and serial numbers ends. There is
    * something to do until it is quiet. Then host and device agree, and `Session.EndToEnd` goes on from there; only a
    * host that has rejected a key may still be ignoring everything, but not behind the device's fifty-first plea.
    */
  lemma RecoveryEnds(
    s: Setting, d: Device, rs: seq<Recovering>, steps: seq<RecoveryStep>, junk: seq<byte>, fs: seq<seq<byte>>, n: nat)
    requires IsRecovery(s, d, rs, steps, junk, fs) && n < |rs|
    ensures rs[n].host.out == rs[0].host.out
    ensures Moves(rs, steps, n) <= 11 * (|fs| + Sends(steps[..n])) + 10 * rs[0].unheard + 2
    ensures !Quiet(rs[n]) ==> rs[n].unheard > 0 || ReadFits(rs[n], 1)
    ensures Quiet(rs[n]) ==>
      if rs[n].host.state == KEYED_BAD then
        rs[0].host.state == KEYED_BAD && Pleas(steps[..n]) <= MAX_REKEYS_BEFORE_RESET
      else Settled(s, World(Announced(d, rs[n].host), rs[n].wire, rs[n].host))
  {
    hide IsRecovery, Holds, Frames, Settled, Genuines, Known, OnItsWay;
    var junk', fs' := EveryStep(s, d, rs, steps, junk, fs, n);
    CostsBound(fs);
    HoldsPending(s, d, rs[n], junk', fs');
    if Quiet(rs[n]) {
      AtQuiet(s, d, rs[n], junk', fs');
    } else if rs[n].wire == [] {
      assert rs[n].host.pending + rs[n].wire == rs[n].host.pending;
      ShortLine(rs[n].host.pending);
    }
  }

  lemma HoldsPending(s: Setting, d: Device, r: Recovering, junk: seq<byte>, fs: seq<seq<byte>>)
    requires Holds(s, d, r, junk, fs)
    ensures |r.host.pending| < FRAME_LEN
  {
    hide Frames, Plausible;
  }

  lemma AtQuiet(s: Setting, d: Device, r: Recovering, junk: seq<byte>, fs: seq<seq<byte>>)
    requires Holds(s, d, r, junk, fs) && Quiet(r)
    ensures Genuines(s, d, fs) == 0 && (r.host.state == KEYED_BAD ==> r.host.keyreqs <= MAX_REKEYS_BEFORE_RESET)
    ensures r.host.state != KEYED_BAD ==> Settled(s, World(Announced(d, r.host), r.wire, r.host))
  {
    hide Frames, Plausible;
    LineFrames(s, d, r, junk, fs);
    assert fs == [];
    var host := r.host;
    assert host.sent[|host.sent|..] == [];
  }

  /** A host that has just reset, for whatever reason, is at the start of a recovery. */
  lemma ResetBegins(s: Setting, c: Conn, e: Env, d: Device, wire: seq<byte>, junk: seq<byte>, fs: seq<seq<byte>>)
    requires s.Valid() && Known(s, d) && Inv(c) && EnvShape(c, e) && IsReset(c, Run(s.h, c, e))
    requires var host := Run(s.h, c, e);
      && (host.snum == None || (host.snum == Some(d.serial) && host.snumLen == SERIAL_LEN))
      && Frames(junk, 0) == [] && host.pending + wire == junk + Concat(fs)
    requires AllPlausible(s, d, fs) && NoRequestBehindSerial(fs)
    ensures Holds(s, d, Recovering(wire, Run(s.h, c, e), 1, false), junk, fs)
  {
    hide Run, Plausible, Frames, Count, EnvShape, IsSerial, IsRequest, Concat;
    RunKeepsInv(s.h, c, e);
    var host := Run(s.h, c, e);
    assert host.sent[|host.sent| - 1..] == Fill(1, 3);
    if host.snum.Some? {
      assert d.serial[..SERIAL_LEN] == d.serial;
    }
    if host.state == KEYED_BAD {
      BadKeyKnown(s.h, c, e);
    }
  }

  /**
    * A device that is plugged in again while the host believes in a session: its serial number is taken for anything
    * but that, whether or not it passes for authentic, and begins a recovery.
    */
  lemma ReplugBegins(s: Setting, c: Conn, e: Env, d: Device, wire: seq<byte>, junk: seq<byte>, fs: seq<seq<byte>>)
    requires s.Valid() && Known(s, d) && Inv(c) && EnvShape(c, e) && Trusted(c.state)
    requires c.snum == Some(d.serial) && c.snumLen == SERIAL_LEN && Taken(c, e) == Some(Announcement(s, d))
    requires Frames(junk, 0) == [] && Run(s.h, c, e).pending + wire == junk + Concat(fs)
    requires AllPlausible(s, d, fs) && NoRequestBehindSerial(fs)
    ensures IsReset(c, Run(s.h, c, e)) && Run(s.h, c, e).out == c.out
    ensures Holds(s, d, Recovering(wire, Run(s.h, c, e), 1, false), junk, fs)
  {
    hide Run, Plausible, Frames, Count, EnvShape, IsSerial, IsRequest, Concat, Holds, Announcement, MacPasses, Taken,
      Honest, ReadPacket;
    AnnouncementUsable(s, d, c, e);
    match c.state {
      case SESSION => SessionReacts(s.h, c, e);
      case SESSION_SENT => SentReacts(s.h, c, e);
      case KEYED_FIRST => FirstReacts(s.h, c, e);
      case KEYED => KeyedReacts(s.h, c, e);
      case _ =>
    }
    SerialKept(s.h, c, e);
    ResetBegins(s, c, e, d, wire, junk, fs);
  }

  lemma AnnouncementUsable(s: Setting, d: Device, c: Conn, e: Env)
    requires Inv(c) && EnvShape(c, e) && |d.serial| == SERIAL_LEN && Taken(c, e) == Some(Announcement(s, d))
    ensures Usable(c, e) && TypeOf(Taken(c, e).value[2]) == SNUM
  {
    hide MacOk, FrameOf, BinaryPayload, Encode12, CleanFrame, Decode, FramerStep;
    AnnouncementShape(s, d);
    AnnouncementData(s, d);
  }

  lemma AnnouncementData(s: Setting, d: Device)
    requires |d.serial| == SERIAL_LEN
    ensures var f := Announcement(s, d); PayloadField(f) && KnownClass(f) && PacketData(f) == d.serial
  {
    hide MacOk, FrameOf, BinaryPayload, Encode12, CleanFrame, Decode, PacketData, PacketSubcode;
    AnnouncementShape(s, d);
    HonestFields(Announcement(s, d));
  }

  /** No packet changes a serial number once it is known. */
  lemma SerialKept(h: Hashes, c: Conn, e: Env)
    requires Inv(c) && EnvShape(c, e) && c.snum.Some?
    ensures Run(h, c, e).snum == c.snum && Run(h, c, e).snumLen == c.snumLen
  {
    hide MacOk, PacketData, PacketSubcode, FramerStep, HandlerFor, Decrypted, Decode12, NonceCommand, Le32, SessionKey,
      DataBuffer, MacKey;
  }

  lemma BadKeyKnown(h: Hashes, c: Conn, e: Env)
    requires Inv(c) && EnvShape(c, e) && IsReset(c, Run(h, c, e)) && Run(h, c, e).state == KEYED_BAD
    ensures c.snum.Some? && Run(h, c, e).snum.Some? && Run(h, c, e).skMac.Some?
  {
    hide Run, EnvShape, SnumStep, KeyStep, NonceStep, Taken, Count, RequestStep, Broken;
    StepCauses(h, c, e);
    RunKeepsInv(h, c, e);
    if c.state == KEYED_BAD {
      StaysCounting(h, c, e);
    }
  }

  // ----- a device that cannot wait -----

  /** The answers to two resets, and a request for a key as soon as these have been sent. */
  function Hasty(s: Setting, d: Device, text: seq<byte>, n: nat): seq<seq<byte>> {
    if n == 0 then []
    else
      [Announcement(s, d)] + ([Announcement(s, d)] + ([TextFrame(s.h, Home(d), LETTER_k, text)]
        + Hasty(s, d, text, n - 1)))
  }

  lemma {:induction false} HastyHonest(s: Setting, d: Device, text: seq<byte>, n: nat)
    requires |d.serial| == SERIAL_LEN && GoodText(text)
    ensures AllHonest(Hasty(s, d, text, n))
  {
    hide Honest, Announcement, TextFrame, GoodText, Genuine, IsSerial, IsRequest, ReadPacket;
    if n > 0 {
      HastyHonest(s, d, text, n - 1);
      AnnouncementShape(s, d);
      TextArrives(s, d, text);
      var a, f := Announcement(s, d), TextFrame(s.h, Home(d), LETTER_k, text);
      LateHonest(f);
      OneMoreHonest(f, Hasty(s, d, text, n - 1));
      OneMoreHonest(a, [f] + Hasty(s, d, text, n - 1));
      OneMoreHonest(a, [a] + ([f] + Hasty(s, d, text, n - 1)));
    }
  }

  lemma OneMoreHonest(f: seq<byte>, rest: seq<seq<byte>>)
    requires Honest(f) && AllHonest(rest)
    ensures AllHonest([f] + rest)
  {
    hide Honest;
    forall i | 0 <= i < |[f] + rest|
      ensures Honest(([f] + rest)[i])
    {
      assert ([f] + rest)[i] == if i == 0 then f else rest[i - 1];
    }
  }

  lemma DrainFirst(s: Setting, c: Conn, f: seq<byte>, rest: seq<seq<byte>>)
    requires Between(c) && s.Valid() && Honest(f) && AllHonest(rest)
    ensures AllHonest([f] + rest) && Between(Effect(s, c, f))
    ensures Drain(s, c, [f] + rest) == Drain(s, Effect(s, c, f), rest)
  {
    hide Effect, Honest, Between;
    EffectKeepsBetween(s, c, f);
    assert ([f] + rest)[1..] == rest;
    OneMoreHonest(f, rest);
  }

  /**
    * Why the device has to wait until its serial number has been looked at: if it asks for a key as soon as it has
    * heard two resets, the host accepts the first answer, resets over the second, resets over the request, and all
    * begins again, for ever.
    */
  lemma {:induction false} HasteNeverEnds(s: Setting, d: Device, c: Conn, text: seq<byte>, n: nat)
    requires s.Valid() && Known(s, d) && Between(c) && OnItsWay(d, c) && c.state == INIT && GoodText(text)
    ensures AllHonest(Hasty(s, d, text, n))
    ensures var e := Drain(s, c, Hasty(s, d, text, n));
      OnItsWay(d, e) && e.state == INIT && e.out == c.out && e.sent == c.sent + Fill(2 * n, 3)
    decreases n
  {
    hide Honest, Announcement, TextFrame, GoodText, Genuine, IsSerial, Effect, Between, Late, Inv, Reset, ReadPacket,
      Drain;
    HastyHonest(s, d, text, n);
    if n == 0 {
      NothingDrained(s, c);
    } else {
      var f, rest := TextFrame(s.h, Home(d), LETTER_k, text), Hasty(s, d, text, n - 1);
      HastyHonest(s, d, text, n - 1);
      TextArrives(s, d, text);
      LateHonest(f);
      var c3 := HastyRound(s, d, c, f, rest);
      HasteNeverEnds(s, d, c3, text, n - 1);
      assert (c.sent + Fill(2, 3)) + Fill(2 * (n - 1), 3) == c.sent + (Fill(2, 3) + Fill(2 * (n - 1), 3));
      assert Fill(2, 3) + Fill(2 * (n - 1), 3) == Fill(2 * n, 3);
    }
  }

  lemma NothingDrained(s: Setting, c: Conn)
    requires Between(c) && s.Valid()
    ensures Drain(s, c, []) == c && c.sent == c.sent + Fill(0, 3)
  {
    hide Between;
  }

  lemma HastyRound(s: Setting, d: Device, c: Conn, f: seq<byte>, rest: seq<seq<byte>>) returns (c3: Conn)
    requires s.Valid() && Known(s, d) && Between(c) && OnItsWay(d, c) && c.state == INIT && Late(f) && Honest(f)
    requires AllHonest(rest)
    ensures AllHonest([Announcement(s, d)] + ([Announcement(s, d)] + ([f] + rest)))
    ensures Between(c3) && OnItsWay(d, c3) && c3.state == INIT && c3.out == c.out && c3.sent == c.sent + Fill(2, 3)
    ensures Drain(s, c, [Announcement(s, d)] + ([Announcement(s, d)] + ([f] + rest))) == Drain(s, c3, rest)
  {
    hide Honest, Announcement, Genuine, IsSerial, IsRequest, Effect, Between, Late, Inv, Reset, ReadPacket, Drain;
    AnnouncementArrives(s, d, c);
    var a := Announcement(s, d);
    var c1 := Effect(s, c, a);
    EffectKeepsBetween(s, c, a);
    AnnouncementEffect(s, d, c);
    AnnouncementEffect(s, d, c1);
    ResetOnItsWay(d, c1);
    var c2 := Effect(s, c1, a);
    EffectKeepsBetween(s, c1, a);
    LateEffect(s, d, c2, f);
    ResetOnItsWay(d, c2);
    c3 := Effect(s, c2, f);
    DrainFirst(s, c2, f, rest);
    DrainFirst(s, c1, a, [f] + rest);
    DrainFirst(s, c, a, [a] + ([f] + rest));
    assert (c.sent + Fill(1, 3)) + Fill(1, 3) == c.sent + Fill(2, 3);
  }
}
