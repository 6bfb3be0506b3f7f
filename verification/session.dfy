// Host and device together: an honest device (doc/README.protocol) whose frames reach the host as a byte stream
// in arbitrary pieces, and a host that runs `Protocol.Run` on it.

module Session {
  import opened Bytes
  import opened Pem
  import opened Hashing
  import opened Framer
  import opened DeviceFrames
  import opened Packets
  import opened Protocol
  import opened SessionRuns

  // ----- the device -----

  datatype Phase =
    | Start            // nothing sent yet
    | Idle             // serial number sent, no session
    | Asked(extra: nat)  // a key was requested, and then requested `extra` more times
    | Fresh            // new session key, no entropy sent under it
    | Streaming        // entropy flowing

  datatype Device = Device(
    serial: seq<byte>, ltkey: Digest,
    phase: Phase, key: Digest, seqNo: bv16,
    heard: seq<byte>,   // command bytes consumed so far
    since: nat,         // how many of them came before its last reset
    plain: seq<byte>)   // what the host had put out by then, and the entropy handed out since, in the clear

  const LETTER_S: byte := 83
  const LETTER_I: byte := 73
  const LETTER_k: byte := 107
  const LETTER_K: byte := 75
  const LETTER_E: byte := 69
  const FULL_STOP: byte := 46

  function Under(d: Device): Keyed { Keyed(d.serial, d.key) }

  function {:tailrecursion false} Code(n: nat): bv16 {
    if n == 0 then 0 else Code(n - 1) + 1
  }

  function SerialFrame(h: Hashes, d: Device): seq<byte> {
    FrameOf(h, Under(d), LETTER_S, BINARY, BinaryPayload(0, d.serial))
  }

  function TextFrame(h: Hashes, d: Device, letter: byte, text: seq<byte>): seq<byte> {
    FrameOf(h, Under(d), letter, TEXT, text)
  }

  /** The answer to a nonce: its sub-code is the nonce's length, its MAC still made with the old key. */
  function KeyFrame(h: Hashes, d: Device, nonce: seq<byte>, entropy: seq<byte>): seq<byte> {
    FrameOf(h, Under(d), LETTER_K, BINARY, BinaryPayload(Code(|nonce|), entropy))
  }

  function EntropyFrame(h: Hashes, d: Device, plain: Digest): seq<byte> {
    FrameOf(h, Under(d), LETTER_E, BINARY, BinaryPayload(d.seqNo, XorSeq(plain, h.pad(Under(d), Encode12(d.seqNo)))))
  }

  /** Text the device may send: no NUL, no CR, not blank, otherwise any bytes. */
  predicate GoodText(t: seq<byte>) {
    && |t| <= PAYLOAD_LEN && TrimRight(t) != []
    && forall i :: 0 <= i < |t| ==> t[i] != 0 && t[i] != EOF0
  }

  function FindStop(s: seq<byte>, i: nat): (k: nat)
    requires i <= |s|
    ensures i <= k <= |s| && (k < |s| ==> s[k] == FULL_STOP) && forall j :: i <= j < k ==> s[j] != FULL_STOP
    decreases |s| - i
  {
    if i == |s| || s[i] == FULL_STOP then i else FindStop(s, i + 1)
  }

  /** A complete re-key command among the bytes not consumed yet. */
  predicate CommandReady(unread: seq<byte>) {
    && unread != [] && unread[0] == LETTER_K && FindStop(unread, 0) < |unread|
    && SevenBit(unread[1..FindStop(unread, 0)])
  }

  function CommandNonce(unread: seq<byte>): seq<byte>
    requires CommandReady(unread)
  {
    Decode(unread[1..FindStop(unread, 0)])
  }

  // ----- the world -----

  datatype World = World(dev: Device, wire: seq<byte>, host: Conn)

  datatype Step =
    | Announce
    | Inform(text: seq<byte>)
    | Ask(text: seq<byte>)
    | Rekey(entropy: Digest)
    | Emit(plain: Digest)
    | HostRead(n: nat, macStale: seq<byte>, dataStale: seq<byte>)
    | HostIdle

  /** The random source of the host and its keyring. */
  datatype Setting = Setting(h: Hashes, random: nat -> seq<byte>, keyring: map<seq<byte>, Digest>) {
    ghost predicate Valid() { forall i :: |random(i)| == NONCE_LEN - 4 }
  }

  function HostEnv(s: Setting, c: Conn, input: StreamRead, macStale: seq<byte>, dataStale: seq<byte>): Env {
    Env(input, macStale, dataStale, Some(s.random(c.nonces)), [], Fill(NONCE_LEN, 0), true, s.keyring)
  }

  /** Repeated requests stop before the host loses patience. */
  predicate MayAsk(phase: Phase) {
    phase == Idle || phase == Streaming || (phase.Asked? && phase.extra < MAX_PACKETS_BEFORE_RESET)
  }

  predicate CanRead(w: World, n: nat) {
    1 <= n <= |w.wire| && |w.host.pending| + n <= FRAME_LEN
  }

  /** When each step is possible: the honest device's own rules, and what a read can return. */
  predicate Enabled(w: World, step: Step)
    requires |w.dev.heard| <= |w.host.sent|
  {
    match step
    case Announce => w.dev.phase == Start
    case Inform(t) => w.dev.phase != Start && GoodText(t)
    case Ask(t) => GoodText(t) && MayAsk(w.dev.phase)
    case Rekey(_) => CommandReady(w.host.sent[|w.dev.heard|..])
    case Emit(_) => w.dev.phase == Fresh || w.dev.phase == Streaming
    case HostRead(n, ms, ds) => CanRead(w, n) && |ms| == 6 && |ds| == DATA_LEN
    case HostIdle => true
  }

  /** The frame a device step sends, and the device after it. */
  function Send(s: Setting, d: Device, step: Step, unread: seq<byte>): (r: (seq<byte>, Device))
    requires !step.HostRead? && !step.HostIdle? && (step.Rekey? ==> CommandReady(unread))
  {
    match step
    case Announce => (SerialFrame(s.h, d), d.(phase := Idle))
    case Inform(t) => (TextFrame(s.h, d, LETTER_I, t), d)
    case Ask(t) => (TextFrame(s.h, d, LETTER_k, t), d.(phase := Asked(if d.phase.Asked? then d.phase.extra + 1 else 0)))
    case Rekey(entropy) =>
      var nonce := CommandNonce(unread);
      (KeyFrame(s.h, d, nonce, entropy),
       d.(phase := Fresh, seqNo := 0, heard := d.heard + unread[..FindStop(unread, 0) + 1],
          key := s.h.derive(Keyed(d.serial, d.ltkey), entropy, nonce)))
    case Emit(plain) =>
      (EntropyFrame(s.h, d, plain),
       d.(phase := if d.seqNo == LAST_SEQUENCE then Asked(0) else Streaming,
          seqNo := d.seqNo + 1, plain := d.plain + plain))
  }

  function Next(s: Setting, w: World, step: Step): World
    requires Inv(w.host) && s.Valid() && |w.dev.heard| <= |w.host.sent| && Enabled(w, step)
    requires step.HostRead? && w.host.state != CLOSE ==> ReadShape(w.host, w.wire[..step.n])
  {
    match step
    case HostRead(n, ms, ds) =>
      w.(wire := w.wire[n..], host := Run(s.h, w.host, HostEnv(s, w.host, Data(w.wire[..n]), ms, ds)))
    case HostIdle => w
    case _ =>
      var (f, d) := Send(s, w.dev, step, w.host.sent[|w.dev.heard|..]);
      w.(dev := d, wire := w.wire + f)
  }

  // ----- frames in flight -----

  /** What is true of every frame the device sends. */
  predicate Honest(f: seq<byte>) {
    && MacField(f) && PayloadField(f) && CleanFrame(f) && |Decode(f[54..62])| == 6
    && (TypeOf(f[2]) == SNUM ==> |PacketData(f)| == SERIAL_LEN)
    && (TypeOf(f[2]) == KEY || TypeOf(f[2]) == ENTROPY ==> |PacketData(f)| == 32)
  }

  predicate AllHonest(fs: seq<seq<byte>>) {
    forall i :: 0 <= i < |fs| ==> Honest(fs[i])
  }

  /** The connection between two frames. */
  predicate Between(c: Conn) {
    Inv(c) && c.pending == [] && (c.snum.Some? ==> c.snumLen == SERIAL_LEN)
  }

  function BlankEnv(s: Setting, c: Conn): Env {
    HostEnv(s, c, Closed, Fill(6, 0), Fill(DATA_LEN, 0))
  }

  /** The effect of a whole frame, with the stale buffer contents taken as zero. */
  function Effect(s: Setting, c: Conn, f: seq<byte>): Conn
    requires Between(c) && Honest(f) && s.Valid()
  {
    OnFrame(s.h, c, f, BlankEnv(s, c))
  }

  lemma SameBuffer(data: seq<byte>, s1: seq<byte>, s2: seq<byte>, n: nat)
    requires n <= |data| <= DATA_LEN == |s1| == |s2|
    ensures DataBuffer(data, s1)[..n] == DataBuffer(data, s2)[..n] == data[..n]
  {
  }

  lemma DecryptedData(h: Hashes, k: Keyed, sub: seq<byte>, data: seq<byte>, stale: seq<byte>)
    requires |data| == 32 && |stale| == DATA_LEN
    ensures Decrypted(h, k, sub, DataBuffer(data, stale), 32) == XorSeq(data, h.pad(k, sub))
  {
    hide XorSeq;
    assert DataBuffer(data, stale)[..32] == data;
  }

  lemma SameMac(h: Hashes, skMac: Option<Keyed>, f: seq<byte>, m1: seq<byte>, m2: seq<byte>)
    requires Honest(f) && |m1| == |m2| == 6
    ensures ReadPacket(h, skMac, f, m1) == ReadPacket(h, skMac, f, m2)
  {
    hide Decode, TypeOf, PacketData, PacketSubcode, CleanFrame;
    var d := Decode(f[54..62]);
    assert Splice(m1, 0, d) == d && Splice(m2, 0, d) == d;
  }

  /** Two calls with the same random bytes, the same keyring, and memory in both or in neither. */
  predicate SameHost(e1: Env, e2: Env) {
    e1.random.Some? && e1.random == e2.random && e1.keyring == e2.keyring && e1.memory == e2.memory
  }

  /** What uninitialised memory held makes no difference to an honest frame. */
  lemma StaleIrrelevant(h: Hashes, c: Conn, f: seq<byte>, e1: Env, e2: Env)
    requires Between(c) && Honest(f) && BufferShape(e1) && BufferShape(e2)
    requires SameHost(e1, e2)
    ensures OnFrame(h, c, f, e1) == OnFrame(h, c, f, e2)
  {
    hide Decrypted, MacOk, NonceCommand, Le32, Decode12, HandlerFor, ReadPacket, CleanFrame, Decode;
    SameMac(h, c.skMac, f, e1.macStale, e2.macStale);
    var p := ReadPacket(h, c.skMac, f, e1.macStale);
    if p.Packet? && |p.data| > 0 {
      HandlerShape(c.state, p.typ);
      TypedData(h, c, f, e1.macStale);
      SamePacket(h, c, p, e1, e2);
    }
  }

  lemma TypedData(h: Hashes, c: Conn, f: seq<byte>, stale: seq<byte>)
    requires Honest(f) && |stale| == 6
    ensures var p := ReadPacket(h, c.skMac, f, stale); p.Packet? ==>
      && (p.typ == SNUM ==> |p.data| == SERIAL_LEN) && (p.typ == KEY || p.typ == ENTROPY ==> |p.data| == 32)
  {
    hide Decode, MacOk, PacketSubcode, CleanFrame;
  }

  lemma SamePacket(h: Hashes, c: Conn, p: Packet, e1: Env, e2: Env)
    requires Between(c) && BufferShape(e1) && BufferShape(e2) && SameHost(e1, e2)
    requires p.Packet? && |p.subcode| == 2 && SevenBit(p.subcode) && 0 < |p.data| <= PAYLOAD_LEN
    requires (p.typ == SNUM ==> |p.data| == SERIAL_LEN) && (p.typ == KEY || p.typ == ENTROPY ==> |p.data| == 32)
    ensures OnPacket(h, c, p, e1) == OnPacket(h, c, p, e2)
  {
    hide Decrypted, NonceCommand, Le32, Decode12, HandlerFor, DataBuffer, MacKey;
    HandlerShape(c.state, p.typ);
    if p.typ == SNUM {
      SameBuffer(p.data, e1.dataStale, e2.dataStale, SERIAL_LEN);
    } else if p.typ == KEY {
      SameBuffer(p.data, e1.dataStale, e2.dataStale, 32);
    } else if p.typ == ENTROPY && c.pad.Some? {
      DecryptedData(h, c.pad.value, p.subcode, p.data, e1.dataStale);
      DecryptedData(h, c.pad.value, p.subcode, p.data, e2.dataStale);
    }
  }

  predicate HonestPacket(p: Packet) {
    && p.Packet? && |p.subcode| == 2 && SevenBit(p.subcode) && 0 < |p.data| <= PAYLOAD_LEN
    && (p.typ == SNUM ==> |p.data| == SERIAL_LEN) && (p.typ == KEY || p.typ == ENTROPY ==> |p.data| == 32)
  }

  lemma PacketKeepsBetween(h: Hashes, c: Conn, p: Packet, e: Env)
    requires Between(c) && BufferShape(e) && HonestPacket(p)
    ensures Between(OnPacket(h, c, p, e))
    ensures c.state == CLOSE || c.state == UNTRUSTED ==> OnPacket(h, c, p, e) == c
  {
    hide Decrypted, NonceCommand, Le32, Decode12, HandlerFor, DataBuffer, MacKey, Inv;
    HandleKeepsInv(h, c, p.typ, p.subcode, DataBuffer(p.data, e.dataStale), |p.data|, e);
    HandlerShape(c.state, p.typ);
    ClosedIgnores(c.state, p.typ);
  }

  lemma ClosedIgnores(s: State, t: PktType)
    ensures s == CLOSE || s == UNTRUSTED ==> HandlerFor(s, t) == NullHandler
  {
  }

  lemma PacketOnlyAppends(h: Hashes, c: Conn, p: Packet, e: Env)
    requires Between(c) && BufferShape(e) && HonestPacket(p)
    ensures c.sent <= OnPacket(h, c, p, e).sent && c.out <= OnPacket(h, c, p, e).out
  {
    hide Decrypted, NonceCommand, Le32, Decode12, HandlerFor, DataBuffer, MacKey, SessionKey;
    HandlerShape(c.state, p.typ);
  }

  lemma EffectKeepsBetween(s: Setting, c: Conn, f: seq<byte>)
    requires Between(c) && Honest(f) && s.Valid()
    ensures Between(Effect(s, c, f)) && c.sent <= Effect(s, c, f).sent && c.out <= Effect(s, c, f).out
    ensures c.state == CLOSE || c.state == UNTRUSTED ==>
      Effect(s, c, f).state == CLOSE || Effect(s, c, f).state == UNTRUSTED
  {
    hide ReadPacket, CleanFrame, Decode, OnPacket, PacketData;
    TypedData(s.h, c, f, Fill(6, 0));
    var e := BlankEnv(s, c);
    var p := ReadPacket(s.h, c.skMac, f, e.macStale);
    if p.Packet? && |p.data| > 0 {
      PacketKeepsBetween(s.h, c, p, e);
      PacketOnlyAppends(s.h, c, p, e);
    } else {
      assert OnPacket(s.h, c, p, e) == c.(state := CLOSE) by { Dropped(s.h, c, p, e); }
    }
  }

  lemma Dropped(h: Hashes, c: Conn, p: Packet, e: Env)
    requires Between(c) && BufferShape(e) && (p.Malformed? || p.data == [])
    requires p.Packet? ==> |p.subcode| == 2 && SevenBit(p.subcode)
    ensures OnPacket(h, c, p, e) == c.(state := CLOSE)
  {
  }

  /** The host as it will be when everything in flight has arrived. */
  function Drain(s: Setting, c: Conn, fs: seq<seq<byte>>): (d: Conn)
    requires Between(c) && AllHonest(fs) && s.Valid()
    ensures Between(d)
    decreases |fs|
  {
    if fs == [] then c
    else
      EffectKeepsBetween(s, c, fs[0]);
      Drain(s, Effect(s, c, fs[0]), fs[1..])
  }

  lemma {:induction false} DrainMonotone(s: Setting, c: Conn, fs: seq<seq<byte>>)
    requires Between(c) && AllHonest(fs) && s.Valid()
    ensures c.sent <= Drain(s, c, fs).sent && c.out <= Drain(s, c, fs).out
    ensures c.state == CLOSE || c.state == UNTRUSTED ==>
      Drain(s, c, fs).state == CLOSE || Drain(s, c, fs).state == UNTRUSTED
    decreases |fs|
  {
    hide Effect, Between, Honest;
    if fs != [] {
      EffectKeepsBetween(s, c, fs[0]);
      DrainMonotone(s, Effect(s, c, fs[0]), fs[1..]);
    }
  }

  lemma {:induction false} DrainSnoc(s: Setting, c: Conn, fs: seq<seq<byte>>, f: seq<byte>)
    requires Between(c) && AllHonest(fs) && Honest(f) && s.Valid()
    ensures AllHonest(fs + [f]) && Drain(s, c, fs + [f]) == Effect(s, Drain(s, c, fs), f)
    decreases |fs|
  {
    hide Effect, Between, Honest;
    assert AllHonest(fs + [f]);
    if fs == [] {
      assert fs + [f] == [f];
      EffectKeepsBetween(s, c, f);
      assert Drain(s, Effect(s, c, f), [f][1..]) == Effect(s, c, f);
    } else {
      EffectKeepsBetween(s, c, fs[0]);
      assert (fs + [f])[1..] == fs[1..] + [f];
      DrainSnoc(s, Effect(s, c, fs[0]), fs[1..], f);
    }
  }

  // ----- host and device agree -----

  predicate DeviceShape(d: Device) {
    && |d.serial| == SERIAL_LEN
    && (d.phase == Streaming ==> d.seqNo <= LAST_SEQUENCE) && (d.phase == Fresh ==> d.seqNo == 0)
    && (d.phase == Start || d.phase == Idle ==> d.key == DEFAULT_KEY)
    && d.since <= |d.heard|
  }

  predicate NoReset(sent: seq<byte>) {
    forall i :: 0 <= i < |sent| ==> sent[i] != 3
  }

  /** The drained host `c` mirrors the device: same phase, same key for MACs and pads, the device's plaintext on
      the output, and no command but the nonces the device has consumed and the one it may still be asked to. */
  predicate Agree(c: Conn, d: Device) {
    && c.out == d.plain && d.since <= |c.sent| && NoReset(c.sent[d.since..])
    && (c.snum.Some? ==> c.snum.value == d.serial)
    && (d.phase != Start ==> c.snum.Some? && c.ltkey == Some(d.ltkey) && c.skMac == Some(Under(d)))
    && match d.phase
       case Start => c.state == INIT && (c.skMac == None || c.skMac == Some(Under(d))) && c.sent == d.heard
       case Idle => c.state == SESSION && c.sent == d.heard
       case Asked(extra) =>
         && c.state == SESSION_SENT && c.keyreqs == extra
         && c.nonce.Some? && c.sent == d.heard + NonceCommand(c.nonce.value)
       case Fresh => c.state == KEYED_FIRST && c.pad == c.skMac && c.sent == d.heard
       case Streaming => c.state == KEYED && c.pad == c.skMac && c.sent == d.heard
  }

  lemma EffectOfPacket(s: Setting, c: Conn, f: seq<byte>, p: Packet)
    requires Between(c) && Honest(f) && s.Valid() && p.Packet? && 0 < |p.data|
    requires ReadPacket(s.h, c.skMac, f, Fill(6, 0)) == p
    ensures Effect(s, c, f) == Handle(s.h, c, p.typ, p.subcode, DataBuffer(p.data, Fill(DATA_LEN, 0)), |p.data|,
                                      BlankEnv(s, c))
  {
    hide Handle, ReadPacket, Between, DataBuffer;
  }

  lemma TypeLetters()
    ensures TypeOf(LETTER_S) == SNUM && TypeOf(LETTER_I) == INFO && TypeOf(LETTER_k) == KEYREQ
    ensures TypeOf(LETTER_K) == KEY && TypeOf(LETTER_E) == ENTROPY
  {
  }

  /** Frames filled in from text without CR are clean, and their MAC field decodes to six bytes. */
  lemma FilledFrameClean(h: Hashes, k: Keyed, ft1: byte, ft2: byte, p: seq<byte>)
    requires ft1 != EOF0 && ft2 != EOF0 && (ft2 == BINARY ==> SevenBit(Payload(p, PAYLOAD_LEN)))
    requires forall i :: 0 <= i < |Payload(p, PAYLOAD_LEN)| ==> Payload(p, PAYLOAD_LEN)[i] != EOF0
    ensures var f := FrameOf(h, k, ft1, ft2, p);
      MacField(f) && PayloadField(f) && CleanFrame(f) && |Decode(f[54..62])| == 6
  {
    hide Decode, Payload, Tag, IsFrame;
    var c := Content(ft1, ft2, p);
    var f := FrameOf(h, k, ft1, ft2, p);
    FilledFrameShape(h, k, ft1, ft2, p);
    TagDecodes(h, k, c);
    TagIsText(h, k, c);
    assert f[54..62] == Tag(h, k, c);
  }

  lemma TagIsText(h: Hashes, k: Keyed, content: seq<byte>)
    ensures forall i :: 0 <= i < 8 ==> Tag(h, k, content)[i] != EOF0
  {
    hide Encode, AllGood;
    var d := h.mac(k, content);
    EncodeShape(d[..3]);
    EncodeShape(d[29..]);
    PemCharsAreText(Encode(d[..3]));
    PemCharsAreText(Encode(d[29..]));
  }

  lemma BinaryHonest(h: Hashes, k: Keyed, letter: byte, subcode: bv16, data: seq<byte>)
    requires letter != EOF0 && TypeOf(letter) != NONE && |data| <= 36
    requires (TypeOf(letter) == SNUM ==> |data| == SERIAL_LEN)
    requires (TypeOf(letter) == KEY || TypeOf(letter) == ENTROPY ==> |data| == 32)
    ensures var f := FrameOf(h, k, letter, BINARY, BinaryPayload(subcode, data));
      && Honest(f)
      && ReadPacket(h, Some(k), f, Fill(6, 0)) == Packet(TypeOf(letter), Encode12(subcode), data)
      && (TypeOf(letter) == SNUM ==> ReadPacket(h, None, f, Fill(6, 0)) == Packet(SNUM, Encode12(subcode), data))
  {
    hide FrameOf, Decode, Encode12, CleanFrame, TypeOf, MacOk, PacketData, PacketSubcode, BinaryPayload, Payload;
    var p := BinaryPayload(subcode, data);
    BinaryPayloadText(subcode, data);
    FilledFrameClean(h, k, letter, BINARY, p);
    BinaryFrameRoundTrip(h, k, letter, subcode, data, Fill(6, 0));
  }

  lemma TextHonest(h: Hashes, k: Keyed, letter: byte, text: seq<byte>)
    requires letter != EOF0 && (TypeOf(letter) == INFO || TypeOf(letter) == KEYREQ) && GoodText(text)
    ensures var f := FrameOf(h, k, letter, TEXT, text);
      && Honest(f)
      && ReadPacket(h, Some(k), f, Fill(6, 0)) == Packet(TypeOf(letter), [0, 0], TrimRight(text))
      && TrimRight(text) != []
  {
    hide FrameOf, Decode, CleanFrame, TypeOf, MacOk, PacketData, PacketSubcode, Payload, TrimRight;
    WholePayload(text);
    FilledFrameClean(h, k, letter, TEXT, text);
    TextFrameRoundTrip(h, k, letter, text, Fill(6, 0));
  }

  lemma NonceCommandText(nonce: seq<byte>)
    ensures var c := NonceCommand(nonce);
      && |c| >= 2 && NoReset(c) && c[0] == LETTER_K && c[|c| - 1] == FULL_STOP
      && (forall i :: 0 <= i < |c| - 1 ==> c[i] != FULL_STOP) && c[1..|c| - 1] == Encode(nonce)
  {
    hide Encode, AllGood;
    EncodeShape(nonce);
    forall i | 0 <= i < |Encode(nonce)| ensures Encode(nonce)[i] != 3 && Encode(nonce)[i] != FULL_STOP {
      PemCharNotControl(Encode(nonce), i);
    }
  }

  lemma PemCharNotControl(t: seq<byte>, i: nat)
    requires AllGood(t) && i < |t|
    ensures t[i] != 3 && t[i] != FULL_STOP
  {
    hide IsPemChar;
    assert IsPemChar(t[i]);
    ControlIsNotPem(t[i]);
  }

  lemma ControlIsNotPem(c: byte)
    requires IsPemChar(c)
    ensures c != 3 && c != FULL_STOP
  {
  }

  lemma SerialAccepted(c: Conn, d: Device, buf: seq<byte>, keyring: map<seq<byte>, Digest>)
    requires Inv(c) && |buf| == DATA_LEN && |d.serial| == SERIAL_LEN && buf[..SERIAL_LEN] == d.serial
    requires c.snum.Some? ==> c.snum.value == d.serial && c.snumLen == SERIAL_LEN
    requires d.serial in keyring
    ensures SnumPacket(c, buf, SERIAL_LEN, keyring)
         == c.(snum := Some(d.serial), snumLen := SERIAL_LEN, state := SESSION,
               skMac := Some(Keyed(d.serial, DEFAULT_KEY)), ltkey := Some(keyring[d.serial]))
  {
    assert d.serial[..SERIAL_LEN] == d.serial;
  }

  lemma AnnounceAgrees(s: Setting, c: Conn, d: Device)
    requires s.Valid() && Between(c) && Agree(c, d) && DeviceShape(d) && d.phase == Start
    requires d.serial in s.keyring && s.keyring[d.serial] == d.ltkey
    ensures Honest(SerialFrame(s.h, d)) && Agree(Effect(s, c, SerialFrame(s.h, d)), d.(phase := Idle))
  {
    hide Effect, Honest, ReadPacket, FrameOf, Encode12, NoReset, NonceCommand, SnumPacket, Inv, DataBuffer,
      Reset, BadKey, CountRequest, KeyReq, KeyPacket, EntropyPacket;
    TypeLetters();
    BinaryHonest(s.h, Under(d), LETTER_S, 0, d.serial);
    EffectOfPacket(s, c, SerialFrame(s.h, d), Packet(SNUM, Encode12(0), d.serial));
    SameBuffer(d.serial, Fill(DATA_LEN, 0), Fill(DATA_LEN, 0), SERIAL_LEN);
    SerialAccepted(c, d, DataBuffer(d.serial, Fill(DATA_LEN, 0)), s.keyring);
  }

  lemma InformAgrees(s: Setting, c: Conn, d: Device, text: seq<byte>)
    requires s.Valid() && Between(c) && Agree(c, d) && DeviceShape(d) && d.phase != Start && GoodText(text)
    ensures Honest(TextFrame(s.h, d, LETTER_I, text)) && Agree(Effect(s, c, TextFrame(s.h, d, LETTER_I, text)), d)
  {
    hide Effect, Honest, ReadPacket, FrameOf, NoReset, NonceCommand, TrimRight;
    TypeLetters();
    TextHonest(s.h, Under(d), LETTER_I, text);
    EffectOfPacket(s, c, TextFrame(s.h, d, LETTER_I, text), Packet(INFO, [0, 0], TrimRight(text)));
  }

  lemma SentNonce(sent: seq<byte>, since: nat, nonce: seq<byte>)
    requires since <= |sent| && NoReset(sent[since..])
    ensures NoReset((sent + NonceCommand(nonce))[since..])
  {
    hide NonceCommand;
    NonceCommandText(nonce);
    assert (sent + NonceCommand(nonce))[since..] == sent[since..] + NonceCommand(nonce);
  }

  lemma AskAgrees(s: Setting, c: Conn, d: Device, text: seq<byte>)
    requires s.Valid() && Between(c) && Agree(c, d) && DeviceShape(d) && GoodText(text)
    requires MayAsk(d.phase)
    ensures Honest(TextFrame(s.h, d, LETTER_k, text))
    ensures Agree(
      Effect(s, c, TextFrame(s.h, d, LETTER_k, text)),
      d.(phase := Asked(if d.phase.Asked? then d.phase.extra + 1 else 0)))
  {
    hide Effect, Honest, ReadPacket, FrameOf, NoReset, NonceCommand, TrimRight, Le32;
    TypeLetters();
    TextHonest(s.h, Under(d), LETTER_k, text);
    EffectOfPacket(s, c, TextFrame(s.h, d, LETTER_k, text), Packet(KEYREQ, [0, 0], TrimRight(text)));
    SentNonce(c.sent, d.since, Le32(c.nonces) + s.random(c.nonces));
  }

  lemma XorTwice(a: seq<byte>, b: seq<byte>)
    requires |a| == |b|
    ensures XorSeq(XorSeq(a, b), b) == a
  {
  }

  lemma SequenceCode(n: bv16)
    requires n <= LAST_SEQUENCE
    ensures n & 0xfff == n
  {
  }

  lemma EntropyAccepted(s: Setting, c: Conn, d: Device, plain: Digest)
    requires s.Valid() && Inv(c) && Keying(c.state) && c.pad == Some(Under(d)) && d.seqNo <= LAST_SEQUENCE
    ensures var sub := Encode12(d.seqNo);
      var data := XorSeq(plain, s.h.pad(Under(d), sub));
      var c1 := c.(state := KEYED, out := c.out + plain);
      EntropyPacket(s.h, c, sub, DataBuffer(data, Fill(DATA_LEN, 0)), 32, BlankEnv(s, c))
      == if d.seqNo == LAST_SEQUENCE then KeyReq(c1, BlankEnv(s, c)) else c1
  {
    hide Encode12, Decode12, XorSeq, Decrypted, DataBuffer, KeyReq;
    var sub, pad := Encode12(d.seqNo), s.h.pad(Under(d), Encode12(d.seqNo));
    DecryptedData(s.h, Under(d), sub, XorSeq(plain, pad), Fill(DATA_LEN, 0));
    XorTwice(plain, pad);
    RoundTrip12(d.seqNo);
    SequenceCode(d.seqNo);
  }

  lemma EmitEffect(s: Setting, c: Conn, d: Device, plain: Digest)
    requires s.Valid() && Between(c) && Keying(c.state)
    requires c.pad == c.skMac == Some(Under(d)) && d.seqNo <= LAST_SEQUENCE
    ensures var f := EntropyFrame(s.h, d, plain);
      var c1 := c.(state := KEYED, out := c.out + plain);
      Honest(f) && Effect(s, c, f) == if d.seqNo == LAST_SEQUENCE then KeyReq(c1, BlankEnv(s, c)) else c1
  {
    hide Effect, Honest, ReadPacket, FrameOf, Encode12, XorSeq, DataBuffer, EntropyPacket, KeyReq;
    TypeLetters();
    var sub := Encode12(d.seqNo);
    var data := XorSeq(plain, s.h.pad(Under(d), sub));
    BinaryHonest(s.h, Under(d), LETTER_E, d.seqNo, data);
    EffectOfPacket(s, c, EntropyFrame(s.h, d, plain), Packet(ENTROPY, sub, data));
    EntropyAccepted(s, c, d, plain);
  }

  lemma EmitAgrees(s: Setting, c: Conn, d: Device, plain: Digest)
    requires s.Valid() && Between(c) && Agree(c, d) && DeviceShape(d) && (d.phase == Fresh || d.phase == Streaming)
    ensures Honest(EntropyFrame(s.h, d, plain))
    ensures Agree(Effect(s, c, EntropyFrame(s.h, d, plain)), Send(s, d, Emit(plain), []).1)
  {
    hide Effect, Honest, EntropyFrame, NoReset, NonceCommand, Le32;
    EmitEffect(s, c, d, plain);
    SentNonce(c.sent, d.since, Le32(c.nonces) + s.random(c.nonces));
  }

  lemma CodeTwelve()
    ensures Code(12) == 12
  {
    assert Code(4) == 4;
    assert Code(8) == 8;
  }

  lemma KeyAccepted(h: Hashes, c: Conn, d: Device, buf: seq<byte>, entropy: Digest)
    requires Inv(c) && c.state == SESSION_SENT && c.snum == Some(d.serial) && |d.serial| == SERIAL_LEN
    requires c.ltkey == Some(d.ltkey)
    requires |buf| == DATA_LEN && buf[..32] == entropy
    ensures var k := Some(Keyed(d.serial, h.derive(Keyed(d.serial, d.ltkey), entropy, c.nonce.value)));
      KeyPacket(h, c, Encode12(12), buf)
        == c.(state := KEYED_FIRST, skMac := k, pad := k, rekeys := Count(c.rekeys + 1))
  {
    hide Encode12, Decode12;
    RoundTrip12(12);
    assert d.serial[..SERIAL_LEN] == d.serial;
  }

  lemma RekeyEffect(s: Setting, c: Conn, d: Device, entropy: Digest)
    requires s.Valid() && Between(c) && c.state == SESSION_SENT && c.snum == Some(d.serial) && |d.serial| == SERIAL_LEN
    requires c.ltkey == Some(d.ltkey) && c.skMac == Some(Under(d))
    ensures var f := KeyFrame(s.h, d, c.nonce.value, entropy);
      var k := Some(Keyed(d.serial, s.h.derive(Keyed(d.serial, d.ltkey), entropy, c.nonce.value)));
      Honest(f) && Effect(s, c, f) == c.(state := KEYED_FIRST, skMac := k, pad := k, rekeys := Count(c.rekeys + 1))
  {
    hide Effect, Honest, ReadPacket, FrameOf, Encode12, Code, KeyPacket, DataBuffer;
    TypeLetters();
    CodeTwelve();
    BinaryHonest(s.h, Under(d), LETTER_K, 12, entropy);
    EffectOfPacket(s, c, KeyFrame(s.h, d, c.nonce.value, entropy), Packet(KEY, Encode12(12), entropy));
    SameBuffer(entropy, Fill(DATA_LEN, 0), Fill(DATA_LEN, 0), 32);
    KeyAccepted(s.h, c, d, DataBuffer(entropy, Fill(DATA_LEN, 0)), entropy);
  }

  lemma AgreeAsked(c: Conn, d: Device)
    requires Agree(c, d) && d.phase.Asked?
    ensures c.state == SESSION_SENT && c.nonce.Some? && c.snum == Some(d.serial)
    ensures c.ltkey == Some(d.ltkey) && c.skMac == Some(Under(d))
  {
    hide NoReset, NonceCommand;
  }

  /** With the new key on both sides, host and device agree. */
  lemma KeyedAgrees(c: Conn, d: Device, key: Digest, heard: seq<byte>)
    requires Agree(c, d) && d.phase.Asked? && c.nonce.Some? && heard == NonceCommand(c.nonce.value)
    ensures var k := Some(Keyed(d.serial, key));
      Agree(c.(state := KEYED_FIRST, skMac := k, pad := k, rekeys := Count(c.rekeys + 1)),
            d.(phase := Fresh, seqNo := 0, heard := d.heard + heard, key := key))
  {
    hide NoReset, NonceCommand;
  }

  lemma RekeyAgrees(s: Setting, c: Conn, d: Device, unread: seq<byte>, entropy: Digest)
    requires s.Valid() && Between(c) && Agree(c, d) && DeviceShape(d) && d.phase.Asked?
    requires unread == NonceCommand(c.nonce.value) && CommandReady(unread) && CommandNonce(unread) == c.nonce.value
    requires FindStop(unread, 0) + 1 == |unread|
    ensures Honest(KeyFrame(s.h, d, CommandNonce(unread), entropy))
    ensures Agree(Effect(s, c, KeyFrame(s.h, d, CommandNonce(unread), entropy)), Send(s, d, Rekey(entropy), unread).1)
  {
    hide Effect, Honest, KeyFrame, Agree, NonceCommand, CommandReady, CommandNonce, FindStop;
    AgreeAsked(c, d);
    KeyedAgrees(c, d, s.h.derive(Keyed(d.serial, d.ltkey), entropy, c.nonce.value), unread);
    RekeyEffect(s, c, d, entropy);
    assert unread[..|unread|] == unread;
  }

  lemma {:induction false} FindsFirst(s: seq<byte>, i: nat, k: nat)
    requires i <= k < |s| && s[k] == FULL_STOP && forall j :: i <= j < k ==> s[j] != FULL_STOP
    ensures FindStop(s, i) == k
    decreases k - i
  {
    if i < k {
      FindsFirst(s, i + 1, k);
    }
  }

  /** The host's whole nonce command is a complete command. */
  lemma CommandComplete(nonce: seq<byte>)
    ensures CommandReady(NonceCommand(nonce))
  {
    hide NonceCommand, Encode, FindStop;
    var c := NonceCommand(nonce);
    NonceCommandText(nonce);
    RoundTrip(nonce);
    FindsFirst(c, 0, |c| - 1);
    assert c[1..|c| - 1] == Encode(nonce);
  }

  /** The device finds the host's nonce in its input, and not before all of it is there. */
  lemma CommandIsNonce(unread: seq<byte>, nonce: seq<byte>)
    requires unread <= NonceCommand(nonce) && CommandReady(unread)
    ensures unread == NonceCommand(nonce) && FindStop(unread, 0) + 1 == |unread| && CommandNonce(unread) == nonce
  {
    hide NonceCommand, Encode, Decode;
    NonceCommandText(nonce);
    RoundTrip(nonce);
    var k, c := FindStop(unread, 0), NonceCommand(nonce);
    assert unread[k] == c[k];
    assert unread[1..k] == c[1..|c| - 1];
  }

  // ----- every run of the world -----

  /** What holds after every step, with `junk` and then the frames `fs` in flight. */
  ghost predicate WorldInv(s: Setting, w: World, junk: seq<byte>, fs: seq<seq<byte>>) {
    && s.Valid() && DeviceShape(w.dev) && w.dev.serial in s.keyring && s.keyring[w.dev.serial] == w.dev.ltkey
    && Inv(w.host) && (w.host.snum.Some? ==> w.host.snumLen == SERIAL_LEN)
    && AllHonest(fs) && Frames(junk, 0) == [] && w.host.pending + w.wire == junk + Concat(fs)
    && Agree(Drain(s, w.host.(pending := []), fs), w.dev)
    && w.dev.heard <= w.host.sent
  }

  lemma BetweenOf(c: Conn)
    requires Inv(c) && (c.snum.Some? ==> c.snumLen == SERIAL_LEN)
    ensures Between(c.(pending := []))
  {
  }

  /** The actual host has not reset since the device did, nor been untrusted or closed. */
  lemma HostIsFine(s: Setting, w: World, junk: seq<byte>, fs: seq<seq<byte>>)
    requires WorldInv(s, w, junk, fs)
    ensures w.dev.since <= |w.host.sent| && NoReset(w.host.sent[w.dev.since..])
    ensures w.host.state != UNTRUSTED && w.host.state != CLOSE
    ensures w.host.out <= w.dev.plain
  {
    hide Inv, Effect, Honest, NonceCommand, Frames;
    var c := w.host.(pending := []);
    BetweenOf(w.host);
    DrainMonotone(s, c, fs);
    var d, since := Drain(s, c, fs), w.dev.since;
    forall i | 0 <= i < |c.sent| - since
      ensures c.sent[since..][i] != 3
    {
      assert c.sent[since..][i] == d.sent[since..][i];
    }
  }

  lemma {:induction false} ConcatSnoc(fs: seq<seq<byte>>, f: seq<byte>)
    ensures Concat(fs + [f]) == Concat(fs) + f
  {
    if fs == [] {
      assert fs + [f] == [f] && Concat([f]) == f + Concat([]);
    } else {
      assert (fs + [f])[1..] == fs[1..] + [f];
      ConcatSnoc(fs[1..], f);
    }
  }

  lemma NextSequence(n: bv16)
    requires n <= LAST_SEQUENCE && n != LAST_SEQUENCE
    ensures n + 1 <= LAST_SEQUENCE
  {
  }

  /** A nonce command reaches the device only while it is waiting for one, and then it is the host's nonce. */
  lemma CommandMeansAsked(s: Setting, w: World, junk: seq<byte>, fs: seq<seq<byte>>)
    requires WorldInv(s, w, junk, fs) && CommandReady(w.host.sent[|w.dev.heard|..])
    ensures var c, unread := Drain(s, w.host.(pending := []), fs), w.host.sent[|w.dev.heard|..];
      w.dev.phase.Asked? && unread == NonceCommand(c.nonce.value) && CommandNonce(unread) == c.nonce.value
      && FindStop(unread, 0) + 1 == |unread| && w.host.sent == w.dev.heard + unread
  {
    hide Inv, Effect, Honest, NonceCommand, CommandReady, CommandNonce, FindStop, NoReset;
    BetweenOf(w.host);
    DrainMonotone(s, w.host.(pending := []), fs);
    var c, unread := Drain(s, w.host.(pending := []), fs), w.host.sent[|w.dev.heard|..];
    assert w.host.sent == w.dev.heard + unread;
    NothingReady(unread);
    assert |w.host.sent| <= |c.sent|;
    if w.dev.phase.Asked? {
      assert w.dev.heard + unread <= w.dev.heard + NonceCommand(c.nonce.value);
      CommandIsNonce(unread, c.nonce.value);
    }
  }

  lemma NothingReady(unread: seq<byte>)
    requires CommandReady(unread)
    ensures unread != []
  {
  }

  predicate IsDeviceStep(step: Step) { !step.HostRead? && !step.HostIdle? }

  /** The frame of a device step is honest, and the drained host follows the device. */
  lemma SendAgrees(s: Setting, w: World, junk: seq<byte>, fs: seq<seq<byte>>, step: Step)
    requires WorldInv(s, w, junk, fs) && IsDeviceStep(step) && Enabled(w, step)
    ensures var c := Drain(s, w.host.(pending := []), fs);
      var (f, d) := Send(s, w.dev, step, w.host.sent[|w.dev.heard|..]);
      && Between(c) && Honest(f) && Agree(Effect(s, c, f), d) && d.heard <= w.host.sent
      && d.serial == w.dev.serial && d.ltkey == w.dev.ltkey && DeviceShape(d)
  {
    hide Inv, Effect, Honest, NonceCommand, CommandReady, CommandNonce, FindStop, NoReset, Agree, GoodText;
    hide SerialFrame, TextFrame, KeyFrame, EntropyFrame;
    BetweenOf(w.host);
    var c := Drain(s, w.host.(pending := []), fs);
    match step {
      case Announce => AnnounceAgrees(s, c, w.dev);
      case Inform(t) => InformAgrees(s, c, w.dev, t);
      case Ask(t) => AskAgrees(s, c, w.dev, t);
      case Rekey(entropy) =>
        CommandMeansAsked(s, w, junk, fs);
        var unread := w.host.sent[|w.dev.heard|..];
        RekeyAgrees(s, c, w.dev, unread, entropy);
        assert unread[..|unread|] == unread;
      case Emit(plain) =>
        EmitAgrees(s, c, w.dev, plain);
        if w.dev.seqNo <= LAST_SEQUENCE && w.dev.seqNo != LAST_SEQUENCE { NextSequence(w.dev.seqNo); }
        EmitSends(s, w.dev, plain, w.host.sent[|w.dev.heard|..]);
      case HostRead(_, _, _) =>
      case HostIdle =>
    }
  }

  lemma EmitSends(s: Setting, d: Device, plain: Digest, unread: seq<byte>)
    ensures Send(s, d, Emit(plain), unread) == Send(s, d, Emit(plain), [])
  {
  }

  lemma DeviceStepKeeps(s: Setting, w: World, junk: seq<byte>, fs: seq<seq<byte>>, step: Step)
    returns (fs': seq<seq<byte>>)
    requires WorldInv(s, w, junk, fs) && IsDeviceStep(step) && Enabled(w, step)
    ensures WorldInv(s, Next(s, w, step), junk, fs')
  {
    hide Inv, Effect, Honest, Agree, DeviceShape, Send, Frames;
    var (f, d) := Send(s, w.dev, step, w.host.sent[|w.dev.heard|..]);
    fs' := fs + [f];
    BetweenOf(w.host);
    SendAgrees(s, w, junk, fs, step);
    DrainSnoc(s, w.host.(pending := []), fs, f);
    ConcatSnoc(fs, f);
    NextSends(s, w, step);
    assert w.host.pending + (w.wire + f) == (w.host.pending + w.wire) + f;
    assert junk + (Concat(fs) + f) == (junk + Concat(fs)) + f;
  }

  lemma NextSends(s: Setting, w: World, step: Step)
    requires Inv(w.host) && s.Valid() && |w.dev.heard| <= |w.host.sent| && Enabled(w, step) && IsDeviceStep(step)
    ensures var (f, d) := Send(s, w.dev, step, w.host.sent[|w.dev.heard|..]);
      Next(s, w, step) == w.(dev := d, wire := w.wire + f)
  {
    hide Inv, Enabled;
  }

  // ----- the host's reads -----

  lemma HonestDecodable(f: seq<byte>, skMac: Option<Keyed>)
    requires Honest(f)
    ensures Decodable(skMac, f) && CleanFrame(f)
  {
    hide Decode, CleanFrame, TypeOf;
  }

  lemma AllClean(fs: seq<seq<byte>>)
    requires AllHonest(fs)
    ensures forall i :: 0 <= i < |fs| ==> CleanFrame(fs[i])
  {
    hide CleanFrame, Decode, TypeOf, MacField, PayloadField;
    forall i | 0 <= i < |fs|
      ensures CleanFrame(fs[i])
    {
      assert Honest(fs[i]);
    }
  }

  /** A frame at the front of what is in flight is the first frame sent, and no junk is left. */
  lemma FrontIsFirst(junk: seq<byte>, fs: seq<seq<byte>>, got: seq<byte>, rest: seq<byte>)
    requires AllHonest(fs) && Frames(junk, 0) == [] && got + rest == junk + Concat(fs) && IsFrame(got)
    ensures junk == [] && fs != [] && got == fs[0] && rest == Concat(fs[1..])
  {
    hide Honest, IsFrame;
    AllClean(fs);
    SelfSynchronising(junk, fs, 0);
    TakeFrame(got, rest, 0);
    hide Frames;
    assert Numbered(fs, |junk|)[0] == Located(0, got);
    assert got + rest == fs[0] + Concat(fs[1..]);
    assert rest == (got + rest)[|got|..];
  }

  lemma {:induction false} NoFrameAnywhere(s: seq<byte>, off: nat, other: nat, k: nat)
    requires Frames(s, off) == [] && k <= |s|
    ensures Frames(s[k..], other) == []
  {
    hide IsFrame;
    if |s| < FRAME_LEN {
    } else if k > 0 {
      assert s[1..][k - 1..] == s[k..];
      NoFrameAnywhere(s[1..], off + 1, other, k - 1);
    } else {
      assert s[0..] == s;
      NoFrameAnywhere(s[1..], off + 1, other + 1, 0);
      assert s[1..][0..] == s[1..];
    }
  }

  /** A full buffer that is no frame lies in front of the first frame sent: what is dropped of it is junk. */
  lemma FrontIsJunk(junk: seq<byte>, fs: seq<seq<byte>>, got: seq<byte>, rest: seq<byte>) returns (less: seq<byte>)
    requires AllHonest(fs) && Frames(junk, 0) == [] && got + rest == junk + Concat(fs)
    requires |got| == FRAME_LEN && !IsFrame(got)
    ensures Frames(less, 0) == [] && got[NextStar(got, 1)..] + rest == less + Concat(fs)
  {
    hide Honest, Frames;
    AllClean(fs);
    var k, whole := NextStar(got, 1), junk + Concat(fs);
    if fs != [] {
      CleanIsFrame(fs[0]);
      assert whole[|junk|] == fs[0][0];
      if junk == [] {
        SameFront(got, rest, fs[0], Concat(fs[1..]));
      } else if |junk| < FRAME_LEN {
        assert got[|junk|] == whole[|junk|];
      }
    }
    assert k <= |junk|;
    less := junk[k..];
    NoFrameAnywhere(junk, 0, 0, k);
    assert got[k..] + rest == (got + rest)[k..] == whole[k..] == less + Concat(fs);
  }

  lemma SameFront(a: seq<byte>, x: seq<byte>, b: seq<byte>, y: seq<byte>)
    requires a + x == b + y && |a| == |b|
    ensures a == b
  {
    assert a == (a + x)[..|a|] && b == (b + y)[..|b|];
  }

  /** A read that does not complete a frame changes nothing but where the bytes are. */
  lemma PartialRead(s: Setting, w: World, n: nat, ms: seq<byte>, ds: seq<byte>)
    requires s.Valid() && Inv(w.host) && w.host.state != CLOSE && CanRead(w, n) && |ms| == 6 && |ds| == DATA_LEN
    requires var got := w.host.pending + w.wire[..n]; |got| < FRAME_LEN || !IsFrame(got)
    ensures ReadShape(w.host, w.wire[..n])
    ensures var got := w.host.pending + w.wire[..n];
      Run(s.h, w.host, HostEnv(s, w.host, Data(w.wire[..n]), ms, ds))
        == w.host.(pending := if |got| < FRAME_LEN then got else got[NextStar(got, 1)..])
  {
    hide OnFrame, IsFrame;
  }

  /** A read that completes the first frame in flight has that frame's effect. */
  lemma FullRead(s: Setting, w: World, f: seq<byte>, n: nat, ms: seq<byte>, ds: seq<byte>)
    requires s.Valid() && Inv(w.host) && w.host.state != CLOSE && CanRead(w, n) && |ms| == 6 && |ds| == DATA_LEN
    requires (w.host.snum.Some? ==> w.host.snumLen == SERIAL_LEN) && Honest(f) && w.host.pending + w.wire[..n] == f
    ensures ReadShape(w.host, w.wire[..n]) && Between(w.host.(pending := []))
    ensures Run(s.h, w.host, HostEnv(s, w.host, Data(w.wire[..n]), ms, ds)) == Effect(s, w.host.(pending := []), f)
  {
    hide OnFrame, Decode, IsFrame, CleanFrame, TypeOf, PacketData;
    var c := w.host.(pending := []);
    BetweenOf(w.host);
    HonestDecodable(f, w.host.skMac);
    CleanIsFrame(f);
    StaleIrrelevant(
      s.h, c, f, HostEnv(s, w.host, Data(w.wire[..n]), ms, ds), BlankEnv(s, c));
  }

  /** Every read is one the host can make sense of, and keeps the agreement. */
  lemma ReadKeeps(s: Setting, w: World, junk: seq<byte>, fs: seq<seq<byte>>, n: nat, ms: seq<byte>, ds: seq<byte>)
    returns (junk': seq<byte>, fs': seq<seq<byte>>)
    requires WorldInv(s, w, junk, fs) && CanRead(w, n) && |ms| == 6 && |ds| == DATA_LEN
    ensures ReadShape(w.host, w.wire[..n])
    ensures WorldInv(s, Next(s, w, HostRead(n, ms, ds)), junk', fs')
  {
    hide Inv, Effect, Honest, Agree, Run, NoReset, Frames, IsFrame, FramerStep, Decodable;
    HostIsFine(s, w, junk, fs);
    var c := w.host.(pending := []);
    BetweenOf(w.host);
    assert w.wire == w.wire[..n] + w.wire[n..];
    var got, rest := w.host.pending + w.wire[..n], w.wire[n..];
    assert w.host.pending + w.wire == got + rest;
    junk', fs' := junk, fs;
    if |got| == FRAME_LEN && IsFrame(got) {
      FrontIsFirst(junk, fs, got, rest);
      fs' := fs[1..];
      assert Honest(fs[0]);
      FullRead(s, w, got, n, ms, ds);
      EffectKeepsBetween(s, c, fs[0]);
      var c' := Effect(s, c, fs[0]);
      PendingEmpty(c');
      BetweenLen(c');
      assert [] + rest == rest == [] + Concat(fs');
    } else {
      PartialRead(s, w, n, ms, ds);
      if |got| == FRAME_LEN {
        junk' := FrontIsJunk(junk, fs, got, rest);
      }
      RunKeepsInv(s.h, w.host, HostEnv(s, w.host, Data(w.wire[..n]), ms, ds));
    }
  }

  lemma PendingEmpty(c: Conn)
    requires Between(c)
    ensures c.(pending := []) == c
  {
  }

  lemma BetweenLen(c: Conn)
    requires Between(c)
    ensures Inv(c) && c.pending == [] && (c.snum.Some? ==> c.snumLen == SERIAL_LEN)
  {
  }

  // ----- theorem -----

  /**
    * A new life of the device: it has not spoken yet, and has heard everything the host has sent. The host waits for
    * a serial number, with any past; it may have the default key installed. No frame is in flight, but anything else
    * may be.
    */
  ghost predicate Restart(s: Setting, w: World) {
    && DeviceShape(w.dev) && w.dev.phase == Start && w.dev.plain == w.host.out
    && w.dev.heard == w.host.sent && w.dev.since == |w.host.sent|
    && w.dev.serial in s.keyring && s.keyring[w.dev.serial] == w.dev.ltkey
    && Inv(w.host) && w.host.state == INIT && (w.host.skMac == None || w.host.skMac == Some(Under(w.dev)))
    && (w.host.snum == None || (w.host.snum == Some(w.dev.serial) && w.host.snumLen == SERIAL_LEN))
    && Frames(w.host.pending + w.wire, 0) == []
  }

  /** Nothing is in flight, and host and device agree on where they are. */
  ghost predicate Settled(s: Setting, w: World) {
    && DeviceShape(w.dev) && w.dev.serial in s.keyring && s.keyring[w.dev.serial] == w.dev.ltkey
    && Inv(w.host) && (w.host.snum.Some? ==> w.host.snumLen == SERIAL_LEN)
    && Agree(w.host.(pending := []), w.dev) && w.dev.heard <= w.host.sent && w.dev.since == |w.host.sent|
    && Frames(w.host.pending + w.wire, 0) == []
  }

  lemma RestartSettles(s: Setting, w: World)
    requires Restart(s, w)
    ensures Settled(s, w)
  {
    hide Frames;
    assert w.host.sent[w.dev.since..] == [];
  }

  /** A fresh connection and a device that has just been plugged in. */
  predicate Beginning(s: Setting, w: World) {
    && DeviceShape(w.dev) && w.dev.phase == Start && w.dev.heard == [] && w.dev.plain == [] && w.wire == []
    && w.dev.serial in s.keyring && s.keyring[w.dev.serial] == w.dev.ltkey
    && (w.host.snum == None || (w.host.snum == Some(w.dev.serial) && w.host.snumLen == SERIAL_LEN))
    && w.host == Conn(INIT, [], None, None, w.host.snum, w.host.snumLen, None, None, 0, 0, 0, 0, [], [])
  }

  lemma BeginningIsRestart(s: Setting, w: World)
    requires Beginning(s, w)
    ensures Restart(s, w)
  {
  }

  /** The device has heard the host's ^C: back to the start and to the default key, whatever it was doing. */
  function Reborn(d: Device, host: Conn): Device {
    d.(phase := Start, key := DEFAULT_KEY, seqNo := 0, heard := host.sent, since := |host.sent|, plain := host.out)
  }

  /**
    * When the host resets the connection into INIT, from any state, and the device hears it, in any phase, the two are
    * at a restart, as long as no frame is left on the line. The other cases are in `Recovery`.
    */
  lemma ResetRestarts(s: Setting, c: Conn, e: Env, d: Device, wire: seq<byte>)
    requires s.Valid() && Inv(c) && EnvShape(c, e)
    requires var host := Run(s.h, c, e);
      && IsReset(c, host) && host.state == INIT && Frames(host.pending + wire, 0) == []
      && (host.snum == None || (host.snum == Some(d.serial) && host.snumLen == SERIAL_LEN))
    requires |d.serial| == SERIAL_LEN && d.serial in s.keyring && s.keyring[d.serial] == d.ltkey
    ensures var host := Run(s.h, c, e); Restart(s, World(Reborn(d, host), wire, host))
  {
    hide Run, Frames, Count;
    RunKeepsInv(s.h, c, e);
    if Run(s.h, c, e).snum.Some? {
      ResetKey(c, Run(s.h, c, e), d.serial);
    }
  }

  lemma ResetKey(c: Conn, host: Conn, serial: seq<byte>)
    requires Inv(c) && Inv(host) && IsReset(c, host)
    requires host.snum == Some(serial) && |serial| == SERIAL_LEN
    ensures host.skMac == None || host.skMac == Some(Keyed(serial, DEFAULT_KEY))
  {
    assert serial[..SERIAL_LEN] == serial;
  }

  /** What a step relies on; `WorldInv` provides it, so in a run it is never missing. */
  ghost predicate Ready(s: Setting, w: World) {
    && s.Valid() && Inv(w.host) && |w.dev.heard| <= |w.host.sent|
    && forall n: nat :: CanRead(w, n) ==> ReadShape(w.host, w.wire[..n])
  }

  /** A run: any interleaving of device steps and host reads of any sizes, from where both agree; a restart will do. */
  ghost predicate WorldTrace(s: Setting, ws: seq<World>, steps: seq<Step>) {
    && |ws| == |steps| + 1 && s.Valid() && Settled(s, ws[0])
    && forall i :: 0 <= i < |steps| && Ready(s, ws[i]) ==>
      Enabled(ws[i], steps[i]) && ws[i + 1] == Next(s, ws[i], steps[i])
  }

  /** The plaintext of the entropy the device has sent in some steps. */
  function Emitted(steps: seq<Step>): seq<byte> {
    if steps == [] then []
    else
      var last := steps[|steps| - 1];
      Emitted(steps[..|steps| - 1]) + (if last.Emit? then last.plain else [])
  }

  lemma InvIsReady(s: Setting, w: World, junk: seq<byte>, fs: seq<seq<byte>>)
    requires WorldInv(s, w, junk, fs)
    ensures Ready(s, w)
  {
    hide Inv, Effect, Agree, Drain, Honest, ReadShape, Run, Frames;
    forall n: nat | CanRead(w, n)
      ensures ReadShape(w.host, w.wire[..n])
    {
      var junk', fs' := ReadKeeps(s, w, junk, fs, n, Fill(6, 0), Fill(DATA_LEN, 0));
    }
  }

  lemma SettledHolds(s: Setting, w: World)
    requires s.Valid() && Settled(s, w)
    ensures WorldInv(s, w, w.host.pending + w.wire, [])
  {
    hide Frames, Agree;
    var junk := w.host.pending + w.wire;
    assert junk + Concat([]) == junk;
  }

  lemma {:induction false} EveryWorld(s: Setting, ws: seq<World>, steps: seq<Step>, n: nat)
    returns (junk: seq<byte>, fs: seq<seq<byte>>)
    requires WorldTrace(s, ws, steps) && n < |ws|
    ensures WorldInv(s, ws[n], junk, fs)
    ensures ws[n].dev.plain == ws[0].host.out + Emitted(steps[..n]) && ws[n].dev.since == |ws[0].host.sent|
  {
    hide WorldInv, Next, Enabled, Settled;
    if n == 0 {
      junk, fs := ws[0].host.pending + ws[0].wire, [];
      SettledHolds(s, ws[0]);
      SettledPlain(s, ws[0]);
    } else {
      var oldJunk, before := EveryWorld(s, ws, steps, n - 1);
      InvIsReady(s, ws[n - 1], oldJunk, before);
      junk, fs := StepKeeps(s, ws[n - 1], oldJunk, before, steps[n - 1]);
      StepPlain(s, ws[n - 1], steps[n - 1]);
      assert steps[..n][..n - 1] == steps[..n - 1];
    }
  }

  lemma SettledPlain(s: Setting, w: World)
    requires Settled(s, w)
    ensures w.dev.plain == w.host.out + Emitted([]) && w.dev.since == |w.host.sent|
  {
    hide Frames, Inv;
    assert w.host.out + [] == w.host.out;
  }

  lemma StepPlain(s: Setting, w: World, step: Step)
    requires Ready(s, w) && Enabled(w, step)
    ensures Next(s, w, step).dev.plain == w.dev.plain + (if step.Emit? then step.plain else [])
    ensures Next(s, w, step).dev.since == w.dev.since
  {
    hide Inv, ReadShape, Run, SerialFrame, TextFrame, KeyFrame, EntropyFrame, CommandReady;
    assert w.dev.plain + [] == w.dev.plain;
  }

  lemma StepKeeps(s: Setting, w: World, junk: seq<byte>, fs: seq<seq<byte>>, step: Step)
    returns (junk': seq<byte>, fs': seq<seq<byte>>)
    requires WorldInv(s, w, junk, fs) && Ready(s, w) && Enabled(w, step)
    ensures WorldInv(s, Next(s, w, step), junk', fs')
  {
    hide WorldInv, Inv, ReadShape;
    junk', fs' := junk, fs;
    match step {
      case HostRead(n, ms, ds) => junk', fs' := ReadKeeps(s, w, junk, fs, n, ms, ds);
      case HostIdle =>
      case _ => fs' := DeviceStepKeeps(s, w, junk, fs, step);
    }
  }

  /** With no frame on the line, nothing is in flight. */
  lemma LineIsEmpty(s: Setting, w: World, junk: seq<byte>, fs: seq<seq<byte>>)
    requires WorldInv(s, w, junk, fs) && Frames(w.host.pending + w.wire, 0) == []
    ensures fs == []
  {
    hide Inv, Effect, Honest, Agree, Drain, IsFrame;
    AllClean(fs);
    SelfSynchronising(junk, fs, 0);
    hide Frames;
  }

  /**
    * End to end. At every moment of every run the host has not reset nor lost trust, and its output is what it was at
    * the start and a prefix of the device's plaintext since. Whenever no frame is in flight the output is all of it,
    * and in a keyed session MACs and pads on both sides use one key: the device's.
    */
  lemma EndToEnd(s: Setting, ws: seq<World>, steps: seq<Step>, n: nat)
    requires WorldTrace(s, ws, steps) && n < |ws|
    ensures var w, since, all := ws[n], |ws[0].host.sent|, ws[0].host.out + Emitted(steps[..n]);
      && since <= |w.host.sent| && NoReset(w.host.sent[since..])
      && w.host.state != UNTRUSTED && w.host.state != CLOSE && w.host.out <= all
      && (Frames(w.host.pending + w.wire, 0) == [] ==> w.host.out == all)
      && (Frames(w.host.pending + w.wire, 0) == [] && (w.dev.phase == Fresh || w.dev.phase == Streaming) ==>
        Keying(w.host.state) && w.host.skMac == w.host.pad == Some(Under(w.dev)))
  {
    hide Inv, Effect, Honest, NoReset, WorldTrace, Frames;
    var junk, fs := EveryWorld(s, ws, steps, n);
    var w := ws[n];
    HostIsFine(s, w, junk, fs);
    if Frames(w.host.pending + w.wire, 0) == [] {
      LineIsEmpty(s, w, junk, fs);
    }
  }

  /**
    * Progress: in every world of every run there is something to do, and a device that waits for a nonce gets it. If
    * bytes are on the line the host can read; if not, the device can take the step that leads on from its phase.
    */
  lemma AlwaysForward(s: Setting, ws: seq<World>, steps: seq<Step>, n: nat, entropy: Digest)
    requires WorldTrace(s, ws, steps) && n < |ws|
    ensures var w := ws[n];
      |w.dev.heard| <= |w.host.sent| &&
      if w.wire != [] then Enabled(w, HostRead(1, Fill(6, 0), Fill(DATA_LEN, 0)))
      else
        match w.dev.phase
        case Start => Enabled(w, Announce)
        case Idle => Enabled(w, Ask([65]))
        case Asked(_) => Enabled(w, Rekey(entropy))
        case Fresh => Enabled(w, Emit(entropy))
        case Streaming => Enabled(w, Emit(entropy))
  {
    hide Effect, Honest, NoReset, WorldTrace, Frames, CommandReady, NonceCommand;
    var junk, fs := EveryWorld(s, ws, steps, n);
    var w := ws[n];
    if w.wire == [] {
      ShortLine(w.host.pending);
      assert w.host.pending + w.wire == w.host.pending;
      LineIsEmpty(s, w, junk, fs);
      if w.dev.phase.Asked? {
        var c := w.host.(pending := []);
        CommandComplete(c.nonce.value);
        assert w.host.sent[|w.dev.heard|..] == NonceCommand(c.nonce.value);
      }
    }
  }

  lemma ShortLine(s: seq<byte>)
    requires |s| < FRAME_LEN
    ensures Frames(s, 0) == []
  {
  }
}
