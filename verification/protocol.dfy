// The session state machine of the host (host/connection.c) on values, and what holds over all its runs.

module Protocol {
  import opened Bytes
  import opened Pem
  import opened Hashing
  import opened Framer
  import opened Packets

  datatype State = INIT | CLOSE | UNTRUSTED | SESSION | SESSION_SENT | KEYED_FIRST | KEYED_BAD | KEYED

  datatype Handler = NullHandler | ResetHandler | BadKeyHandler | BadKeyCountHandler | InfoHandler | KeyReqHandler
                   | KeyReqCountHandler | KeyHandler | EntropyHandler | SnumHandler

  /** `default_handler_for`. */
  function DefaultHandler(s: State): Handler {
    if s == CLOSE || s == UNTRUSTED || s == KEYED_BAD then NullHandler else ResetHandler
  }

  /** The table `init_states` builds. */
  function HandlerFor(s: State, t: PktType): Handler {
    match (s, t)
    case (INIT, SNUM) => SnumHandler
    case (SESSION, INFO) => InfoHandler
    case (SESSION, KEYREQ) => KeyReqHandler
    case (SESSION_SENT, KEYREQ) => KeyReqCountHandler
    case (SESSION_SENT, INFO) => InfoHandler
    case (SESSION_SENT, KEY) => KeyHandler
    case (KEYED_FIRST, ENTROPY) => EntropyHandler
    case (KEYED_FIRST, INFO) => InfoHandler
    case (KEYED_FIRST, KEYREJECTED) => BadKeyHandler
    case (KEYED_BAD, KEYREQ) => BadKeyCountHandler
    case (KEYED, ENTROPY) => EntropyHandler
    case (KEYED, INFO) => InfoHandler
    case (KEYED, KEYREQ) => KeyReqHandler
    case (_, _) => DefaultHandler(s)
  }

  const MAX_PACKETS_BEFORE_RESET: nat := 5
  const MAX_REKEYS_BEFORE_RESET: nat := 50
  const LAST_SEQUENCE: bv16 := 4095
  const NONCE_LEN: nat := 12
  const RESET_COMMAND: seq<byte> := [3]
  const DEFAULT_KEY: Digest := Fill(32, 0)

  datatype Conn = Conn(
    state: State,
    pending: seq<byte>,            // undecided bytes in the framer
    skMac: Option<Keyed>,          // what the packet layer checks MACs with
    pad: Option<Keyed>,            // what the one-time pads are derived from
    snum: Option<seq<byte>>, snumLen: nat,
    ltkey: Option<Digest>,
    nonce: Option<seq<byte>>,
    keyreqs: nat, nonces: nat, rekeys: nat, resets: nat,   // 32-bit counters
    sent: seq<byte>,               // bytes written to the key
    out: seq<byte>)                // bytes written to the output stream

  /** Everything one call of `econ_run` may depend on besides the connection itself. */
  datatype Env = Env(
    input: StreamRead, macStale: seq<byte>, dataStale: seq<byte>,
    random: Option<seq<byte>>,     // eight random bytes, unless the source fails
    partial: seq<byte>,            // what a failing source has written all the same
    nonceStale: seq<byte>,         // what a nonce buffer holds when it is allocated
    memory: bool,                  // whether there is memory for a log string
    keyring: map<seq<byte>, Digest>)

  /** A read fits the framer's buffer. Its bytes may be anything, except in fields that are going to be decoded. */
  predicate ReadShape(c: Conn, bytes: seq<byte>) {
    |c.pending| < FRAME_LEN && 1 <= |bytes| <= FRAME_LEN - |c.pending| &&
    var f := FramerStep(c.pending, bytes).frame;
    f.Some? ==> Decodable(c.skMac, f.value)
  }

  predicate BufferShape(e: Env) {
    |e.macStale| == 6 && |e.dataStale| == DATA_LEN && RandomShape(e)
  }

  predicate RandomShape(e: Env) {
    && (e.random.Some? ==> |e.random.value| == NONCE_LEN - 4)
    && |e.partial| <= NONCE_LEN - 4 && |e.nonceStale| == NONCE_LEN
  }

  predicate EnvShape(c: Conn, e: Env) {
    && BufferShape(e)
    && (e.input.Data? && c.state != CLOSE ==> ReadShape(c, e.input.bytes))
  }

  function Serial(c: Conn): seq<byte>
    requires c.snum.Some? && |c.snum.value| >= SERIAL_LEN
  {
    c.snum.value[..SERIAL_LEN]
  }

  predicate Trusted(s: State) {
    s == SESSION || s == SESSION_SENT || s == KEYED_FIRST || s == KEYED
  }

  predicate Keying(s: State) {
    s == KEYED_FIRST || s == KEYED
  }

  /** What every reachable connection satisfies. */
  predicate Inv(c: Conn) {
    && |c.pending| < FRAME_LEN
    && (c.snum.Some? ==> SERIAL_LEN <= |c.snum.value| && c.snumLen <= |c.snum.value| <= DATA_LEN)
    && (c.skMac.Some? ==> c.snum.Some? && c.skMac.value.serial == Serial(c))
    && (Trusted(c.state) ==> c.snum.Some? && c.skMac.Some? && c.ltkey.Some?)
    && (c.state == SESSION_SENT ==> c.nonce.Some? && c.keyreqs <= MAX_PACKETS_BEFORE_RESET)
    && (Keying(c.state) ==> c.pad == c.skMac)
    && (c.state == KEYED_BAD ==> c.keyreqs <= MAX_REKEYS_BEFORE_RESET)
    && (c.nonce.Some? ==> |c.nonce.value| == NONCE_LEN)
  }

  // ----- handlers -----

  function MacKey(c: Conn, secret: Digest): Option<Keyed>
    requires c.snum.Some? ==> |c.snum.value| >= SERIAL_LEN
  {
    if c.snum.None? then c.skMac else Some(Keyed(Serial(c), secret))
  }

  function Reset(c: Conn): Conn
    requires Inv(c)
  {
    c.(state := INIT, sent := c.sent + RESET_COMMAND, skMac := MacKey(c, DEFAULT_KEY), resets := Count(c.resets + 1))
  }

  function BadKey(c: Conn): Conn
    requires Inv(c)
  {
    Reset(c).(state := KEYED_BAD, keyreqs := 0)
  }

  /** Key requests are ignored up to `limit`; the next one resets. */
  function CountRequest(c: Conn, limit: nat): Conn
    requires Inv(c)
  {
    var c1 := c.(keyreqs := Count(c.keyreqs + 1));
    if c.keyreqs < limit then c1
    else c1.(state := INIT, sent := c.sent + RESET_COMMAND,
         skMac := MacKey(c, DEFAULT_KEY), resets := Count(c.resets + 1))
  }

  /** The byte with value `a`, counted up from zero. */
  function {:tailrecursion false} ToByte(a: nat): byte {
    if a == 0 then 0 else NextByte(ToByte(a - 1))
  }

  function NextByte(b: byte): byte { b + 1 }

  /** A 32-bit counter as it lies in memory on a little-endian host. */
  function Le32(n: nat): (s: seq<byte>)
    ensures |s| == 4
  {
    [ToByte(n % 256), ToByte(n / 256 % 256), ToByte(n / 65536 % 256), ToByte(n / 16777216 % 256)]
  }

  /** 'K', the nonce in PEM, '.'. */
  function NonceCommand(nonce: seq<byte>): seq<byte> {
    [75] + Encode(nonce) + [46]
  }

  /** `keyreq_count_pkt_handler`: without memory for its log message it resets at once, and does not count. */
  function CountOrReset(c: Conn, memory: bool): Conn
    requires Inv(c)
  {
    if memory then CountRequest(c, MAX_PACKETS_BEFORE_RESET) else Reset(c)
  }

  /** The nonce buffer, allocated when there is none. */
  function NonceBuffer(c: Conn, stale: seq<byte>): (nonce: seq<byte>)
    requires Inv(c) && |stale| == NONCE_LEN
    ensures |nonce| == NONCE_LEN
  {
    if c.nonce.Some? then c.nonce.value else stale
  }

  function KeyReq(c: Conn, e: Env): Conn
    requires Inv(c) && RandomShape(e)
  {
    if e.random.None? then
      c.(state := UNTRUSTED, nonce := Some(Splice(NonceBuffer(c, e.nonceStale), 4, e.partial)))
    else
      var nonce := Le32(c.nonces) + e.random.value;
      c.(state := SESSION_SENT, nonce := Some(nonce), sent := c.sent + NonceCommand(nonce),
         nonces := Count(c.nonces + 1), keyreqs := 0)
  }

  function SessionKey(h: Hashes, c: Conn, entropy: seq<byte>): Keyed
    requires Inv(c) && c.state == SESSION_SENT
  {
    Keyed(Serial(c), h.derive(Keyed(Serial(c), c.ltkey.value), entropy, c.nonce.value))
  }

  function KeyPacket(h: Hashes, c: Conn, subcode: seq<byte>, buf: seq<byte>): Conn
    requires Inv(c) && c.state == SESSION_SENT && |subcode| == 2 && SevenBit(subcode) && |buf| == DATA_LEN
  {
    if Decode12(subcode) != 12 then Reset(c)
    else
      var k := Some(SessionKey(h, c, buf[..32]));
      c.(state := KEYED_FIRST, skMac := k, pad := k, rekeys := Count(c.rekeys + 1))
  }

  function XorSeq(a: seq<byte>, b: seq<byte>): (r: seq<byte>)
    requires |a| == |b|
    ensures |r| == |a|
  {
    seq(|a|, i requires 0 <= i < |a| => a[i] ^ b[i])
  }

  /** The bytes an entropy packet puts on the output: 32 of them through the pad, any further ones as they came. */
  function Decrypted(h: Hashes, k: Keyed, subcode: seq<byte>, buf: seq<byte>, count: nat): (r: seq<byte>)
    requires |buf| == DATA_LEN && count <= DATA_LEN
    ensures |r| == count
  {
    (XorSeq(buf[..32], h.pad(k, subcode)) + buf[32..])[..count]
  }

  function EntropyPacket(h: Hashes, c: Conn, subcode: seq<byte>, buf: seq<byte>, count: nat, e: Env): Conn
    requires Inv(c) && Keying(c.state) && |subcode| == 2 && SevenBit(subcode) && |buf| == DATA_LEN && count <= DATA_LEN
    requires RandomShape(e)
  {
    var c1 := c.(state := KEYED, out := c.out + Decrypted(h, c.pad.value, subcode, buf, count));
    if Decode12(subcode) == LAST_SEQUENCE then KeyReq(c1, e) else c1
  }

  function SnumPacket(c: Conn, buf: seq<byte>, count: nat, keyring: map<seq<byte>, Digest>): Conn
    requires Inv(c) && |buf| == DATA_LEN && count <= DATA_LEN
  {
    if count < SERIAL_LEN then Reset(c)
    else if c.snum.Some? && c.snum.value[..c.snumLen] != buf[..c.snumLen] then c.(state := UNTRUSTED)
    else
      var c1 := if c.snum.None? then c.(snum := Some(buf[..count]), snumLen := count) else c;
      var known := Serial(c1) in keyring;
      c1.(state := if known then SESSION else UNTRUSTED,
          skMac := MacKey(c1, DEFAULT_KEY),
          ltkey := if known then Some(keyring[Serial(c1)]) else None)
  }

  function Handle(h: Hashes, c: Conn, typ: PktType, subcode: seq<byte>, buf: seq<byte>, count: nat, e: Env): Conn
    requires Inv(c) && |subcode| == 2 && SevenBit(subcode) && |buf| == DATA_LEN && count <= DATA_LEN
    requires RandomShape(e)
  {
    match HandlerFor(c.state, typ)
    case NullHandler => c
    case InfoHandler => c
    case ResetHandler => Reset(c)
    case BadKeyHandler => BadKey(c)
    case BadKeyCountHandler => CountRequest(c, MAX_REKEYS_BEFORE_RESET)
    case KeyReqHandler => KeyReq(c, e)
    case KeyReqCountHandler => CountOrReset(c, e.memory)
    case KeyHandler => KeyPacket(h, c, subcode, buf)
    case EntropyHandler => EntropyPacket(h, c, subcode, buf, count, e)
    case SnumHandler => SnumPacket(c, buf, count, e.keyring)
  }

  /** A decoded packet lies at the front of an otherwise uninitialised buffer. */
  function DataBuffer(data: seq<byte>, stale: seq<byte>): (buf: seq<byte>)
    requires |data| <= |stale| == DATA_LEN
    ensures |buf| == DATA_LEN && data <= buf
  {
    Splice(stale, 0, data)
  }

  /** What a packet does to the connection. An empty one is taken for the end of the stream. */
  function OnPacket(h: Hashes, c: Conn, p: Packet, e: Env): Conn
    requires Inv(c) && |e.dataStale| == DATA_LEN && RandomShape(e)
    requires p.Packet? ==> |p.subcode| == 2 && SevenBit(p.subcode) && |p.data| <= DATA_LEN
  {
    if p.Malformed? || |p.data| == 0 then c.(state := CLOSE)
    else Handle(h, c, p.typ, p.subcode, DataBuffer(p.data, e.dataStale), |p.data|, e)
  }

  function OnFrame(h: Hashes, c: Conn, f: seq<byte>, e: Env): Conn
    requires Inv(c) && Decodable(c.skMac, f) && BufferShape(e)
  {
    OnPacket(h, c, ReadPacket(h, c.skMac, f, e.macStale), e)
  }

  /** `econ_run`. */
  function Run(h: Hashes, c: Conn, e: Env): Conn
    requires Inv(c) && EnvShape(c, e)
  {
    if c.state == CLOSE then c
    else match e.input
      case Closed => c.(state := CLOSE)
      case Failed(err) => if err == EWOULDBLOCK then c else c.(state := CLOSE)
      case Data(bytes) =>
        var s := FramerStep(c.pending, bytes);
        var c1 := c.(pending := s.pending);
        if s.frame.None? then c1 else OnFrame(h, c1, s.frame.value, e)
  }

  // ----- every step keeps the invariant -----

  lemma HandlerShape(s: State, t: PktType)
    ensures HandlerFor(s, t) == KeyHandler ==> s == SESSION_SENT && t == KEY
    ensures HandlerFor(s, t) == EntropyHandler ==> Keying(s) && t == ENTROPY
    ensures HandlerFor(s, t) == KeyReqHandler ==> (s == SESSION || s == KEYED) && t == KEYREQ
    ensures HandlerFor(s, t) == KeyReqCountHandler ==> s == SESSION_SENT && t == KEYREQ
    ensures HandlerFor(s, t) == BadKeyCountHandler ==> s == KEYED_BAD && t == KEYREQ
    ensures HandlerFor(s, t) == BadKeyHandler ==> s == KEYED_FIRST && t == KEYREJECTED
    ensures HandlerFor(s, t) == SnumHandler ==> s == INIT && t == SNUM
    ensures s == UNTRUSTED ==> HandlerFor(s, t) == NullHandler
  {
  }

  lemma PacketsKeepInv(h: Hashes, c: Conn, subcode: seq<byte>, buf: seq<byte>, count: nat, e: Env)
    requires Inv(c) && |subcode| == 2 && SevenBit(subcode) && |buf| == DATA_LEN && count <= DATA_LEN
    requires RandomShape(e)
    ensures c.state == SESSION_SENT ==> Inv(KeyPacket(h, c, subcode, buf))
    ensures Keying(c.state) ==> Inv(EntropyPacket(h, c, subcode, buf, count, e))
    ensures Inv(SnumPacket(c, buf, count, e.keyring))
  {
    hide Decrypted, NonceCommand, Le32, Decode12;
  }

  lemma HandleKeepsInv(h: Hashes, c: Conn, typ: PktType, subcode: seq<byte>, buf: seq<byte>, count: nat, e: Env)
    requires Inv(c) && |subcode| == 2 && SevenBit(subcode) && |buf| == DATA_LEN && count <= DATA_LEN
    requires RandomShape(e)
    ensures Inv(Handle(h, c, typ, subcode, buf, count, e))
  {
    hide NonceCommand, Le32, HandlerFor, KeyPacket, EntropyPacket, SnumPacket;
    HandlerShape(c.state, typ);
    PacketsKeepInv(h, c, subcode, buf, count, e);
  }

  lemma RunKeepsInv(h: Hashes, c: Conn, e: Env)
    requires Inv(c) && EnvShape(c, e)
    ensures Inv(Run(h, c, e))
  {
    hide Handle, ReadPacket, IsFrame;
    if c.state != CLOSE && e.input.Data? {
      var s := FramerStep(c.pending, e.input.bytes);
      var c1 := c.(pending := s.pending);
      if s.frame.Some? {
        var p := ReadPacket(h, c.skMac, s.frame.value, e.macStale);
        if p.Packet? && |p.data| > 0 {
          HandleKeepsInv(h, c1, p.typ, p.subcode, DataBuffer(p.data, e.dataStale), |p.data|, e);
        }
      }
    }
  }
}
