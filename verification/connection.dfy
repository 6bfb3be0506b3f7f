// The connection object (host/connection.c), proved against the functions of `Protocol`.

module Connections {
  import opened Bytes
  import opened Pem
  import opened Hashing
  import opened Framer
  import opened Packets
  import opened Protocol

  const STATES: nat := 8
  const TYPES: nat := 10

  function StateIndex(s: State): (i: nat)
    ensures i < STATES
  {
    match s
    case INIT => 0 case CLOSE => 1 case UNTRUSTED => 2 case SESSION => 3
    case SESSION_SENT => 4 case KEYED_FIRST => 5 case KEYED_BAD => 6 case KEYED => 7
  }

  function StateAt(i: nat): (s: State)
    requires i < STATES
    ensures StateIndex(s) == i
  {
    [INIT, CLOSE, UNTRUSTED, SESSION, SESSION_SENT, KEYED_FIRST, KEYED_BAD, KEYED][i]
  }

  function TypeIndex(t: PktType): (i: nat)
    ensures i < TYPES
  {
    match t
    case NONE => 0 case KEYREJECTED => 1 case SNUM => 2 case INFO => 3 case WARN => 4
    case ENTROPY => 5 case KEYREQ => 6 case KEY => 7 case LTREKEYMAC => 8 case LTREKEY => 9
  }

  /** `init_states`: every entry gets its state's default, then the exceptions are filled in. */
  method InitStates() returns (table: array2<Handler>)
    ensures fresh(table) && table.Length0 == STATES && table.Length1 == TYPES
    ensures forall s, t :: table[StateIndex(s), TypeIndex(t)] == HandlerFor(s, t)
  {
    table := DefaultTable();
    SetSessionRows(table);
    SetKeyedRows(table);
  }

  method DefaultTable() returns (table: array2<Handler>)
    ensures fresh(table) && table.Length0 == STATES && table.Length1 == TYPES
    ensures forall s, t :: table[StateIndex(s), TypeIndex(t)] == DefaultHandler(s)
  {
    hide StateAt, DefaultHandler, StateIndex, TypeIndex;
    table := new Handler[STATES, TYPES]((i, j) => NullHandler);
    for i := 0 to STATES
      invariant forall k, l :: 0 <= k < i && 0 <= l < TYPES ==> table[k, l] == DefaultHandler(StateAt(k))
    {
      DefaultRow(table, i);
    }
    forall s: State, t: PktType ensures table[StateIndex(s), TypeIndex(t)] == DefaultHandler(s) {
      StateRoundTrip(s);
    }
  }

  lemma StateRoundTrip(s: State)
    ensures StateAt(StateIndex(s)) == s
  {
  }

  method DefaultRow(table: array2<Handler>, i: nat)
    requires i < STATES && table.Length0 == STATES && table.Length1 == TYPES
    modifies table
    ensures forall l :: 0 <= l < TYPES ==> table[i, l] == DefaultHandler(StateAt(i))
    ensures forall k, l :: 0 <= k < STATES && k != i && 0 <= l < TYPES ==> table[k, l] == old(table[k, l])
  {
    hide StateAt, DefaultHandler;
    for j := 0 to TYPES
      invariant forall l :: 0 <= l < j ==> table[i, l] == DefaultHandler(StateAt(i))
      invariant forall k, l :: 0 <= k < STATES && k != i && 0 <= l < TYPES ==> table[k, l] == old(table[k, l])
    {
      table[i, j] := DefaultHandler(StateAt(i));
    }
  }

  predicate BeforeKeys(s: State) {
    s == INIT || s == SESSION || s == SESSION_SENT
  }

  method SetSessionRows(table: array2<Handler>)
    requires table.Length0 == STATES && table.Length1 == TYPES
    requires forall s, t :: table[StateIndex(s), TypeIndex(t)] == DefaultHandler(s)
    modifies table
    ensures forall s, t ::
      table[StateIndex(s), TypeIndex(t)] == if BeforeKeys(s) then HandlerFor(s, t) else DefaultHandler(s)
  {
    hide StateIndex, TypeIndex;
    SetHandler(table, INIT, SNUM, SnumHandler);
    SetHandler(table, SESSION, INFO, InfoHandler);
    SetHandler(table, SESSION, KEYREQ, KeyReqHandler);
    SetHandler(table, SESSION_SENT, KEYREQ, KeyReqCountHandler);
    SetHandler(table, SESSION_SENT, INFO, InfoHandler);
    SetHandler(table, SESSION_SENT, KEY, KeyHandler);
  }

  method SetKeyedRows(table: array2<Handler>)
    requires table.Length0 == STATES && table.Length1 == TYPES
    requires forall s, t ::
      table[StateIndex(s), TypeIndex(t)] == if BeforeKeys(s) then HandlerFor(s, t) else DefaultHandler(s)
    modifies table
    ensures forall s, t :: table[StateIndex(s), TypeIndex(t)] == HandlerFor(s, t)
  {
    hide StateIndex, TypeIndex;
    SetHandler(table, KEYED_FIRST, ENTROPY, EntropyHandler);
    SetHandler(table, KEYED_FIRST, INFO, InfoHandler);
    SetHandler(table, KEYED_FIRST, KEYREJECTED, BadKeyHandler);
    SetHandler(table, KEYED_BAD, KEYREQ, BadKeyCountHandler);
    SetHandler(table, KEYED, ENTROPY, EntropyHandler);
    SetHandler(table, KEYED, INFO, InfoHandler);
    SetHandler(table, KEYED, KEYREQ, KeyReqHandler);
  }

  method SetHandler(table: array2<Handler>, s: State, t: PktType, handler: Handler)
    requires table.Length0 == STATES && table.Length1 == TYPES
    modifies table
    ensures forall s', t' :: table[StateIndex(s'), TypeIndex(t')]
                             == if s' == s && t' == t then handler else old(table[StateIndex(s'), TypeIndex(t')])
  {
    table[StateIndex(s), TypeIndex(t)] := handler;
  }

  /** What a call depends on besides the stream: the random source, the memory for log strings, and the keyring. */
  datatype Outside = Outside(
    random: Option<seq<byte>>, partial: seq<byte>, memory: bool, keyring: map<seq<byte>, Digest>)

  predicate Records(e: Env, o: Outside) {
    e.random == o.random && e.partial == o.partial && e.memory == o.memory && e.keyring == o.keyring
  }

  function Around(input: StreamRead, macStale: seq<byte>, dataStale: seq<byte>, o: Outside): (e: Env)
    ensures Records(e, o)
  {
    Env(input, macStale, dataStale, o.random, o.partial, Fill(NONCE_LEN, 0), o.memory, o.keyring)
  }

  class Connection {
    const handlers: array2<Handler>
    const epkt: PacketReader
    var state: State
    var pad: Option<Keyed>
    var snum: Option<seq<byte>>
    var snumLen: nat
    var ltkey: Option<Digest>
    var nonce: Option<seq<byte>>
    var keyreqs: nat
    var nonces: nat
    var rekeys: nat
    var resets: nat
    var sent: seq<byte>
    var out: seq<byte>

    /** `econ_open`. */
    constructor (h: Hashes)
      ensures Valid() && fresh(epkt) && fresh(epkt.framer) && fresh(epkt.framer.frame) && epkt.h == h
      ensures Abs() == Conn(INIT, [], None, None, None, 0, None, None, 0, 0, 0, 0, [], [])
    {
      var table := InitStates();
      var reader := new PacketReader(h);
      handlers, epkt := table, reader;
      state, pad, snum, snumLen := INIT, None, None, 0;
      ltkey, nonce := None, None;
      keyreqs, nonces, rekeys, resets := 0, 0, 0, 0;
      sent, out := [], [];
    }

    /**
      * `econ_setsnum`, before the first packet. However short the text decodes, the buffer has twelve bytes; `stale` is
      * what they held.
      */
    method SetSnum(text: array<byte>) returns (ghost stale: seq<byte>)
      requires Valid() && epkt.skMac == None && state == INIT && text.Length >= 16 && SevenBit(text[..16])
      modifies this`snum, this`snumLen
      ensures Valid() && |stale| == SERIAL_LEN && |Decode(text[..16])| <= SERIAL_LEN
      ensures Abs() == old(Abs()).(
        snum := Some(Splice(stale, 0, Decode(text[..16]))), snumLen := |Decode(text[..16])|)
    {
      hide Decode, HandlerFor, Splice, Continues, Frames;
      var buf := new byte[SERIAL_LEN];
      stale := buf[..];
      assert text[0..16] == text[..16];
      DecodeLength(text[..16]);
      var len := DecodeBytes(text, 0, 16, buf);
      snum, snumLen := Some(buf[..]), len;
    }

    ghost function Abs(): Conn
      reads this, epkt, epkt.framer, epkt.framer.frame
      requires epkt.framer.frame.Length == FRAME_LEN && epkt.framer.used <= FRAME_LEN
    {
      Conn(
        state, epkt.framer.Pending(), epkt.skMac, pad, snum, snumLen, ltkey, nonce,
        keyreqs, nonces, rekeys, resets, sent, out)
    }

    ghost predicate Valid()
      reads this, handlers, epkt, epkt.framer, epkt.framer.frame
    {
      && handlers.Length0 == STATES && handlers.Length1 == TYPES
      && (forall s, t :: handlers[StateIndex(s), TypeIndex(t)] == HandlerFor(s, t))
      && epkt.Valid() && Inv(Abs())
    }

    /** What the handlers rely on. */
    ghost predicate Sound()
      reads this, epkt, epkt.framer, epkt.framer.frame
    {
      && epkt.framer.frame.Length == FRAME_LEN && epkt.framer.used <= FRAME_LEN
      && |epkt.subcode| == 2 && SevenBit(epkt.subcode) && Inv(Abs())
    }

    /** `reset_pkt_handler`; like all handlers it returns the next state. */
    method ResetPacket() returns (next: State)
      requires snum.Some? ==> |snum.value| >= SERIAL_LEN
      modifies this`sent, this`resets, epkt`skMac
      ensures next == INIT && sent == old(sent) + RESET_COMMAND && resets == Count(old(resets) + 1)
      ensures epkt.skMac == if snum.None? then old(epkt.skMac) else Some(Keyed(snum.value[..SERIAL_LEN], DEFAULT_KEY))
    {
      sent := sent + RESET_COMMAND;
      epkt.SetSessionKey(snum, DEFAULT_KEY);
      resets := Count(resets + 1);
      next := INIT;
    }

    /** `badkey_pkt_handler`. */
    method BadKeyPacket() returns (next: State)
      requires Sound()
      modifies this`sent, this`resets, this`keyreqs, epkt`skMac
      ensures Abs().(state := next) == BadKey(old(Abs()))
    {
      next := ResetPacket();
      keyreqs := 0;
      next := KEYED_BAD;
    }

    /** `keyreq_count_pkt_handler`; `memory` says whether a string for the log could be allocated. */
    method KeyReqCountPacket(memory: bool) returns (next: State)
      requires Sound()
      modifies this`sent, this`resets, this`keyreqs, epkt`skMac
      ensures Abs().(state := next) == CountOrReset(old(Abs()), memory)
    {
      hide CountRequest;
      if !memory {
        next := ResetPacket();
        return;
      }
      next := CountPacket(MAX_PACKETS_BEFORE_RESET);
    }

    /** `badkey_count_pkt_handler` (limit 50), and what `keyreq_count_pkt_handler` (limit 5) counts. */
    method CountPacket(limit: nat) returns (next: State)
      requires Sound()
      modifies this`sent, this`resets, this`keyreqs, epkt`skMac
      ensures Abs().(state := next) == CountRequest(old(Abs()), limit)
    {
      var seen := keyreqs;
      keyreqs := Count(keyreqs + 1);
      if seen < limit {
        return state;
      }
      next := ResetPacket();
    }

    method AllocateNonce(ghost e: Env) returns (ghost d: Env)
      requires Sound() && RandomShape(e)
      modifies this`nonce
      ensures d == e.(nonceStale := d.nonceStale) && RandomShape(d)
      ensures nonce == Some(NonceBuffer(old(Abs()), d.nonceStale))
    {
      hide HandlerFor, Continues, Frames;
      d := e;
      if nonce.None? {
        var buf := new byte[NONCE_LEN];
        nonce := Some(buf[..]);
        d := e.(nonceStale := buf[..]);
      }
    }

    /** `keyreq_pkt_handler`. Like the methods that call it, it completes `e` with what a new nonce buffer held. */
    method KeyReqPacket(o: Outside, ghost e: Env) returns (next: State, ghost d: Env)
      requires Sound() && Records(e, o) && RandomShape(e)
      modifies this`nonce, this`sent, this`nonces, this`keyreqs
      ensures d == e.(nonceStale := d.nonceStale) && RandomShape(d)
      ensures Abs().(state := next) == KeyReq(old(Abs()), d)
    {
      hide Le32, NonceCommand, Splice, HandlerFor, Continues, Frames, Inv, RandomShape;
      NonceShape(Abs(), e);
      ghost var c := Abs();
      d := AllocateNonce(e);
      NonceShape(c, d);
      if o.random.None? {
        nonce := Some(Splice(nonce.value, 4, o.partial));
        return UNTRUSTED, d;
      }
      var n := Le32(nonces) + o.random.value;
      nonce := Some(n);
      sent := sent + NonceCommand(n);
      nonces := Count(nonces + 1);
      keyreqs := 0;
      next := SESSION_SENT;
    }

    /** `key_pkt_handler`. */
    method KeyPacketHandler(buf: array<byte>) returns (next: State)
      requires Sound() && state == SESSION_SENT && buf.Length == DATA_LEN
      modifies this`sent, this`resets, this`pad, this`rekeys, epkt`skMac
      ensures Abs().(state := next) == KeyPacket(epkt.h, old(Abs()), epkt.subcode, buf[..])
    {
      hide Decode12, HandlerFor, Continues, Frames;
      if Decode12(epkt.subcode) != 12 {
        next := ResetPacket();
        return;
      }
      var serial := snum.value[..SERIAL_LEN];
      assert buf[..32] == buf[..][..32];
      var key := epkt.h.derive(Keyed(serial, ltkey.value), buf[..32], nonce.value);
      epkt.SetSessionKey(snum, key);
      pad := Some(Keyed(serial, key));
      rekeys := Count(rekeys + 1);
      next := KEYED_FIRST;
    }

    /** The in-place decoding loop of `entropy_pkt_handler`. */
    method XorPad(buf: array<byte>, enc: Digest)
      requires buf.Length == DATA_LEN
      modifies buf
      ensures buf[..] == XorSeq(old(buf[..32]), enc) + old(buf[32..])
    {
      ghost var before := buf[..];
      var i := 0;
      while i < 32
        invariant 0 <= i <= 32
        invariant forall k :: 0 <= k < i ==> buf[k] == before[k] ^ enc[k]
        invariant forall k :: i <= k < DATA_LEN ==> buf[k] == before[k]
      {
        buf[i] := buf[i] ^ enc[i];
        i := i + 1;
      }
      assert buf[..] == buf[..32] + buf[32..];
    }

    /** `entropy_pkt_handler`. */
    method EntropyPacketHandler(buf: array<byte>, count: nat, o: Outside, ghost e: Env)
      returns (next: State, ghost d: Env)
      requires Sound() && Keying(state) && buf.Length == DATA_LEN && count <= DATA_LEN && buf != epkt.framer.frame
      requires Records(e, o) && RandomShape(e)
      modifies this`out, this`nonce, this`sent, this`nonces, this`keyreqs, buf
      ensures d == e.(nonceStale := d.nonceStale) && RandomShape(d)
      ensures Abs().(state := next) == EntropyPacket(epkt.h, old(Abs()), epkt.subcode, old(buf[..]), count, d)
    {
      hide Decode12, XorSeq, NonceCommand, Le32;
      d := e;
      var enc := epkt.h.pad(pad.value, epkt.subcode);
      XorPad(buf, enc);
      assert buf[..count] == buf[..][..count];
      out := out + buf[..count];
      if Decode12(epkt.subcode) == LAST_SEQUENCE {
        next, d := KeyReqPacket(o, e);
        return;
      }
      next := KEYED;
    }

    /** `snum_pkt_handler`. */
    method SnumPacketHandler(buf: array<byte>, count: nat, keyring: map<seq<byte>, Digest>) returns (next: State)
      requires Sound() && buf.Length == DATA_LEN && count <= DATA_LEN
      modifies this`sent, this`resets, this`snum, this`snumLen, this`ltkey, epkt`skMac
      ensures Abs().(state := next) == SnumPacket(old(Abs()), buf[..], count, keyring)
    {
      if count < SERIAL_LEN {
        next := ResetPacket();
        return;
      }
      assert buf[..count] == buf[..][..count];
      if snum.None? {
        snum, snumLen := Some(buf[..count]), count;
      } else {
        assert buf[..snumLen] == buf[..][..snumLen];
        if snum.value[..snumLen] != buf[..snumLen] {
          return UNTRUSTED;
        }
      }
      epkt.SetSessionKey(snum, DEFAULT_KEY);
      var serial := snum.value[..SERIAL_LEN];
      ltkey := if serial in keyring then Some(keyring[serial]) else None;
      if ltkey.None? {
        return UNTRUSTED;
      }
      next := SESSION;
    }

    /** Handlers that look at neither the packet nor the random source. */
    method CallSimple(handler: Handler, memory: bool) returns (next: State)
      requires Sound() && IsSimple(handler)
      modifies this`sent, this`resets, this`keyreqs, epkt`skMac
      ensures Abs().(state := next) == Simple(old(Abs()), handler, memory)
    {
      hide BadKey, CountRequest, CountOrReset, HandlerFor, Continues, Frames;
      match handler {
        case ResetHandler => next := ResetPacket();
        case BadKeyHandler => next := BadKeyPacket();
        case BadKeyCountHandler => next := CountPacket(MAX_REKEYS_BEFORE_RESET);
        case KeyReqCountHandler => next := KeyReqCountPacket(memory);
        case _ => next := state;
      }
    }

    /** The call through the handler table. */
    method Dispatch(buf: array<byte>, count: nat, o: Outside, ghost e: Env) returns (ghost d: Env)
      requires Valid() && buf.Length == DATA_LEN && count <= DATA_LEN && buf != epkt.framer.frame
      requires Records(e, o) && RandomShape(e)
      modifies this, epkt`skMac, buf
      ensures d == e.(nonceStale := d.nonceStale) && RandomShape(d)
      ensures Abs() == Handle(epkt.h, old(Abs()), epkt.pktType, epkt.subcode, old(buf[..]), count, d)
    {
      hide HandlerFor, Simple, KeyReq, KeyPacket, EntropyPacket, SnumPacket, Inv, Continues, Frames, Handle;
      HandlerShape(state, epkt.pktType);
      ghost var before, data := Abs(), buf[..];
      assert Sound();
      d := e;
      var next;
      var handler := handlers[StateIndex(state), TypeIndex(epkt.pktType)];
      match handler {
        case KeyReqHandler => next, d := KeyReqPacket(o, e);
        case KeyHandler => next := KeyPacketHandler(buf);
        case EntropyHandler => next, d := EntropyPacketHandler(buf, count, o, e);
        case SnumHandler => next := SnumPacketHandler(buf, count, o.keyring);
        case _ => next := CallSimple(handler, o.memory);
      }
      HandleCases(epkt.h, before, epkt.pktType, epkt.subcode, data, count, d);
      state := next;
    }

    /** What `econ_run` does with the result of the packet layer. */
    method React(r: PacketRead, data: array<byte>, o: Outside, ghost e: Env) returns (ghost d: Env)
      requires Valid() && data.Length == DATA_LEN && (r.Length? ==> r.n <= DATA_LEN) && data != epkt.framer.frame
      requires Records(e, o) && RandomShape(e)
      modifies this, epkt`skMac, data
      ensures d == e.(nonceStale := d.nonceStale) && RandomShape(d)
      ensures Abs() == Reaction(epkt.h, old(Abs()), r, epkt.pktType, epkt.subcode, old(data[..]), d)
    {
      hide Handle, HandlerFor, Inv, Continues, Frames;
      d := e;
      if r == Length(0) {
        state := CLOSE;
      } else if r.Error? {
        if r.errno != EWOULDBLOCK {
          state := CLOSE;
        }
      } else {
        d := Dispatch(data, r.n, o, e);
      }
    }

    /** `econ_run`: one read, at most one packet, one handler. `e` records the uninitialised buffers. */
    method RunOnce(input: StreamRead, o: Outside) returns (ghost e: Env)
      requires Valid() && (o.random.Some? ==> |o.random.value| == NONCE_LEN - 4) && |o.partial| <= NONCE_LEN - 4
      requires input.Data? && state != CLOSE ==> ReadShape(Abs(), input.bytes)
      modifies this, epkt, epkt.framer, epkt.framer.frame
      ensures Valid()
      ensures e.input == input && Records(e, o)
      ensures EnvShape(old(Abs()), e) && Abs() == Run(epkt.h, old(Abs()), e)
    {
      hide Run, Handle, ReadPacket, FramerStep, HandlerFor, Continues, Frames, Inv, Reaction;
      ghost var c := Abs();
      ghost var macStale := Fill(6, 0);
      e := Around(input, macStale, Fill(DATA_LEN, 0), o);
      RunKeepsInv(epkt.h, c, e);
      RunClosed(epkt.h, c, e);
      if state == CLOSE {
        return;
      }
      var data := new byte[DATA_LEN];
      var r;
      r, macStale := epkt.Read(input, data);
      e := Around(input, macStale, data[..], o);
      PendingInv(c, epkt.framer.Pending());
      ghost var pending := epkt.framer.Pending();
      e := React(r, data, o, e);
      RunKeepsInv(epkt.h, c, e);
      RunIsReaction(epkt.h, c, e, pending, r, epkt.pktType, epkt.subcode);
    }
  }

  predicate IsSimple(handler: Handler) {
    !handler.KeyReqHandler? && !handler.KeyHandler? && !handler.EntropyHandler? && !handler.SnumHandler?
  }

  lemma NonceShape(c: Conn, e: Env)
    requires Inv(c) && RandomShape(e)
    ensures c.nonce.Some? ==> |c.nonce.value| == NONCE_LEN
    ensures (e.random.Some? ==> |e.random.value| == NONCE_LEN - 4) && |e.partial| <= NONCE_LEN - 4
    ensures |e.nonceStale| == NONCE_LEN
  {
  }

  function Simple(c: Conn, handler: Handler, memory: bool): Conn
    requires Inv(c) && IsSimple(handler)
  {
    match handler
    case ResetHandler => Reset(c)
    case BadKeyHandler => BadKey(c)
    case BadKeyCountHandler => CountRequest(c, MAX_REKEYS_BEFORE_RESET)
    case KeyReqCountHandler => CountOrReset(c, memory)
    case _ => c
  }

  lemma HandleCases(h: Hashes, c: Conn, typ: PktType, subcode: seq<byte>, buf: seq<byte>, count: nat, e: Env)
    requires Inv(c) && |subcode| == 2 && SevenBit(subcode) && |buf| == DATA_LEN && count <= DATA_LEN
    requires RandomShape(e)
    ensures var d, f := Handle(h, c, typ, subcode, buf, count, e), HandlerFor(c.state, typ);
      && (IsSimple(f) ==> d == Simple(c, f, e.memory))
      && (f == KeyReqHandler ==> d == KeyReq(c, e))
      && (f == KeyHandler ==> c.state == SESSION_SENT && d == KeyPacket(h, c, subcode, buf))
      && (f == EntropyHandler ==> Keying(c.state) && d == EntropyPacket(h, c, subcode, buf, count, e))
      && (f == SnumHandler ==> d == SnumPacket(c, buf, count, e.keyring))
  {
    hide HandlerFor, Reset, BadKey, CountRequest, CountOrReset, KeyReq, KeyPacket, EntropyPacket, SnumPacket;
    HandlerShape(c.state, typ);
  }

  function Reaction(h: Hashes, c: Conn, r: PacketRead, typ: PktType, subcode: seq<byte>, data: seq<byte>, e: Env): Conn
    requires Inv(c) && |subcode| == 2 && SevenBit(subcode) && |data| == DATA_LEN && (r.Length? ==> r.n <= DATA_LEN)
    requires RandomShape(e)
  {
    if r == Length(0) || (r.Error? && r.errno != EWOULDBLOCK) then c.(state := CLOSE)
    else if r.Error? then c
    else Handle(h, c, typ, subcode, data, r.n, e)
  }

  lemma RunClosed(h: Hashes, c: Conn, e: Env)
    requires Inv(c) && EnvShape(c, e)
    ensures c.state == CLOSE ==> Run(h, c, e) == c
  {
  }

  predicate Told(p: Packet, r: PacketRead, typ: PktType, subcode: seq<byte>, buf: seq<byte>) {
    match p
    case Malformed(err) => r == Error(err)
    case Packet(t, sub, d) => r == Length(|d|) && d <= buf && typ == t && subcode == sub
  }

  /** Reading through the packet layer and reacting to its result is a step of the state machine. */
  lemma RunIsReaction(h: Hashes, c: Conn, e: Env, pending: seq<byte>, r: PacketRead, typ: PktType, subcode: seq<byte>)
    requires Inv(c) && EnvShape(c, e) && c.state != CLOSE && Inv(c.(pending := pending))
    requires |subcode| == 2 && SevenBit(subcode) && (r.Length? ==> r.n <= DATA_LEN)
    requires !e.input.Data? ==> pending == c.pending && r == if e.input.Closed? then Length(0) else Error(e.input.error)
    requires e.input.Data? ==> var s := FramerStep(c.pending, e.input.bytes);
      && pending == s.pending
      && (s.frame.None? ==> r == Error(EWOULDBLOCK))
      && (s.frame.Some? ==> Told(ReadPacket(h, c.skMac, s.frame.value, e.macStale), r, typ, subcode, e.dataStale))
    ensures Run(h, c, e) == Reaction(h, c.(pending := pending), r, typ, subcode, e.dataStale, e)
  {
    hide Handle, ReadPacket, FramerStep, DataBuffer;
    if e.input.Data? {
      var s := FramerStep(c.pending, e.input.bytes);
      if s.frame.Some? {
        var p := ReadPacket(h, c.skMac, s.frame.value, e.macStale);
        if p.Packet? {
          BufferedData(p.data, e.dataStale);
        }
      }
    }
  }

  lemma BufferedData(data: seq<byte>, buf: seq<byte>)
    requires data <= buf && |buf| == DATA_LEN
    ensures DataBuffer(data, buf) == buf
  {
  }

  lemma PendingInv(c: Conn, pending: seq<byte>)
    requires Inv(c) && |pending| < FRAME_LEN
    ensures Inv(c.(pending := pending))
  {
  }
}
