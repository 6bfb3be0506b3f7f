// Properties of whole runs of the host's session state machine.

module SessionRuns {
  import opened Bytes
  import opened Pem
  import opened Hashing
  import opened Framer
  import opened Packets
  import opened Protocol

  /** The frame this step takes from the framer, if any. */
  function Taken(c: Conn, e: Env): (f: Option<seq<byte>>)
    requires Inv(c) && EnvShape(c, e)
    ensures f.Some? ==> Decodable(c.skMac, f.value)
  {
    if c.state == CLOSE || !e.input.Data? then None else FramerStep(c.pending, e.input.bytes).frame
  }

  /** A frame of type `typ` whose MAC passes under the connection's current MAC key. */
  predicate Authentic(h: Hashes, c: Conn, e: Env, typ: PktType)
    requires Inv(c) && EnvShape(c, e)
  {
    var f := Taken(c, e);
    && f.Some? && TypeOf(f.value[2]) == typ != NONE && KnownClass(f.value)
    && c.skMac.Some? && MacOk(h, c.skMac.value, f.value, e.macStale)
  }

  /** A serial number arrives: the one configured or accepted before, if there is one, and one in the keyring. */
  predicate SnumStep(h: Hashes, c: Conn, e: Env)
    requires Inv(c) && EnvShape(c, e)
  {
    var d, f := Run(h, c, e), Taken(c, e);
    && c.state == INIT && d.state == SESSION && f.Some?
    && TypeOf(f.value[2]) == SNUM && KnownClass(f.value) && Accepts(c, d, f.value, e)
  }

  /** What accepting the serial number in `f` means. */
  predicate Accepts(c: Conn, d: Conn, f: seq<byte>, e: Env)
    requires Inv(c) && PayloadField(f)
  {
    && d.snum.Some? && SERIAL_LEN <= |d.snum.value| && |PacketData(f)| >= SERIAL_LEN
    && (c.snum.None? ==> d.snum.value == PacketData(f))
    && (c.snum.Some? ==> (d.snum == c.snum && |e.dataStale| == DATA_LEN
      && d.snum.value[..c.snumLen] == DataBuffer(PacketData(f), e.dataStale)[..c.snumLen]))
    && Serial(d) in e.keyring && d.ltkey == Some(e.keyring[Serial(d)])
    && d.skMac == Some(Keyed(Serial(d), DEFAULT_KEY))
  }

  /** A nonce goes out and a session key is awaited. */
  predicate NonceStep(h: Hashes, c: Conn, e: Env)
    requires Inv(c) && EnvShape(c, e)
  {
    var d := Run(h, c, e);
    && Trusted(c.state) && c.state != SESSION_SENT && d.state == SESSION_SENT
    && e.random.Some? && d.nonce == Some(Le32(c.nonces) + e.random.value)
    && d.sent == c.sent + NonceCommand(d.nonce.value) && d.nonces == Count(c.nonces + 1) && d.keyreqs == 0
  }

  /**
    * A session key is derived from the long-term key, the device's entropy and the host's nonce, and installed for
    * MACs and pads, on a frame that is authenticated under the previous key and reports all twelve bytes of nonce.
    */
  predicate KeyStep(h: Hashes, c: Conn, e: Env)
    requires Inv(c) && EnvShape(c, e)
  {
    var d := Run(h, c, e);
    && c.state == SESSION_SENT && d.state == KEYED_FIRST && Authentic(h, c, e, KEY)
    && Decode12(PacketSubcode(Taken(c, e).value)) == 12
    && d.skMac == d.pad == Some(SessionKey(h, c, DataBuffer(PacketData(Taken(c, e).value), e.dataStale)[..32]))
    && d.rekeys == Count(c.rekeys + 1)
  }

  // ----- what one packet can do -----

  predicate PacketArgs(c: Conn, p: Packet, e: Env) {
    && Inv(c) && |e.dataStale| == DATA_LEN && RandomShape(e)
    && p.Packet? && |p.subcode| == 2 && SevenBit(p.subcode) && 0 < |p.data| <= DATA_LEN
  }

  lemma OnPacketState(h: Hashes, c: Conn, p: Packet, e: Env)
    requires PacketArgs(c, p, e)
    ensures var d := OnPacket(h, c, p, e);
      && (c.state == UNTRUSTED ==> d == c)
      && (Trusted(d.state) && !Trusted(c.state) ==> c.state == INIT && d.state == SESSION && p.typ == SNUM)
      && (d.state == SESSION && c.state != SESSION ==> c.state == INIT)
      && (d.state == SESSION_SENT && c.state != SESSION_SENT ==> Trusted(c.state))
      && (d.state == KEYED_FIRST && c.state != KEYED_FIRST ==>
        (c.state == SESSION_SENT && p.typ == KEY && Decode12(p.subcode) == 12
        && d.skMac == d.pad == Some(SessionKey(h, c, DataBuffer(p.data, e.dataStale)[..32]))))
      && (d.state == KEYED ==> Keying(c.state))
      && (Keying(c.state) && Keying(d.state) ==> d.skMac == c.skMac)
  {
    hide HandlerFor, Decrypted, NonceCommand, Le32, Decode12, DataBuffer, MacKey, SessionKey;
    HandlerShape(c.state, p.typ);
  }

  lemma OnPacketAccepts(h: Hashes, c: Conn, p: Packet, f: seq<byte>, e: Env)
    requires PacketArgs(c, p, e) && PayloadField(f) && p.data == PacketData(f)
    requires c.state == INIT && p.typ == SNUM && OnPacket(h, c, p, e).state == SESSION
    ensures Accepts(c, OnPacket(h, c, p, e), f, e)
  {
    hide Decrypted, NonceCommand, Le32, Decode12, SessionKey, PacketData;
    var buf := DataBuffer(p.data, e.dataStale);
    assert HandlerFor(INIT, SNUM) == SnumHandler;
    assert buf[..|p.data|] == p.data;
  }

  lemma OnPacketCounters(h: Hashes, c: Conn, p: Packet, e: Env)
    requires PacketArgs(c, p, e)
    ensures var d := OnPacket(h, c, p, e);
      && (if d.state == SESSION_SENT && c.state != SESSION_SENT then
            e.random.Some? && d.nonce == Some(Le32(c.nonces) + e.random.value)
            && d.sent == c.sent + NonceCommand(d.nonce.value) && d.nonces == Count(c.nonces + 1) && d.keyreqs == 0
          else d.nonces == c.nonces && (d.nonce == c.nonce || (e.random.None? && d.state == UNTRUSTED)))
      && (d.rekeys == if d.state == KEYED_FIRST && c.state != KEYED_FIRST then Count(c.rekeys + 1) else c.rekeys)
  {
    hide HandlerFor, Decrypted, NonceCommand, Le32, Decode12, DataBuffer, MacKey, SessionKey, Count;
    HandlerShape(c.state, p.typ);
  }

  lemma OnPacketOutput(h: Hashes, c: Conn, p: Packet, e: Env)
    requires PacketArgs(c, p, e)
    ensures var d := OnPacket(h, c, p, e);
      if p.typ == ENTROPY && Keying(c.state)
      then d.out == c.out + Decrypted(h, c.pad.value, p.subcode, DataBuffer(p.data, e.dataStale), |p.data|)
      else d.out == c.out
  {
    hide HandlerFor, Decrypted, NonceCommand, Le32, Decode12, DataBuffer, MacKey, SessionKey;
    HandlerShape(c.state, p.typ);
    EntropyIsHandled(c.state);
  }

  lemma EntropyIsHandled(s: State)
    ensures Keying(s) ==> HandlerFor(s, ENTROPY) == EntropyHandler
  {
  }

  // ----- lifted to steps -----

  /** The connection when the framer is done with this step's bytes. */
  function Framed(c: Conn, e: Env): (c1: Conn)
    requires Inv(c) && EnvShape(c, e)
    ensures Inv(c1) && c1 == c.(pending := c1.pending)
  {
    if c.state == CLOSE || !e.input.Data? then c
    else c.(pending := FramerStep(c.pending, e.input.bytes).pending)
  }

  /** The packet a step hands to the session layer. */
  function Seen(h: Hashes, c: Conn, e: Env): (p: Option<Packet>)
    requires Inv(c) && EnvShape(c, e)
    ensures p.Some? && p.value.Packet? && |p.value.data| > 0 ==> PacketArgs(Framed(c, e), p.value, e)
  {
    if Taken(c, e).None? then None
    else
      Some(ReadPacket(h, c.skMac, Taken(c, e).value, e.macStale))
  }

  lemma RunIsOnPacket(h: Hashes, c: Conn, e: Env)
    requires Inv(c) && EnvShape(c, e)
    ensures c.state == CLOSE ==> Run(h, c, e) == c
    ensures Seen(h, c, e).None? || Seen(h, c, e).value.Malformed? || |Seen(h, c, e).value.data| == 0 ==>
      var d := Run(h, c, e); d == c.(state := d.state, pending := d.pending) && (d.state == c.state || d.state == CLOSE)
    ensures Seen(h, c, e).Some? && Seen(h, c, e).value.Packet? && |Seen(h, c, e).value.data| > 0 ==>
      Run(h, c, e) == OnPacket(h, Framed(c, e), Seen(h, c, e).value, e)
  {
    hide Handle, ReadPacket, FramerStep;
  }

  /** A packet of a type other than SNUM or KEYREJECTED has passed its MAC check. */
  lemma TypedMeansAuthentic(h: Hashes, c: Conn, e: Env)
    requires Inv(c) && EnvShape(c, e)
    ensures Seen(h, c, e).Some? && Seen(h, c, e).value.Packet? ==>
      var t := Seen(h, c, e).value.typ;
      && PayloadField(Taken(c, e).value) && Seen(h, c, e).value.data == PacketData(Taken(c, e).value)
      && Seen(h, c, e).value.subcode == PacketSubcode(Taken(c, e).value)
      && (t == SNUM ==> TypeOf(Taken(c, e).value[2]) == SNUM)
      && KnownClass(Taken(c, e).value)
      && (t != SNUM && t != KEYREJECTED ==> Authentic(h, c, e, t))
  {
    hide MacOk, PacketData, PacketSubcode, FramerStep;
  }

  /** Every transition of the state machine. */
  lemma StepState(h: Hashes, c: Conn, e: Env)
    requires Inv(c) && EnvShape(c, e)
    ensures var d := Run(h, c, e);
      && (c.state == CLOSE ==> d == c)
      && (c.state == UNTRUSTED ==> d.state == UNTRUSTED || d.state == CLOSE)
      && (Trusted(d.state) && !Trusted(c.state) ==> SnumStep(h, c, e))
      && (d.state == SESSION && c.state != SESSION ==> SnumStep(h, c, e))
      && (d.state == SESSION_SENT && c.state != SESSION_SENT ==> NonceStep(h, c, e))
      && (d.state == KEYED_FIRST && c.state != KEYED_FIRST ==> KeyStep(h, c, e))
      && (d.state == KEYED ==> Keying(c.state))
      && (Keying(c.state) && Keying(d.state) ==> d.skMac == c.skMac)
  {
    hide Run, OnPacket, Authentic, FramerStep, NonceCommand, Le32, Count, Taken, Framed, SessionKey, Accepts;
    hide PacketData, PacketSubcode, DataBuffer, Decode12;
    RunIsOnPacket(h, c, e);
    TypedMeansAuthentic(h, c, e);
    var p := Seen(h, c, e);
    if p.Some? && p.value.Packet? && |p.value.data| > 0 {
      var c1 := Framed(c, e);
      OnPacketState(h, c1, p.value, e);
      OnPacketCounters(h, c1, p.value, e);
      if c.state == INIT && Run(h, c, e).state == SESSION {
        OnPacketAccepts(h, c1, p.value, Taken(c, e).value, e);
        AcceptsFramed(c, c1, Run(h, c, e), Taken(c, e).value, e);
      }
      if c.state == SESSION_SENT {
        SameSessionKey(h, c, c1, DataBuffer(p.value.data, e.dataStale)[..32]);
      }
    }
  }

  lemma AcceptsFramed(c: Conn, c1: Conn, d: Conn, f: seq<byte>, e: Env)
    requires Inv(c) && Inv(c1) && c1 == c.(pending := c1.pending) && PayloadField(f) && Accepts(c1, d, f, e)
    ensures Accepts(c, d, f, e)
  {
    hide PacketData, DataBuffer;
  }

  lemma SameSessionKey(h: Hashes, c: Conn, c1: Conn, entropy: seq<byte>)
    requires Inv(c) && Inv(c1) && c1 == c.(pending := c1.pending) && c.state == SESSION_SENT
    ensures SessionKey(h, c1, entropy) == SessionKey(h, c, entropy)
  {
  }

  // ----- what each state makes of each frame -----

  /** The handlers, state by state. */
  lemma EveryHandler()
    ensures forall t ::
      HandlerFor(INIT, t) == if t == SNUM then SnumHandler else ResetHandler
    ensures forall t ::
      HandlerFor(SESSION, t) == if t == INFO then InfoHandler else if t == KEYREQ then KeyReqHandler else ResetHandler
    ensures forall t ::
      HandlerFor(SESSION_SENT, t) ==
      if t == INFO then InfoHandler else if t == KEYREQ then KeyReqCountHandler
      else if t == KEY then KeyHandler else ResetHandler
    ensures forall t ::
      HandlerFor(KEYED_FIRST, t) ==
      if t == INFO then InfoHandler else if t == ENTROPY then EntropyHandler
      else if t == KEYREJECTED then BadKeyHandler else ResetHandler
    ensures forall t ::
      HandlerFor(KEYED, t) ==
      if t == INFO then InfoHandler else if t == ENTROPY then EntropyHandler
      else if t == KEYREQ then KeyReqHandler else ResetHandler
    ensures forall t ::
      HandlerFor(KEYED_BAD, t) == if t == KEYREQ then BadKeyCountHandler else NullHandler
    ensures forall t ::
      HandlerFor(UNTRUSTED, t) == NullHandler
  {
  }

  /** The step takes a frame of a known type and class that is not empty. */
  predicate Usable(c: Conn, e: Env)
    requires Inv(c) && EnvShape(c, e)
  {
    && Taken(c, e).Some? && TypeOf(Taken(c, e).value[2]) != NONE && KnownClass(Taken(c, e).value)
    && PacketData(Taken(c, e).value) != []
  }

  predicate MacPasses(h: Hashes, c: Conn, e: Env)
    requires Inv(c) && EnvShape(c, e) && Usable(c, e)
  {
    c.skMac.Some? && MacOk(h, c.skMac.value, Taken(c, e).value, e.macStale)
  }

  /** The session layer sees such a frame under its own type, or as a rejected one. */
  lemma UsableSeen(h: Hashes, c: Conn, e: Env)
    requires Inv(c) && EnvShape(c, e) && Usable(c, e) && c.state != CLOSE
    ensures var f := Taken(c, e).value;
      var t := TypeOf(f[2]);
      var own := MacPasses(h, c, e) || (c.skMac.None? && t == SNUM);
      var p := Packet(if own then t else KEYREJECTED, PacketSubcode(f), PacketData(f));
      PacketArgs(Framed(c, e), p, e) && Run(h, c, e) == OnPacket(h, Framed(c, e), p, e)
  {
    hide OnPacket, FramerStep, MacOk, PacketData, PacketSubcode, Run;
    RunIsOnPacket(h, c, e);
  }

  /** Back to the start, with a ^C for the device, and nothing put out. */
  predicate Restarted(c: Conn, d: Conn)
    requires Inv(c)
  {
    d.state == INIT && IsReset(c, d) && d.out == c.out && d.snum == c.snum && d.pad == c.pad
  }

  lemma ResetRestarted(c: Conn, c1: Conn)
    requires Inv(c) && Inv(c1) && c1 == c.(pending := c1.pending)
    ensures Restarted(c, Reset(c1))
  {
  }

  /** The answer to a key request: the nonce goes out, or trust is lost. */
  predicate Asked(c: Conn, d: Conn, e: Env) {
    if e.random.Some? then
      && d.state == SESSION_SENT && d.nonce == Some(Le32(c.nonces) + e.random.value) && d.keyreqs == 0
      && |d.nonce.value| == 12
      && d.sent == c.sent + NonceCommand(d.nonce.value)
    else
      && d.state == UNTRUSTED && d.sent == c.sent && d.nonce.Some? && |d.nonce.value| == 12
      && (c.nonce.Some? && |c.nonce.value| == 12 && |e.partial| <= 8 ==>
        d.nonce.value == c.nonce.value[..4] + e.partial + c.nonce.value[4 + |e.partial|..])
  }

  /** The serial number is the one known so far, if any, and its key is in the keyring. */
  predicate SerialFits(c: Conn, f: seq<byte>, e: Env)
    requires Inv(c) && EnvShape(c, e) && PayloadField(f) && |PacketData(f)| >= 12
  {
    if c.snum.None? then PacketData(f)[..12] in e.keyring
    else
      c.snum.value[..c.snumLen] == DataBuffer(PacketData(f), e.dataStale)[..c.snumLen]
      && c.snum.value[..12] in e.keyring
  }

  lemma SerialRead(data: seq<byte>, stale: seq<byte>)
    requires 12 <= |data| <= DATA_LEN == |stale|
    ensures DataBuffer(data, stale)[..|data|] == data && data[..|data|][..12] == data[..12]
  {
  }

  /** With no serial number accepted yet, only one is looked at; everything else resets. */
  lemma InitReacts(h: Hashes, c: Conn, e: Env)
    requires Inv(c) && EnvShape(c, e) && Usable(c, e) && c.state == INIT
    ensures var d, f := Run(h, c, e), Taken(c, e).value;
      if TypeOf(f[2]) == SNUM && (c.skMac.None? || MacPasses(h, c, e)) && |PacketData(f)| >= 12
      then d.state == (if SerialFits(c, f, e) then SESSION else UNTRUSTED) && d.sent == c.sent && d.out == c.out
      else Restarted(c, d)
  {
    hide Run, FramerStep, MacOk, PacketData, PacketSubcode, HandlerFor, MacKey, Reset, Count;
    if |PacketData(Taken(c, e).value)| >= 12 {
      SerialRead(PacketData(Taken(c, e).value), e.dataStale);
    }
    UsableSeen(h, c, e);
    ResetRestarted(c, Framed(c, e));
    EveryHandler();
  }

  /** In a session without a key, information is ignored and a request answered. */
  lemma SessionReacts(h: Hashes, c: Conn, e: Env)
    requires Inv(c) && EnvShape(c, e) && Usable(c, e) && c.state == SESSION
    ensures var d, t, ok := Run(h, c, e), TypeOf(Taken(c, e).value[2]), MacPasses(h, c, e);
      if ok && t == INFO then d == Framed(c, e)
      else if ok && t == KEYREQ then Asked(c, d, e)
      else Restarted(c, d)
  {
    hide Run, FramerStep, MacOk, PacketData, PacketSubcode, DataBuffer, HandlerFor, MacKey, Reset, Serial, Count,
      NonceCommand, Le32;
    UsableSeen(h, c, e);
    ResetRestarted(c, Framed(c, e));
    EveryHandler();
  }

  /** While a key is awaited: a key for all twelve bytes of the nonce is taken, requests are counted. */
  lemma SentReacts(h: Hashes, c: Conn, e: Env)
    requires Inv(c) && EnvShape(c, e) && Usable(c, e) && c.state == SESSION_SENT
    ensures var d, f, ok := Run(h, c, e), Taken(c, e).value, MacPasses(h, c, e);
      var t := TypeOf(f[2]);
      if ok && t == INFO then d == Framed(c, e)
      else if ok && t == KEY && Decode12(PacketSubcode(f)) == 12 then d.state == KEYED_FIRST && d.sent == c.sent
      else if ok && t == KEYREQ && e.memory && c.keyreqs < 5 then d == Framed(c, e).(keyreqs := c.keyreqs + 1)
      else Restarted(c, d)
  {
    hide Run, FramerStep, MacOk, PacketData, PacketSubcode, DataBuffer, HandlerFor, MacKey, Serial, Decode12;
    UsableSeen(h, c, e);
    ResetRestarted(c, Framed(c, e));
    EveryHandler();
  }

  /** The first 32 bytes go through the pad, the others are as they came. */
  ghost predicate Deciphered(pad: Digest, data: seq<byte>, plain: seq<byte>) {
    |plain| == |data| && forall i :: 0 <= i < |data| ==> plain[i] == if i < 32 then data[i] ^ pad[i] else data[i]
  }

  lemma DecryptedIsDeciphered(h: Hashes, k: Keyed, sub: seq<byte>, data: seq<byte>, stale: seq<byte>)
    requires |data| <= DATA_LEN == |stale|
    ensures Deciphered(h.pad(k, sub), data, Decrypted(h, k, sub, DataBuffer(data, stale), |data|))
  {
    var buf, pad := DataBuffer(data, stale), h.pad(k, sub);
    var plain := Decrypted(h, k, sub, buf, |data|);
    forall i | 0 <= i < |data|
      ensures plain[i] == if i < 32 then data[i] ^ pad[i] else data[i]
    {
      assert buf[i] == data[i];
      assert plain[i] == (XorSeq(buf[..32], pad) + buf[32..])[i];
    }
  }

  lemma Appended(out: seq<byte>, more: seq<byte>)
    ensures out <= out + more && (out + more)[|out|..] == more
  {
  }

  /** What an entropy packet does in a keyed state, seen through its frame. */
  lemma EntropyOutput(h: Hashes, c: Conn, f: seq<byte>, e: Env)
    requires PayloadField(f) && PacketArgs(c, Packet(ENTROPY, PacketSubcode(f), PacketData(f)), e) && Keying(c.state)
    ensures Output(
      h, c, EntropyPacket(h, c, PacketSubcode(f), DataBuffer(PacketData(f), e.dataStale), |PacketData(f)|, e), f, e)
  {
    hide PacketData, PacketSubcode, DataBuffer, Decrypted, Deciphered, Decode12, NonceCommand, Le32;
    var sub, data := PacketSubcode(f), PacketData(f);
    DecryptedIsDeciphered(h, c.pad.value, sub, data, e.dataStale);
    Appended(c.out, Decrypted(h, c.pad.value, sub, DataBuffer(data, e.dataStale), |data|));
  }

  lemma OutputFramed(h: Hashes, c: Conn, c1: Conn, d: Conn, f: seq<byte>, e: Env)
    requires PayloadField(f) && c1 == c.(pending := c1.pending) && Output(h, c1, d, f, e)
    ensures Output(h, c, d, f, e)
  {
    hide PacketData, PacketSubcode, Deciphered, Decode12, NonceCommand, Le32;
  }

  /** An entropy packet puts out its bytes, and the one of the last sequence number is answered by a nonce. */
  ghost predicate Output(h: Hashes, c: Conn, d: Conn, f: seq<byte>, e: Env)
    requires PayloadField(f)
  {
    && c.out <= d.out && c.pad.Some?
    && Deciphered(h.pad(c.pad.value, PacketSubcode(f)), PacketData(f), d.out[|c.out|..])
    && (if Decode12(PacketSubcode(f)) == 4095 then Asked(c, d, e) else d.state == KEYED && d.sent == c.sent)
  }

  /** With a new key: entropy and information under it are taken, a rejected frame means that the key is bad. */
  lemma FirstReacts(h: Hashes, c: Conn, e: Env)
    requires Inv(c) && EnvShape(c, e) && Usable(c, e) && c.state == KEYED_FIRST
    ensures var d, f, ok := Run(h, c, e), Taken(c, e).value, MacPasses(h, c, e);
      var t := TypeOf(f[2]);
      if ok && t == INFO then d == Framed(c, e)
      else if ok && t == ENTROPY then Output(h, c, d, f, e)
      else if !ok then d.state == KEYED_BAD && IsReset(c, d) && d.keyreqs == 0 && d.out == c.out
      else Restarted(c, d)
  {
    hide Run, FramerStep, MacOk, PacketData, PacketSubcode, DataBuffer, HandlerFor, MacKey, Serial, Decode12,
      NonceCommand, Le32, Output, EntropyPacket;
    UsableSeen(h, c, e);
    ResetRestarted(c, Framed(c, e));
    var f := Taken(c, e).value;
    if MacPasses(h, c, e) && TypeOf(f[2]) == ENTROPY {
      EntropyOutput(h, Framed(c, e), f, e);
      EveryHandler();
      OutputFramed(h, c, Framed(c, e), Run(h, c, e), f, e);
    }
    EveryHandler();
  }

  /** With a key that has been used: entropy, information and requests under it are taken, and nothing else is. */
  lemma KeyedReacts(h: Hashes, c: Conn, e: Env)
    requires Inv(c) && EnvShape(c, e) && Usable(c, e) && c.state == KEYED
    ensures var d, f, ok := Run(h, c, e), Taken(c, e).value, MacPasses(h, c, e);
      var t := TypeOf(f[2]);
      if ok && t == INFO then d == Framed(c, e)
      else if ok && t == ENTROPY then Output(h, c, d, f, e)
      else if ok && t == KEYREQ then Asked(c, d, e)
      else Restarted(c, d)
  {
    hide Run, FramerStep, MacOk, PacketData, PacketSubcode, DataBuffer, HandlerFor, MacKey, Serial, Decode12,
      NonceCommand, Le32, Output, EntropyPacket;
    UsableSeen(h, c, e);
    ResetRestarted(c, Framed(c, e));
    var f := Taken(c, e).value;
    if MacPasses(h, c, e) && TypeOf(f[2]) == ENTROPY {
      EntropyOutput(h, Framed(c, e), f, e);
      EveryHandler();
      OutputFramed(h, c, Framed(c, e), Run(h, c, e), f, e);
    }
    EveryHandler();
  }

  /** After a rejected key only key requests under the default key count; a host without trust ignores everything. */
  lemma BadReacts(h: Hashes, c: Conn, e: Env)
    requires Inv(c) && EnvShape(c, e) && Usable(c, e) && (c.state == KEYED_BAD || c.state == UNTRUSTED)
    ensures var d, t, ok := Run(h, c, e), TypeOf(Taken(c, e).value[2]), MacPasses(h, c, e);
      if !(ok && t == KEYREQ) || c.state == UNTRUSTED then d == Framed(c, e)
      else if c.keyreqs < 50 then d == Framed(c, e).(keyreqs := c.keyreqs + 1)
      else Restarted(c, d)
  {
    hide Run, FramerStep, MacOk, PacketData, PacketSubcode, DataBuffer, HandlerFor, MacKey, Serial, Decode12;
    UsableSeen(h, c, e);
    ResetRestarted(c, Framed(c, e));
    EveryHandler();
  }

  // ----- causes -----

  /** The device is told to reset, and MACs are checked under the default key again. */
  predicate IsReset(c: Conn, d: Conn)
    requires Inv(c)
  {
    && (d.state == INIT || d.state == KEYED_BAD) && d.sent == c.sent + RESET_COMMAND
    && d.resets == Count(c.resets + 1) && d.skMac == MacKey(c, DEFAULT_KEY)
  }

  lemma OnPacketCauses(h: Hashes, c: Conn, p: Packet, e: Env)
    requires PacketArgs(c, p, e)
    ensures var d := OnPacket(h, c, p, e);
      && (d.state == INIT && c.state != INIT ==> IsReset(c, d))
      && (d.state == KEYED_BAD && c.state != KEYED_BAD ==>
        c.state == KEYED_FIRST && p.typ == KEYREJECTED && IsReset(c, d) && d.keyreqs == 0)
      && (d.state == UNTRUSTED && c.state != UNTRUSTED ==>
        (c.state == INIT && p.typ == SNUM) || (e.random.None? && Trusted(c.state)))
      && (d.state != CLOSE || c.state == CLOSE)
      && (d.sent != c.sent ==> IsReset(c, d) || (d.state == SESSION_SENT && c.state != SESSION_SENT))
      && (d.skMac != c.skMac ==>
        IsReset(c, d) || (d.state == KEYED_FIRST && c.state != KEYED_FIRST) || (c.state == INIT && p.typ == SNUM))
  {
    hide HandlerFor, Decrypted, NonceCommand, Le32, Decode12, DataBuffer, MacKey, SessionKey, Count;
    HandlerShape(c.state, p.typ);
    ResetCommandSent(c.sent);
  }

  lemma ResetCommandSent(sent: seq<byte>)
    ensures |sent + RESET_COMMAND| == |sent| + 1
  {
  }

  /** The stream has ended, failed for good, or delivered a packet that cannot be used. */
  predicate Broken(h: Hashes, c: Conn, e: Env)
    requires Inv(c) && EnvShape(c, e)
  {
    match e.input
    case Closed => true
    case Failed(err) => err != EWOULDBLOCK
    case Data(_) => Seen(h, c, e).Some? && (Seen(h, c, e).value.Malformed? || |Seen(h, c, e).value.data| == 0)
  }

  /**
    * Every change has its cause: the way back to INIT and the way to KEYED_BAD are resets; trust is lost only over a
    * serial number or for want of randomness; a connection closes exactly when its stream is broken; the device is
    * sent nothing but resets and nonces; and the MAC key changes only with a reset, a serial number or a key packet.
    */
  lemma StepCauses(h: Hashes, c: Conn, e: Env)
    requires Inv(c) && EnvShape(c, e)
    ensures var d := Run(h, c, e);
      && (d.state == INIT && c.state != INIT ==> IsReset(c, d))
      && (d.state == KEYED_BAD && c.state != KEYED_BAD ==> c.state == KEYED_FIRST && IsReset(c, d) && d.keyreqs == 0)
      && (d.state == UNTRUSTED && c.state != UNTRUSTED ==>
        (c.state == INIT && TypeOf(Taken(c, e).value[2]) == SNUM) || (e.random.None? && Trusted(c.state)))
      && (c.state != CLOSE ==> (d.state == CLOSE <==> Broken(h, c, e)))
      && (d.sent != c.sent ==> IsReset(c, d) || NonceStep(h, c, e))
      && (d.skMac != c.skMac ==>
        IsReset(c, d) || KeyStep(h, c, e) || (c.state == INIT && TypeOf(Taken(c, e).value[2]) == SNUM))
  {
    hide Run, OnPacket, FramerStep, Taken, Framed, SnumStep, KeyStep, NonceStep, Count, MacKey;
    RunIsOnPacket(h, c, e);
    if c.state != CLOSE {
      RunBroken(h, c, e);
    }
    TypedMeansAuthentic(h, c, e);
    StepState(h, c, e);
    var p := Seen(h, c, e);
    if p.Some? && p.value.Packet? && |p.value.data| > 0 {
      OnPacketCauses(h, Framed(c, e), p.value, e);
      SameMacKey(c, Framed(c, e));
    }
  }

  lemma SameMacKey(c: Conn, c1: Conn)
    requires Inv(c) && Inv(c1) && c1 == c.(pending := c1.pending)
    ensures MacKey(c1, DEFAULT_KEY) == MacKey(c, DEFAULT_KEY)
  {
  }

  lemma RunBroken(h: Hashes, c: Conn, e: Env)
    requires Inv(c) && EnvShape(c, e) && c.state != CLOSE
    ensures Broken(h, c, e) ==> Run(h, c, e).state == CLOSE
    ensures !Broken(h, c, e) && Taken(c, e).None? ==> Run(h, c, e).state != CLOSE
    ensures !Broken(h, c, e) && Taken(c, e).Some? ==> Seen(h, c, e).value.Packet? && |Seen(h, c, e).value.data| > 0
  {
    hide Handle, ReadPacket, FramerStep;
  }

  /** The frame types of doc/README.protocol: S, k, I, K, E, M, L, l, W and B. */
  const DOCUMENTED: seq<byte> := [83, 107, 73, 75, 69, 77, 76, 108, 87, 66]

  /** A frame of one of the documented types 'B' and 'l', and only of these, closes the connection for its type. */
  lemma UnknownTypeCloses(h: Hashes, c: Conn, e: Env)
    requires Inv(c) && EnvShape(c, e) && Taken(c, e).Some?
    ensures forall letter :: letter in DOCUMENTED ==> (TypeOf(letter) == NONE <==> letter == 66 || letter == 108)
    ensures TypeOf(Taken(c, e).value[2]) == NONE ==>
      Run(h, c, e) == c.(state := CLOSE, pending := Framed(c, e).pending)
  {
    hide MacOk, PacketData, PacketSubcode, FramerStep, Handle;
  }

  /** Bytes reach the output only from an ENTROPY frame whose MAC passed, in KEYED_FIRST or KEYED, where MAC key
      and pad key are the same; and they are exactly that frame's data through the pad. */
  lemma OutputSafety(h: Hashes, c: Conn, e: Env)
    requires Inv(c) && EnvShape(c, e) && Run(h, c, e).out != c.out
    ensures Keying(c.state) && c.pad.Some? && c.pad == c.skMac && Authentic(h, c, e, ENTROPY)
    ensures var f := Taken(c, e).value;
      Run(h, c, e).out
        == c.out + Decrypted(h, c.pad.value, PacketSubcode(f), DataBuffer(PacketData(f), e.dataStale), |PacketData(f)|)
  {
    hide Run, OnPacket, Authentic, FramerStep, Decrypted, Taken, Framed, PacketData, PacketSubcode, MacOk;
    RunIsOnPacket(h, c, e);
    TypedMeansAuthentic(h, c, e);
    OnPacketOutput(h, Framed(c, e), Seen(h, c, e).value, e);
  }

  // ----- runs -----

  /** `cs[i + 1]` is what `econ_run` makes of `cs[i]` in circumstances `es[i]`. */
  ghost predicate Trace(h: Hashes, cs: seq<Conn>, es: seq<Env>) {
    && |cs| == |es| + 1
    && (forall i :: 0 <= i < |cs| ==> Inv(cs[i]))
    && (forall i :: 0 <= i < |es| ==> EnvShape(cs[i], es[i]) && cs[i + 1] == Run(h, cs[i], es[i]))
  }

  /** No reset between `i` and `n`: the connection has been trusted all the time. */
  ghost predicate TrustedSince(cs: seq<Conn>, i: nat, n: nat)
    requires n < |cs|
  {
    forall m :: i < m <= n ==> Trusted(cs[m].state)
  }

  /** A trusted connection goes back, without a reset, to a serial number accepted in INIT. */
  lemma {:induction false} TrustedHistory(h: Hashes, cs: seq<Conn>, es: seq<Env>, n: nat) returns (i: nat)
    requires Trace(h, cs, es) && cs[0].state == INIT && n < |cs| && Trusted(cs[n].state)
    ensures i < n && SnumStep(h, cs[i], es[i]) && TrustedSince(cs, i, n)
  {
    hide Run, SnumStep, NonceStep, KeyStep, Inv, EnvShape;
    StepState(h, cs[n - 1], es[n - 1]);
    if Trusted(cs[n - 1].state) {
      i := TrustedHistory(h, cs, es, n - 1);
    } else {
      i := n - 1;
    }
  }

  lemma {:induction false} SentHistory(h: Hashes, cs: seq<Conn>, es: seq<Env>, n: nat) returns (i: nat, j: nat)
    requires Trace(h, cs, es) && cs[0].state == INIT && n < |cs| && cs[n].state == SESSION_SENT
    ensures i < j < n && SnumStep(h, cs[i], es[i]) && NonceStep(h, cs[j], es[j]) && TrustedSince(cs, i, n)
    ensures forall m :: j < m <= n ==> cs[m].state == SESSION_SENT
  {
    hide Run, SnumStep, Inv, EnvShape;
    StepState(h, cs[n - 1], es[n - 1]);
    if cs[n - 1].state == SESSION_SENT {
      i, j := SentHistory(h, cs, es, n - 1);
    } else {
      j := n - 1;
      i := TrustedHistory(h, cs, es, n - 1);
    }
  }

  /** In KEYED_FIRST and KEYED: serial number, key request, session key, in this order and without a reset
      in between, and the key then installed is still the one in use. */
  lemma {:induction false} KeyedHistory(h: Hashes, cs: seq<Conn>, es: seq<Env>, n: nat) returns (i: nat, j: nat, k: nat)
    requires Trace(h, cs, es) && cs[0].state == INIT && n < |cs| && Keying(cs[n].state)
    ensures i < j < k < n && TrustedSince(cs, i, n)
    ensures SnumStep(h, cs[i], es[i]) && NonceStep(h, cs[j], es[j]) && KeyStep(h, cs[k], es[k])
    ensures cs[n].skMac == cs[k + 1].skMac
  {
    hide Run, SnumStep, NonceStep, Inv, EnvShape, Authentic, SessionKey, PacketData,
      PacketSubcode, DataBuffer, Decode12;
    StepState(h, cs[n - 1], es[n - 1]);
    if Keying(cs[n - 1].state) {
      i, j, k := KeyedHistory(h, cs, es, n - 1);
    } else {
      k := n - 1;
      i, j := SentHistory(h, cs, es, n - 1);
    }
  }

  /** Output safety over runs. */
  lemma OutputOnlyAfterKeying(h: Hashes, cs: seq<Conn>, es: seq<Env>, n: nat) returns (i: nat, j: nat, k: nat)
    requires Trace(h, cs, es) && cs[0].state == INIT && n < |es| && cs[n + 1].out != cs[n].out
    ensures i < j < k < n && TrustedSince(cs, i, n) && Authentic(h, cs[n], es[n], ENTROPY)
    ensures SnumStep(h, cs[i], es[i]) && NonceStep(h, cs[j], es[j]) && KeyStep(h, cs[k], es[k])
    ensures cs[n].pad == cs[n].skMac == cs[k + 1].skMac
  {
    hide Run, SnumStep, NonceStep, KeyStep, Authentic, Inv, EnvShape;
    assert Inv(cs[n]) && EnvShape(cs[n], es[n]);
    OutputSafety(h, cs[n], es[n]);
    i, j, k := KeyedHistory(h, cs, es, n);
  }

  /** Once untrusted, only closing remains; once closed, nothing changes any more. */
  lemma {:induction false} UntrustedForever(h: Hashes, cs: seq<Conn>, es: seq<Env>, i: nat, n: nat)
    requires Trace(h, cs, es) && i <= n < |cs| && (cs[i].state == UNTRUSTED || cs[i].state == CLOSE)
    ensures cs[n].state == UNTRUSTED || cs[n].state == CLOSE
    ensures cs[i].state == CLOSE ==> cs[n] == cs[i]
    ensures cs[n].out == cs[i].out
    decreases n - i
  {
    hide Run, SnumStep, NonceStep, KeyStep, Inv, EnvShape;
    if i < n {
      UntrustedForever(h, cs, es, i, n - 1);
      StepState(h, cs[n - 1], es[n - 1]);
      if cs[n].out != cs[n - 1].out {
        OutputSafety(h, cs[n - 1], es[n - 1]);
      }
    }
  }

  // ----- counting keys and nonces -----

  lemma StepCounters(h: Hashes, c: Conn, e: Env)
    requires Inv(c) && EnvShape(c, e)
    ensures var d := Run(h, c, e);
      && (if d.state == SESSION_SENT && c.state != SESSION_SENT then d.nonces == Count(c.nonces + 1)
          else d.nonces == c.nonces)
      && (d.rekeys == if d.state == KEYED_FIRST && c.state != KEYED_FIRST then Count(c.rekeys + 1) else c.rekeys)
  {
    hide Run, OnPacket, FramerStep, NonceCommand, Le32, Count, Taken, Framed, PacketData,
      PacketSubcode, DataBuffer, ReadPacket;
    RunIsOnPacket(h, c, e);
    var p := Seen(h, c, e);
    if p.Some? && p.value.Packet? && |p.value.data| > 0 {
      OnPacketCounters(h, Framed(c, e), p.value, e);
    }
  }

  /** How many nonces have been sent before `cs[n]`. */
  ghost function NonceCount(cs: seq<Conn>, n: nat): nat
    requires n < |cs|
  {
    if n == 0 then 0
    else NonceCount(cs, n - 1) + (if cs[n].state == SESSION_SENT && cs[n - 1].state != SESSION_SENT then 1 else 0)
  }

  /** How many session keys have been installed before `cs[n]`. */
  ghost function KeyCount(cs: seq<Conn>, n: nat): nat
    requires n < |cs|
  {
    if n == 0 then 0
    else KeyCount(cs, n - 1) + (if cs[n].state == KEYED_FIRST && cs[n - 1].state != KEYED_FIRST then 1 else 0)
  }

  lemma CountSum(a: nat, b: nat)
    ensures Count(Count(a) + b) == Count(a + b)
  {
    assert a == COUNTER_SIZE * (a / COUNTER_SIZE) + a % COUNTER_SIZE;
    SameCount(a % COUNTER_SIZE + b, a / COUNTER_SIZE);
  }

  lemma SameCount(r: nat, q: nat)
    ensures Count(COUNTER_SIZE * q + r) == Count(r)
  {
  }

  /** The two counters are what they are named after, modulo 2^32. */
  lemma {:induction false} CountersCount(h: Hashes, cs: seq<Conn>, es: seq<Env>, n: nat)
    requires Trace(h, cs, es) && cs[0].nonces < COUNTER_SIZE && cs[0].rekeys < COUNTER_SIZE && n < |cs|
    ensures cs[n].nonces == Count(cs[0].nonces + NonceCount(cs, n))
    ensures cs[n].rekeys == Count(cs[0].rekeys + KeyCount(cs, n))
  {
    hide Run, Inv, EnvShape, Count;
    if n == 0 {
      Unwrapped(cs[0].nonces);
      Unwrapped(cs[0].rekeys);
    } else {
      CountersCount(h, cs, es, n - 1);
      StepCounters(h, cs[n - 1], es[n - 1]);
      CountSum(cs[0].nonces + NonceCount(cs, n - 1), 1);
      CountSum(cs[0].rekeys + KeyCount(cs, n - 1), 1);
    }
  }

  lemma Unwrapped(a: nat)
    requires a < COUNTER_SIZE
    ensures Count(a) == a
  {
  }

  /**
    * Each session key answers a nonce of its own: in every run, the keys installed, plus the one being waited for,
    * never outnumber the nonces sent. The code's counters say the same until the nonce counter wraps.
    */
  lemma {:induction false} KeysNeedNonces(h: Hashes, cs: seq<Conn>, es: seq<Env>, n: nat)
    requires Trace(h, cs, es) && cs[0].state == INIT && cs[0].nonces == cs[0].rekeys == 0 && n < |cs|
    ensures KeyCount(cs, n) + (if cs[n].state == SESSION_SENT then 1 else 0) <= NonceCount(cs, n)
    ensures NonceCount(cs, n) < COUNTER_SIZE ==>
      cs[n].rekeys + (if cs[n].state == SESSION_SENT then 1 else 0) <= cs[n].nonces
  {
    hide Run, SnumStep, NonceStep, Inv, EnvShape, Authentic, SessionKey, PacketData,
      PacketSubcode, DataBuffer, Decode12;
    CountersCount(h, cs, es, n);
    if n > 0 {
      KeysNeedNonces(h, cs, es, n - 1);
      StepState(h, cs[n - 1], es[n - 1]);
    }
  }

  lemma {:induction false} NoncesGrow(cs: seq<Conn>, m: nat, n: nat)
    requires m <= n < |cs|
    ensures NonceCount(cs, m) <= NonceCount(cs, n)
    decreases n
  {
    if m < n {
      NoncesGrow(cs, m, n - 1);
    }
  }

  function FromByte(b: byte): int { b as int }

  lemma FromNextByte(b: byte)
    requires FromByte(b) < 255
    ensures FromByte(NextByte(b)) == FromByte(b) + 1
  {
  }

  lemma {:induction false} ByteRoundTrip(a: nat)
    requires a < 256
    ensures FromByte(ToByte(a)) == a
  {
    hide FromByte, NextByte;
    if a == 0 {
      FromZero();
    } else {
      ByteRoundTrip(a - 1);
      FromNextByte(ToByte(a - 1));
    }
  }

  lemma FromZero()
    ensures FromByte(0) == 0
  {
  }

  lemma SameByte(a: nat, b: nat)
    requires a < 256 && b < 256 && ToByte(a) == ToByte(b)
    ensures a == b
  {
    hide ToByte, FromByte;
    ByteRoundTrip(a);
    ByteRoundTrip(b);
  }

  lemma Digits(a: nat)
    requires a < COUNTER_SIZE
    ensures a == a % 256 + 256 * (a / 256 % 256) + 65536 * (a / 65536 % 256) + 16777216 * (a / 16777216 % 256)
  {
    Digit(a);
    Digit(a / 256);
    Digit(a / 65536);
    DividedTwice(a, 256);
    DividedTwice(a, 65536);
    TopDigit(a);
  }

  lemma Digit(a: nat)
    ensures a == 256 * (a / 256) + a % 256
  {
  }

  lemma DividedTwice(a: nat, b: nat)
    requires b == 256 || b == 65536
    ensures a / b / 256 == a / (b * 256)
  {
    var q, r := a / (b * 256), a % (b * 256);
    if b == 256 {
      assert a == 256 * (256 * q + r / 256) + r % 256;
    } else {
      assert a == 65536 * (256 * q + r / 65536) + r % 65536;
    }
  }

  lemma TopDigit(a: nat)
    requires a < COUNTER_SIZE
    ensures a / 16777216 < 256 && a / 16777216 % 256 == a / 16777216
  {
  }

  /** The lowest byte of the counter comes first. */
  lemma LowByteFirst()
    ensures Le32(1) == [1, 0, 0, 0] && Le32(256) == [0, 1, 0, 0]
    ensures Le32(65536) == [0, 0, 1, 0] && Le32(16777216) == [0, 0, 0, 1]
  {
  }

  lemma Le32Injective(a: nat, b: nat)
    requires a < COUNTER_SIZE && b < COUNTER_SIZE && Le32(a) == Le32(b)
    ensures a == b
  {
    hide ToByte;
    assert Le32(a)[0] == Le32(b)[0] && Le32(a)[1] == Le32(b)[1] && Le32(a)[2] == Le32(b)[2] && Le32(a)[3] == Le32(b)[3];
    SameByte(a % 256, b % 256);
    SameByte(a / 256 % 256, b / 256 % 256);
    SameByte(a / 65536 % 256, b / 65536 % 256);
    SameByte(a / 16777216 % 256, b / 16777216 % 256);
    Digits(a);
    Digits(b);
  }

  lemma CountsAgree(a: nat, x: nat, y: nat)
    requires x <= y
    ensures Count(a + x) == Count(a + y) <==> (y - x) % COUNTER_SIZE == 0
  {
    var u, v := a + x, a + y;
    assert u == COUNTER_SIZE * (u / COUNTER_SIZE) + Count(u) && v == COUNTER_SIZE * (v / COUNTER_SIZE) + Count(v);
    assert y - x == COUNTER_SIZE * (v / COUNTER_SIZE - u / COUNTER_SIZE) + (Count(v) - Count(u));
  }

  /** Two nonces of a run are equal exactly when a multiple of 2^32 lies between them and the random source repeats. */
  lemma NoncesEqualIff(h: Hashes, cs: seq<Conn>, es: seq<Env>, m: nat, n: nat)
    requires Trace(h, cs, es) && cs[0].nonces < COUNTER_SIZE && cs[0].rekeys < COUNTER_SIZE && m < n < |es|
    requires NonceStep(h, cs[m], es[m]) && NonceStep(h, cs[n], es[n])
    ensures NonceCount(cs, m) < NonceCount(cs, n)
    ensures cs[m + 1].nonce == cs[n + 1].nonce <==>
      (NonceCount(cs, n) - NonceCount(cs, m)) % COUNTER_SIZE == 0 && es[m].random == es[n].random
  {
    hide Run, Le32, NonceCommand, Inv, EnvShape;
    NoncesGrow(cs, m + 1, n);
    CountersCount(h, cs, es, m);
    CountersCount(h, cs, es, n);
    CountsAgree(cs[0].nonces, NonceCount(cs, m), NonceCount(cs, n));
    var a, b := cs[m].nonces, cs[n].nonces;
    var p, q := es[m].random.value, es[n].random.value;
    SameParts(Le32(a), p, Le32(b), q);
    if Le32(a) == Le32(b) {
      Le32Injective(a, b);
    }
  }

  lemma SameParts<T>(a: seq<T>, p: seq<T>, b: seq<T>, q: seq<T>)
    requires |a| == |b|
    ensures a + p == b + q <==> a == b && p == q
  {
    assert (a + p)[..|a|] == a && (b + q)[..|b|] == b && (a + p)[|a|..] == p && (b + q)[|b|..] == q;
  }

  /** Up to 2^32 nonces are pairwise distinct, in a run of any length and whatever the random source delivers. */
  lemma NoncesFresh(h: Hashes, cs: seq<Conn>, es: seq<Env>, m: nat, n: nat)
    requires Trace(h, cs, es) && cs[0].nonces < COUNTER_SIZE && cs[0].rekeys < COUNTER_SIZE && m < n < |es|
    requires NonceCount(cs, |es|) <= COUNTER_SIZE
    requires NonceStep(h, cs[m], es[m]) && NonceStep(h, cs[n], es[n])
    ensures cs[m + 1].nonce != cs[n + 1].nonce
  {
    hide Run, Le32, NonceCommand, Inv, EnvShape, Taken, Count;
    NoncesEqualIff(h, cs, es, m, n);
    NoncesGrow(cs, n + 1, |es|);
    assert NonceCount(cs, n + 1) == NonceCount(cs, n) + 1;
    NotMultiple(NonceCount(cs, n) - NonceCount(cs, m));
  }

  lemma NotMultiple(x: nat)
    requires 0 < x < COUNTER_SIZE
    ensures x % COUNTER_SIZE != 0
  {
  }

  // ----- repeated requests -----

  /** The key sends (another) key request. */
  predicate RequestStep(h: Hashes, c: Conn, e: Env)
    requires Inv(c) && EnvShape(c, e)
  {
    var p := Seen(h, c, e);
    p.Some? && p.value.Packet? && p.value.typ == KEYREQ && |p.value.data| > 0
  }

  lemma OneRequest(h: Hashes, c: Conn, e: Env, limit: nat)
    requires Inv(c) && EnvShape(c, e) && RequestStep(h, c, e)
    requires (c.state == SESSION_SENT && limit == MAX_PACKETS_BEFORE_RESET)
      || (c.state == KEYED_BAD && limit == MAX_REKEYS_BEFORE_RESET)
    ensures e.memory || c.state == KEYED_BAD ==> Run(h, c, e) == CountRequest(Framed(c, e), limit)
    ensures !e.memory && c.state == SESSION_SENT ==> Run(h, c, e) == Reset(Framed(c, e))
  {
    hide Run, Framed, Seen, CountRequest, Reset, HandlerFor;
    RunIsOnPacket(h, c, e);
    RequestsAreCounted();
  }

  /** Without that memory the first request already resets. */
  lemma RequestWithoutMemory(h: Hashes, c: Conn, e: Env)
    requires Inv(c) && EnvShape(c, e) && RequestStep(h, c, e) && c.state == SESSION_SENT && !e.memory
    ensures IsReset(c, Run(h, c, e)) && Run(h, c, e).state == INIT && Run(h, c, e).keyreqs == c.keyreqs
  {
    hide Run, Seen, Count, MacKey, FramerStep;
    OneRequest(h, c, e, MAX_PACKETS_BEFORE_RESET);
    SameMacKey(c, Framed(c, e));
  }

  lemma RequestsAreCounted()
    ensures HandlerFor(SESSION_SENT, KEYREQ) == KeyReqCountHandler
    ensures HandlerFor(KEYED_BAD, KEYREQ) == BadKeyCountHandler
  {
  }

  /** The two states in which key requests are counted, and their limits. */
  predicate Counting(s: State) {
    s == SESSION_SENT || s == KEYED_BAD
  }

  function Limit(s: State): nat {
    if s == SESSION_SENT then MAX_PACKETS_BEFORE_RESET else MAX_REKEYS_BEFORE_RESET
  }

  /** Without leaving such a state a step changes only the counter, by one for a request, and where the bytes are. */
  lemma StaysCounting(h: Hashes, c: Conn, e: Env)
    requires Inv(c) && EnvShape(c, e) && Counting(c.state) && Run(h, c, e).state == c.state
    ensures var d := Run(h, c, e);
      d == c.(pending := d.pending, keyreqs := c.keyreqs + if RequestStep(h, c, e) then 1 else 0)
  {
    hide Run, Framed, FramerStep, Taken, Seen, OnPacket;
    RunIsOnPacket(h, c, e);
    var p := Seen(h, c, e);
    if p.Some? && p.value.Packet? && |p.value.data| > 0 {
      PacketStaysCounting(h, Framed(c, e), p.value, e);
    }
  }

  lemma PacketStaysCounting(h: Hashes, c: Conn, p: Packet, e: Env)
    requires PacketArgs(c, p, e) && Counting(c.state) && OnPacket(h, c, p, e).state == c.state
    ensures OnPacket(h, c, p, e) == c.(keyreqs := c.keyreqs + if p.typ == KEYREQ then 1 else 0)
  {
    hide HandlerFor, Decrypted, NonceCommand, Le32, Decode12, DataBuffer, MacKey, SessionKey;
    HandlerShape(c.state, p.typ);
    RequestsAreCounted();
  }

  /** The key requests among the steps from `m` to `n`. */
  ghost function Requests(h: Hashes, cs: seq<Conn>, es: seq<Env>, m: nat, n: nat): (k: nat)
    requires Trace(h, cs, es) && m <= n <= |es|
    ensures k <= n - m
    decreases n - m
  {
    if m == n then 0
    else Requests(h, cs, es, m, n - 1) + (if RequestStep(h, cs[n - 1], es[n - 1]) then 1 else 0)
  }

  ghost predicate StaysIn(cs: seq<Conn>, m: nat, n: nat)
    requires m <= n < |cs|
  {
    forall i :: m <= i <= n ==> cs[i].state == cs[m].state
  }

  /**
    * While a key is awaited, and after a rejected key, the counter tells how many requests have come, whatever else
    * arrives between them and however they are cut into reads. Nothing else changes, and the limit is never exceeded.
    */
  lemma {:induction false} RequestsCounted(h: Hashes, cs: seq<Conn>, es: seq<Env>, m: nat, n: nat)
    requires Trace(h, cs, es) && m <= n < |cs| && Counting(cs[m].state) && StaysIn(cs, m, n)
    ensures cs[n] == cs[m].(pending := cs[n].pending, keyreqs := cs[m].keyreqs + Requests(h, cs, es, m, n))
    ensures cs[n].keyreqs <= Limit(cs[m].state)
    decreases n - m
  {
    hide Run, EnvShape, RequestStep;
    if m < n {
      hide Inv;
      RequestsCounted(h, cs, es, m, n - 1);
      assert cs[n - 1 + 1] == Run(h, cs[n - 1], es[n - 1]) && cs[n - 1].state == cs[m].state == cs[n].state;
      StaysCounting(h, cs[n - 1], es[n - 1]);
    }
    LimitHolds(cs[n]);
  }

  lemma LimitHolds(c: Conn)
    requires Inv(c) && Counting(c.state)
    ensures c.keyreqs <= Limit(c.state)
  {
  }

  /** Counting starts from zero. */
  lemma CountingStarts(h: Hashes, c: Conn, e: Env)
    requires Inv(c) && EnvShape(c, e) && Counting(Run(h, c, e).state) && Run(h, c, e).state != c.state
    ensures Run(h, c, e).keyreqs == 0
  {
    hide Run, IsReset, SnumStep, KeyStep, EnvShape, Inv, Seen, Taken;
    StepState(h, c, e);
    StepCauses(h, c, e);
  }

  /**
    * A request resets the connection if and only if the limit has been reached before it, or there is no memory for the
    * log message about it while a key is awaited. Counted from the step into the state, it is the sixth request then,
    * and the fifty-first after a rejected key.
    */
  lemma RepeatedRequests(h: Hashes, cs: seq<Conn>, es: seq<Env>, m: nat, n: nat)
    requires Trace(h, cs, es) && m <= n < |es| && Counting(cs[m].state) && StaysIn(cs, m, n)
    requires RequestStep(h, cs[n], es[n])
    ensures m > 0 && cs[m - 1].state != cs[m].state ==> cs[m].keyreqs == 0
    ensures cs[m].keyreqs + Requests(h, cs, es, m, n) <= Limit(cs[m].state)
    ensures
      if cs[m].keyreqs + Requests(h, cs, es, m, n) == Limit(cs[m].state)
        || (cs[m].state == SESSION_SENT && !es[n].memory)
      then IsReset(cs[n], cs[n + 1]) && cs[n + 1].state == INIT
      else cs[n + 1].state == cs[m].state && cs[n + 1].sent == cs[m].sent
  {
    hide Run, EnvShape, RequestStep, Requests, Inv, IsReset;
    if m > 0 && cs[m - 1].state != cs[m].state {
      CountingStarts(h, cs[m - 1], es[m - 1]);
    }
    RequestsCounted(h, cs, es, m, n);
    OneMoreRequest(h, cs[n], es[n]);
  }

  lemma OneMoreRequest(h: Hashes, c: Conn, e: Env)
    requires Inv(c) && EnvShape(c, e) && RequestStep(h, c, e) && Counting(c.state)
    ensures if c.keyreqs == Limit(c.state) || (c.state == SESSION_SENT && !e.memory)
      then IsReset(c, Run(h, c, e)) && Run(h, c, e).state == INIT
      else Run(h, c, e).state == c.state && Run(h, c, e).sent == c.sent
  {
    hide Run, Seen, MacKey, FramerStep, RequestStep, EnvShape;
    OneRequest(h, c, e, Limit(c.state));
    SameMacKey(c, Framed(c, e));
  }
}
