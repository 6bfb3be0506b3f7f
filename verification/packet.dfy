// The packet layer (host/packet.c): type, MAC check and decoding of one frame.

module Packets {
  import opened Bytes
  import opened Pem
  import opened Hashing
  import opened Framer
  import opened DeviceFrames

  /** `PrepareSkein` reads this many bytes of a serial number. */
  const SERIAL_LEN: nat := 12

  datatype PktType = NONE | KEYREJECTED | SNUM | INFO | WARN | ENTROPY | KEYREQ | KEY | LTREKEYMAC | LTREKEY

  /** `get_pkt_type`. */
  function TypeOf(b: byte): PktType {
    if b == 83 then SNUM        // 'S'
    else if b == 73 then INFO   // 'I'
    else if b == 87 then WARN   // 'W'
    else if b == 69 then ENTROPY // 'E'
    else if b == 107 then KEYREQ // 'k'
    else if b == 75 then KEY    // 'K'
    else if b == 77 then LTREKEYMAC // 'M'
    else if b == 76 then LTREKEY // 'L'
    else NONE
  }

  /** Every type but NONE has one letter: S, I, W, E, k, K, M and L. */
  lemma Letters(b: byte, c: byte)
    ensures TypeOf(b) == TypeOf(c) && TypeOf(b) != NONE ==> b == c
    ensures TypeOf(83) == SNUM && TypeOf(73) == INFO && TypeOf(87) == WARN && TypeOf(69) == ENTROPY
    ensures TypeOf(107) == KEYREQ && TypeOf(75) == KEY && TypeOf(77) == LTREKEYMAC && TypeOf(76) == LTREKEY
  {
  }

  /** The MAC field can be decoded: the decoder's table has 128 entries. */
  predicate MacField(f: seq<byte>) {
    |f| == FRAME_LEN && SevenBit(f[54..62])
  }

  /** The sub-code and the data can be decoded. Text is copied as it is, whatever its bytes. */
  predicate PayloadField(f: seq<byte>) {
    |f| == FRAME_LEN && (f[3] == BINARY ==> SevenBit(f[4..54]))
  }

  predicate KnownClass(f: seq<byte>)
    requires |f| == FRAME_LEN
  {
    f[3] == TEXT || f[3] == BINARY
  }

  /** Every field of the frame that is decoded at all, with this MAC state, is 7-bit. */
  predicate Decodable(skMac: Option<Keyed>, f: seq<byte>) {
    && |f| == FRAME_LEN
    && (TypeOf(f[2]) != NONE && KnownClass(f) ==> PayloadField(f) && (skMac.Some? ==> MacField(f)))
  }

  /** The MAC field of a frame, decoded over whatever the six-byte buffer held before. */
  function ReceivedMac(f: seq<byte>, stale: seq<byte>): seq<byte>
    requires MacField(f) && |stale| == 6
  {
    DecodeLength(f[54..62]);
    Splice(stale, 0, Decode(f[54..62]))
  }

  predicate MacOk(h: Hashes, k: Keyed, f: seq<byte>, stale: seq<byte>)
    requires MacField(f) && |stale| == 6
  {
    ReceivedMac(f, stale) == Short(h.mac(k, f[2..54]))
  }

  /** Text payload length: trailing spaces are padding. */
  function TrimmedLength(f: seq<byte>, n: nat): (len: nat)
    requires |f| == FRAME_LEN && n <= PAYLOAD_LEN
    ensures len <= n && (len > 0 ==> f[len + 3] != SPACE)
    ensures forall j :: len + 4 <= j < n + 4 ==> f[j] == SPACE
  {
    if n == 0 || f[n + 3] != SPACE then n else TrimmedLength(f, n - 1)
  }

  lemma DataField(f: seq<byte>)
    requires PayloadField(f) && f[3] == BINARY
    ensures SevenBit(f[6..54]) && SevenBit(f[4..6])
  {
    assert f[6..54] == f[4..54][2..] && f[4..6] == f[4..54][..2];
  }

  function PacketData(f: seq<byte>): (d: seq<byte>)
    requires PayloadField(f)
    ensures |d| <= PAYLOAD_LEN
  {
    if f[3] == BINARY then
      DataField(f);
      DecodeLength(f[6..54]);
      Decode(f[6..54])
    else f[4..4 + TrimmedLength(f, PAYLOAD_LEN)]
  }

  function PacketSubcode(f: seq<byte>): (s: seq<byte>)
    requires PayloadField(f)
    ensures |s| == 2 && SevenBit(s)
  {
    if f[3] == BINARY then DataField(f); f[4..6] else [0, 0]
  }

  datatype Packet = Packet(typ: PktType, subcode: seq<byte>, data: seq<byte>) | Malformed(errno: Errno)

  /** `epkt_read` on a delivered frame: what the session layer is told. */
  function ReadPacket(h: Hashes, skMac: Option<Keyed>, f: seq<byte>, stale: seq<byte>): (p: Packet)
    requires Decodable(skMac, f) && |stale| == 6
    ensures p.Packet? ==> |p.subcode| == 2 && SevenBit(p.subcode) && |p.data| <= PAYLOAD_LEN
    ensures p.Malformed? ==> p.errno != EWOULDBLOCK
  {
    var typ := TypeOf(f[2]);
    if typ == NONE then Malformed(EPROTO)
    else if f[3] != TEXT && f[3] != BINARY then Malformed(EINVAL)
    else if skMac.None? && typ == SNUM then Packet(SNUM, PacketSubcode(f), PacketData(f))
    else if skMac.Some? && MacOk(h, skMac.value, f, stale) then Packet(typ, PacketSubcode(f), PacketData(f))
    else Packet(KEYREJECTED, PacketSubcode(f), PacketData(f))
  }

  // ----- printing and parsing are inverse -----

  lemma TagDecodes(h: Hashes, k: Keyed, content: seq<byte>)
    ensures SevenBit(Tag(h, k, content)) && Decode(Tag(h, k, content)) == Short(h.mac(k, content))
  {
    var d := h.mac(k, content);
    RoundTripConcat(d[..3], d[29..]);
  }

  /** Of MAC fields of dictionary characters just one decodes to the first and last three bytes of a digest. */
  lemma OnlyTagDecodes(h: Hashes, k: Keyed, content: seq<byte>, t: seq<byte>)
    requires |t| == 8 && AllDictionary(t)
    ensures SevenBit(t) && |Decode(t)| == 6
    ensures var d := h.mac(k, content);
      Decode(t)[..3] == d[..3] && Decode(t)[3..] == d[29..] <==> t == Tag(h, k, content)
  {
    hide Decode, Encode, IsDictionaryChar, AllGood;
    var d := h.mac(k, content);
    Reencode(t);
    TagDecodes(h, k, content);
    var x, u, v := Decode(t), t[..4], t[4..];
    Reencode(u);
    Reencode(v);
    DictionaryGood(u);
    DecodeConcat(u, v);
    assert t == u + v;
    assert x[..3] == Decode(u) && x[3..] == Decode(v);
    if t == Tag(h, k, content) {
      assert x == d[..3] + d[29..];
    }
  }

  lemma DictionaryGood(t: seq<byte>)
    requires AllDictionary(t) && |t| % 4 == 0
    ensures AllGood(t)
  {
    hide Inverse;
    forall i | 0 <= i < |t|
      ensures IsPemChar(t[i])
    {
      assert IsDictionaryChar(t[i]);
    }
  }

  /** A frame filled in under a key is accepted under that key, whatever the receive buffer held. */
  lemma FilledFrameAccepted(h: Hashes, k: Keyed, ft1: byte, ft2: byte, p: seq<byte>, stale: seq<byte>)
    requires |stale| == 6
    ensures MacField(FrameOf(h, k, ft1, ft2, p))
    ensures MacOk(h, k, FrameOf(h, k, ft1, ft2, p), stale)
  {
    hide Tag, Content, Decode;
    var f, c := FrameOf(h, k, ft1, ft2, p), Content(ft1, ft2, p);
    assert f[2..54] == c && f[54..62] == Tag(h, k, c);
    TagDecodes(h, k, c);
    assert Splice(stale, 0, Short(h.mac(k, c))) == Short(h.mac(k, c));
  }

  /** A filled frame is a frame, and all of it that is decoded is 7-bit if a binary payload is. */
  lemma FilledFrameShape(h: Hashes, k: Keyed, ft1: byte, ft2: byte, p: seq<byte>)
    requires ft2 == BINARY ==> SevenBit(Payload(p, PAYLOAD_LEN))
    ensures var f := FrameOf(h, k, ft1, ft2, p); MacField(f) && PayloadField(f) && IsFrame(f)
  {
    hide Tag, Payload;
    TagDecodes(h, k, Content(ft1, ft2, p));
    var f, c := FrameOf(h, k, ft1, ft2, p), Content(ft1, ft2, p);
    assert f[54..62] == Tag(h, k, c);
    assert f[4..54] == c[2..];
  }

  /** A sub-code and up to 36 bytes of data, as the device lays them out. */
  function BinaryPayload(subcode: bv16, data: seq<byte>): seq<byte> {
    Encode12(subcode) + Encode(data)
  }

  lemma PemCharsAreText(t: seq<byte>)
    requires AllGood(t)
    ensures SevenBit(t) && forall i :: 0 <= i < |t| ==> t[i] != 0 && t[i] != SPACE && t[i] != SOF0 && t[i] != EOF0
  {
    hide IsPemChar;
    forall i | 0 <= i < |t| ensures t[i] < 128 && t[i] != 0 && t[i] != SPACE && t[i] != SOF0 && t[i] != EOF0 {
      PemCharIsText(t[i]);
    }
  }

  lemma PemCharIsText(c: byte)
    requires IsPemChar(c)
    ensures c < 128 && c != 0 && c != SPACE && c != SOF0 && c != EOF0
  {
  }

  lemma WholePayload(p: seq<byte>)
    requires |p| <= PAYLOAD_LEN && forall i :: 0 <= i < |p| ==> p[i] != 0
    ensures Payload(p, PAYLOAD_LEN) == p
  {
    PayloadIs(p, PAYLOAD_LEN, |p|);
    assert p[..|p|] == p;
  }

  lemma BinaryPayloadText(subcode: bv16, data: seq<byte>)
    requires |data| <= 36
    ensures var p := BinaryPayload(subcode, data);
      && |p| <= PAYLOAD_LEN && SevenBit(p) && Payload(p, PAYLOAD_LEN) == p
      && forall i :: 0 <= i < |p| ==> p[i] != 0 && p[i] != SPACE && p[i] != SOF0 && p[i] != EOF0
  {
    hide Encode12, Encode, AllGood, IsDictionaryChar;
    var p := BinaryPayload(subcode, data);
    EncodeShape(data);
    PemCharsAreText(Encode(data));
    SubcodeText(subcode);
    WholePayload(p);
  }

  lemma SubcodeText(subcode: bv16)
    ensures var t := Encode12(subcode);
      forall i :: 0 <= i < 2 ==> t[i] < 128 && t[i] != 0 && t[i] != SPACE && t[i] != SOF0 && t[i] != EOF0
  {
    hide Encode12, Inverse;
    var t := Encode12(subcode);
    PemCharIsText(t[0]);
    PemCharIsText(t[1]);
  }

  /** Space padding decodes to nothing. */
  lemma PaddedDataDecodes(data: seq<byte>, pad: nat)
    requires |Encode(data)| + pad <= 48
    ensures SevenBit(Encode(data) + Fill(pad, SPACE)) && Decode(Encode(data) + Fill(pad, SPACE)) == data
  {
    hide Encode, Decode, AllGood;
    EncodeShape(data);
    RoundTrip(data);
    var rest := Fill(pad, SPACE);
    SpacesStop(rest);
    DecodeStopsAtBadQuad(Encode(data), rest);
  }

  lemma SpacesStop(rest: seq<byte>)
    requires forall i :: 0 <= i < |rest| ==> rest[i] == SPACE
    ensures SevenBit(rest) && (|rest| < 4 || !GoodQuad(rest[..4]))
  {
    if |rest| >= 4 {
      assert rest[..4][0] == SPACE;
    }
  }

  /** Binary frames: for every type, sub-code and payload of up to 36 bytes, filling a frame and reading it
      back under the same key returns the same sub-code (its low twelve bits) and the same data. */
  lemma BinaryFrameRoundTrip(h: Hashes, k: Keyed, ft1: byte, subcode: bv16, data: seq<byte>, stale: seq<byte>)
    requires TypeOf(ft1) != NONE && |data| <= 36 && |stale| == 6
    ensures var f := FrameOf(h, k, ft1, BINARY, BinaryPayload(subcode, data));
      && MacField(f) && PayloadField(f) && IsFrame(f) && f[2] == ft1 && f[3] == BINARY
      && ReadPacket(h, Some(k), f, stale) == Packet(TypeOf(ft1), Encode12(subcode), data)
      && Decode12(Encode12(subcode)) == subcode & 0xfff
  {
    hide Encode, Decode, Encode12, Decode12, Tag, Payload, TypeOf, MacOk;
    var p := BinaryPayload(subcode, data);
    BinaryPayloadText(subcode, data);
    FilledFrameShape(h, k, ft1, BINARY, p);
    FilledFrameAccepted(h, k, ft1, BINARY, p, stale);
    RoundTrip12(subcode);
    var f := FrameOf(h, k, ft1, BINARY, p);
    assert f[2] == ft1 && f[3] == BINARY;
    var pad := PAYLOAD_LEN - |p|;
    assert f[4..54] == p + Fill(pad, SPACE);
    assert f[4..6] == f[4..54][..2] == Encode12(subcode);
    assert f[6..54] == f[4..54][2..] == Encode(data) + Fill(pad, SPACE);
    PaddedDataDecodes(data, pad);
  }

  function TrimRight(t: seq<byte>): seq<byte> {
    if t == [] || t[|t| - 1] != SPACE then t else TrimRight(t[..|t| - 1])
  }

  lemma {:induction false} TrimmedText(f: seq<byte>, t: seq<byte>, n: nat)
    requires |f| == FRAME_LEN && |t| <= n <= PAYLOAD_LEN
    requires f[4..4 + |t|] == t && forall j :: |t| + 4 <= j < n + 4 ==> f[j] == SPACE
    ensures f[4..4 + TrimmedLength(f, n)] == TrimRight(t)
    decreases n
  {
    if n > |t| {
      assert f[n + 3] == SPACE;
      TrimmedText(f, t, n - 1);
    } else if n > 0 {
      assert t[n - 1] == f[n + 3];
      if f[n + 3] == SPACE {
        assert f[4..4 + (n - 1)] == t[..n - 1];
        TrimmedText(f, t[..n - 1], n - 1);
      }
    }
  }

  /** Text frames: what comes back is the text without its trailing spaces, so text that does not end in a
      space, and only such text, survives unchanged. */
  lemma TextFrameRoundTrip(h: Hashes, k: Keyed, ft1: byte, text: seq<byte>, stale: seq<byte>)
    requires TypeOf(ft1) != NONE && |stale| == 6
    requires |text| <= PAYLOAD_LEN && forall i :: 0 <= i < |text| ==> text[i] != 0
    ensures var f := FrameOf(h, k, ft1, TEXT, text);
      && MacField(f) && PayloadField(f) && IsFrame(f) && f[2] == ft1 && f[3] == TEXT
      && ReadPacket(h, Some(k), f, stale) == Packet(TypeOf(ft1), [0, 0], TrimRight(text))
    ensures TrimRight(text) == text <==> text == [] || text[|text| - 1] != SPACE
  {
    hide Tag, Payload, TypeOf, MacOk, TrimmedLength, FrameOf, ReadPacket, IsFrame, MacField, PayloadField;
    WholePayload(text);
    FilledFrameShape(h, k, ft1, TEXT, text);
    FilledFrameAccepted(h, k, ft1, TEXT, text, stale);
    TextLayout(h, k, ft1, text);
    TrimmedText(FrameOf(h, k, ft1, TEXT, text), text, PAYLOAD_LEN);
    TextPacket(h, k, FrameOf(h, k, ft1, TEXT, text), stale);
    TrimShortens(text);
  }

  lemma TextPacket(h: Hashes, k: Keyed, f: seq<byte>, stale: seq<byte>)
    requires MacField(f) && |stale| == 6 && MacOk(h, k, f, stale) && f[3] == TEXT && TypeOf(f[2]) != NONE
    ensures PayloadField(f)
    ensures ReadPacket(h, Some(k), f, stale) == Packet(TypeOf(f[2]), [0, 0], f[4..4 + TrimmedLength(f, PAYLOAD_LEN)])
  {
    hide MacOk, TypeOf, TrimmedLength;
  }

  lemma TextLayout(h: Hashes, k: Keyed, ft1: byte, text: seq<byte>)
    requires |text| <= PAYLOAD_LEN && Payload(text, PAYLOAD_LEN) == text
    ensures var f := FrameOf(h, k, ft1, TEXT, text);
      && f[2] == ft1 && f[3] == TEXT && f[4..4 + |text|] == text
      && forall j :: |text| + 4 <= j < 54 ==> f[j] == SPACE
  {
    hide FrameOf, Payload;
    FrameFields(h, k, ft1, TEXT, text);
    var f := FrameOf(h, k, ft1, TEXT, text);
    assert f[4..4 + |text|] == text;
  }

  lemma FrameFields(h: Hashes, k: Keyed, ft1: byte, ft2: byte, p: seq<byte>)
    ensures var f, t := FrameOf(h, k, ft1, ft2, p), Payload(p, PAYLOAD_LEN);
      && f[2] == ft1 && f[3] == ft2
      && forall j :: 4 <= j < 54 ==> f[j] == if j - 4 < |t| then t[j - 4] else SPACE
  {
    hide Tag, Payload;
  }

  lemma {:induction false} TrimShortens(t: seq<byte>)
    ensures |TrimRight(t)| <= |t|
  {
    if t != [] && t[|t| - 1] == SPACE {
      TrimShortens(t[..|t| - 1]);
    }
  }

  // ----- the packet object -----

  datatype PacketRead = Length(n: nat) | Error(errno: Errno)

  const DATA_LEN: nat := 128

  lemma MacBytes(stale: seq<byte>, m: seq<byte>, d: Digest)
    requires |stale| == 6 && |m| <= 6
    ensures Splice(stale, 0, m) == m + stale[|m|..] && Short(d) == d[..3] + d[29..]
    ensures |m| == 6 && m == d[..3] + d[29..] ==> m[..3] == d[..3] && m[3..] == d[29..]
    ensures |m| == 6 && m[..3] == d[..3] && m[3..] == d[29..] ==> m == d[..3] + d[29..]
    ensures |m| == 6 ==> m + stale[|m|..] == m
  {
  }

  class PacketReader {
    const h: Hashes
    const framer: FrameReader
    var pktType: PktType
    var subcode: seq<byte>
    var dataLen: nat
    var skMac: Option<Keyed>
    var pktError: nat
    var pktOk: nat

    constructor (h: Hashes)
      ensures this.h == h && fresh(framer) && fresh(framer.frame)
      ensures Valid() && framer.used == 0 && framer.consumed == [] && skMac == None
    {
      this.h := h;
      framer := new FrameReader();
      pktType, subcode, dataLen, skMac, pktError, pktOk := NONE, [0, 0], 0, None, 0, 0;
    }

    ghost predicate Valid()
      reads this, framer, framer.frame
    {
      framer.Valid() && framer.used < FRAME_LEN && |subcode| == 2 && SevenBit(subcode)
    }

    /** `epkt_setsessionkey`: nothing happens while the serial number is unknown. */
    method SetSessionKey(snum: Option<seq<byte>>, secret: seq<byte>)
      requires snum.Some? ==> |snum.value| >= SERIAL_LEN
      modifies this`skMac
      ensures skMac == if snum.None? then old(skMac) else Some(Keyed(snum.value[..SERIAL_LEN], secret))
    {
      if snum.None? {
        return;
      }
      skMac := Some(Keyed(snum.value[..SERIAL_LEN], secret));
    }

    /** `verify_mac`. The received MAC is decoded over an uninitialised buffer, whose old content is `stale`. */
    method VerifyMac() returns (ok: bool, ghost stale: seq<byte>)
      requires framer.frame.Length == FRAME_LEN && (skMac.Some? ==> MacField(framer.frame[..]))
      ensures |stale| == 6
      ensures ok == (skMac.Some? && MacOk(h, skMac.value, framer.frame[..], stale))
      ensures skMac.Some? ==>
        var d, m := h.mac(skMac.value, framer.frame[2..54]), Decode(framer.frame[54..62]);
        |m| <= 6 && (ok <==> m + stale[|m|..] == d[..3] + d[29..])
      ensures skMac.Some? && AllDictionary(framer.frame[54..62]) ==>
        (ok <==> framer.frame[54..62] == Tag(h, skMac.value, framer.frame[2..54]))
    {
      hide Splice, Decode, AllDictionary;
      var pktMac := new byte[6];
      stale := pktMac[..];
      if skMac.None? {
        return false, stale;
      }
      var frame := framer.frame;
      assert frame[54..54 + 8] == frame[..][54..62];
      DecodeLength(frame[54..54 + 8]);
      var n := DecodeBytes(frame, 54, 8, pktMac);
      var macbuf := h.mac(skMac.value, frame[2..54]);
      assert frame[2..54] == frame[..][2..54];
      ok := macbuf[..3] == pktMac[..3] && macbuf[29..] == pktMac[3..];
      assert pktMac[..] == pktMac[..3] + pktMac[3..];
      assert ok <==> pktMac[..] == Short(macbuf);
      ghost var m := Decode(frame[54..62]);
      MacBytes(stale, m, macbuf);
      if AllDictionary(frame[54..62]) {
        OnlyTagDecodes(h, skMac.value, frame[2..54], frame[54..62]);
      }
    }

    /** `verify_packet`, with the packet type already set from the frame. */
    method VerifyPacket() returns (r: Option<Errno>, ghost stale: seq<byte>)
      requires framer.frame.Length == FRAME_LEN
      requires skMac.Some? && KnownClass(framer.frame[..]) ==> MacField(framer.frame[..])
      modifies this`pktType, this`pktError, this`pktOk
      ensures |stale| == 6
      ensures framer.frame[3] != TEXT && framer.frame[3] != BINARY ==> r == Some(EINVAL) && pktType == old(pktType)
      ensures framer.frame[3] == TEXT || framer.frame[3] == BINARY ==>
        && r == None
        && pktType == if skMac.None? && old(pktType) == SNUM then SNUM
                      else if skMac.Some? && MacOk(h, skMac.value, framer.frame[..], stale) then old(pktType)
                      else KEYREJECTED
    {
      hide MacOk;
      stale := Fill(6, 0);
      if framer.frame[3] != TEXT && framer.frame[3] != BINARY {
        pktError := Count(pktError + 1);
        return Some(EINVAL), stale;
      }
      if skMac.None? && pktType == SNUM {
        pktOk := Count(pktOk + 1);
        return None, stale;
      }
      var ok;
      ok, stale := VerifyMac();
      if !ok {
        pktError := Count(pktError + 1);
        pktType := KEYREJECTED;
      } else {
        pktOk := Count(pktOk + 1);
      }
      r := None;
    }

    /** `decode_packet`. */
    method DecodePacket(buf: array<byte>) returns (len: nat)
      requires framer.frame.Length == FRAME_LEN && PayloadField(framer.frame[..])
      requires buf != framer.frame && buf.Length >= DATA_LEN
      modifies this`subcode, this`dataLen, buf
      ensures len <= PAYLOAD_LEN && buf[..len] == PacketData(framer.frame[..])
      ensures subcode == PacketSubcode(framer.frame[..])
    {
      hide Decode, TrimmedLength, PacketData, PacketSubcode;
      if framer.frame[3] == BINARY {
        len := DecodeBinary(buf);
      } else {
        len := DecodeText(buf);
      }
    }

    method DecodeBinary(buf: array<byte>) returns (len: nat)
      requires framer.frame.Length == FRAME_LEN && PayloadField(framer.frame[..]) && framer.frame[3] == BINARY
      requires buf != framer.frame && buf.Length >= DATA_LEN
      modifies this`subcode, buf
      ensures len <= PAYLOAD_LEN && buf[..len] == PacketData(framer.frame[..])
      ensures subcode == PacketSubcode(framer.frame[..])
    {
      hide Decode, TrimmedLength, Inverse;
      var frame := framer.frame;
      ghost var f := frame[..];
      assert frame[6..6 + 48] == f[6..54];
      DataField(f);
      DecodeLength(frame[6..6 + 48]);
      len := DecodeBytes(frame, 6, 48, buf);
      assert buf[..len] == Decode(frame[6..6 + 48]);
      subcode := [frame[4], frame[5]];
    }

    method DecodeText(buf: array<byte>) returns (len: nat)
      requires framer.frame.Length == FRAME_LEN && framer.frame[3] != BINARY
      requires buf != framer.frame && buf.Length >= DATA_LEN
      modifies this`subcode, this`dataLen, buf
      ensures len <= PAYLOAD_LEN && buf[..len] == PacketData(framer.frame[..])
      ensures subcode == PacketSubcode(framer.frame[..])
    {
      hide Decode, TrimmedLength, Inverse;
      var frame := framer.frame;
      ghost var f := frame[..];
      len := PAYLOAD_LEN;
      while len > 0 && frame[len + 3] == SPACE
        invariant 0 <= len <= PAYLOAD_LEN && frame[..] == f
        invariant TrimmedLength(f, PAYLOAD_LEN) == TrimmedLength(f, len)
      {
        TrimStep(f, len);
        len := len - 1;
      }
      TrimStop(f, len);
      forall i | 0 <= i < len {
        buf[i] := frame[4 + i];
      }
      buf[len] := 0;
      dataLen := len;
      subcode := [0, 0];
      assert frame[..] == f && buf[..len] == f[4..4 + len];
    }

    /** The result, the packet's type and sub-code and the data buffer tell the session layer `p`. */
    ghost predicate Reports(p: Packet, r: PacketRead, buf: seq<byte>)
      reads this`pktType, this`subcode
    {
      match p
      case Malformed(e) => r == Error(e)
      case Packet(typ, sub, data) => r == Length(|data|) && data <= buf && pktType == typ && subcode == sub
    }

    /** `epkt_read`. A successful read of length zero is indistinguishable from the end of the stream. */
    method Read(input: StreamRead, buf: array<byte>) returns (r: PacketRead, ghost stale: seq<byte>)
      requires Valid() && buf != framer.frame && buf.Length >= DATA_LEN
      requires input.Data? ==> 1 <= |input.bytes| <= FRAME_LEN - framer.used
      requires input.Data? ==> var f := FramerStep(framer.Pending(), input.bytes).frame;
        f.Some? ==> Decodable(skMac, f.value)
      modifies this, framer, framer.frame, buf
      ensures Valid() && skMac == old(skMac) && |stale| == 6
      ensures framer.consumed == old(framer.consumed) + if input.Data? then input.bytes else []
      ensures !input.Data? ==>
        && framer.Pending() == old(framer.Pending())
        && r == (if input.Closed? then Length(0) else Error(input.error))
      ensures input.Data? ==> var s := FramerStep(old(framer.Pending()), input.bytes);
        && framer.Pending() == s.pending
        && (s.frame.None? ==> r == Error(EWOULDBLOCK))
        && (s.frame.Some? ==> Reports(ReadPacket(h, skMac, s.frame.value, stale), r, buf[..]))
    {
      hide PacketData, PacketSubcode, MacOk, TypeOf, IsFrame, Continues, Framer.Frames, FramerStep;
      ghost var pending := framer.Pending();
      stale := Fill(6, 0);
      var fr := framer.Read(input);
      if fr != Ready {
        return (if fr.EndOfStream? then Length(0) else Error(fr.errno)), stale;
      }
      framer.Clear();
      pktType := TypeOf(framer.frame[2]);
      if pktType == NONE {
        return Error(EPROTO), stale;
      }
      var err;
      err, stale := VerifyPacket();
      if err.Some? {
        return Error(err.value), stale;
      }
      var len := DecodePacket(buf);
      r := Length(len);
    }
  }

  lemma TrimStep(f: seq<byte>, n: nat)
    requires |f| == FRAME_LEN && 0 < n <= PAYLOAD_LEN && f[n + 3] == SPACE
    ensures TrimmedLength(f, n) == TrimmedLength(f, n - 1)
  {
  }

  lemma TrimStop(f: seq<byte>, n: nat)
    requires |f| == FRAME_LEN && n <= PAYLOAD_LEN && (n == 0 || f[n + 3] != SPACE)
    ensures TrimmedLength(f, n) == n
  {
  }
}
