// The example of doc/README.protocol itself, with the hash of the repository (device/skeinwrap.c): what the device with
// the serial number NwBvBlg3OTBJORFD announces under the default key is, character by character, the documented line.

module DocumentedFrame {
  import opened Bytes
  import opened Pem
  import opened Hashing
  import opened Threefish
  import opened Chaining
  import opened Skein
  import opened KnownAnswers
  import opened DocumentedHash
  import opened Framer
  import opened DeviceFrames
  import opened Packets
  import opened Protocol

  /** The MAC of `content`: `PrepareSkein` with the personalisation of MACs, then `Skein_256_Final_Pad`. */
  function PacketMac(k: Keyed, content: seq<byte>): Digest {
    StoreBlock(Ubi(PreparedValue(k.serial, k.secret, PMS), content, TYPE_MSG))
  }

  const SERIAL: seq<byte> := [55, 0, 111, 6, 88, 55, 57, 48, 73, 57, 17, 67]
  const ZEROS: seq<byte> := Fill(32, 0)
  const HEAD: seq<byte> := [83, 33, 65, 65, 78, 119, 66, 118, 66, 108, 103, 51, 79, 84, 66, 74, 79, 82, 70, 68]
  const CONTENT: seq<byte> := HEAD + Fill(32, SPACE)

  lemma KeyFirstWords()
    ensures StoreWord(0x30393758066f0037) == [55, 0, 111, 6, 88, 55, 57, 48]
    ensures StoreWord(0x43113949) == [73, 57, 17, 67, 0, 0, 0, 0]
    ensures StoreWord(0) == [0, 0, 0, 0, 0, 0, 0, 0]
    ensures StoreWord(0) == [0, 0, 0, 0, 0, 0, 0, 0]
  {
  }

  lemma KeyFirstLoaded()
    ensures LoadBlock(SERIAL + Fill(20, 0))
      == Block(0x30393758066f0037, 0x43113949, 0, 0)
  {
    hide StoreWord, LoadWord;
    KeyFirstWords();
    var x := Block(0x30393758066f0037, 0x43113949, 0, 0);
    LoadStore(x);
    assert SERIAL + Fill(20, 0) == StoreBlock(x);
  }

  lemma KeyLastWords()
    ensures StoreWord(0) == [0, 0, 0, 0, 0, 0, 0, 0]
    ensures StoreWord(0) == [0, 0, 0, 0, 0, 0, 0, 0]
    ensures StoreWord(0) == [0, 0, 0, 0, 0, 0, 0, 0]
    ensures StoreWord(0) == [0, 0, 0, 0, 0, 0, 0, 0]
  {
  }

  lemma KeyLastLoaded()
    ensures LoadBlock(ZEROS)
      == Block(0, 0, 0, 0)
  {
    hide StoreWord, LoadWord;
    KeyLastWords();
    var x := Block(0, 0, 0, 0);
    LoadStore(x);
    assert ZEROS == StoreBlock(x);
  }

  lemma PersFirstWords()
    ensures StoreWord(0x3930363039303032) == [50, 48, 48, 57, 48, 54, 48, 57]
    ensures StoreWord(0x74726f7070757320) == [32, 115, 117, 112, 112, 111, 114, 116]
    ensures StoreWord(0x2e6365746d697340) == [64, 115, 105, 109, 116, 101, 99, 46]
    ensures StoreWord(0x6e45206b752e6f63) == [99, 111, 46, 117, 107, 32, 69, 110]
  {
  }

  lemma PersFirstLoaded()
    ensures LoadBlock(COMMON_1 + COMMON_2)
      == Block(0x3930363039303032, 0x74726f7070757320, 0x2e6365746d697340, 0x6e45206b752e6f63)
  {
    hide StoreWord, LoadWord;
    PersFirstWords();
    var x := Block(0x3930363039303032, 0x74726f7070757320, 0x2e6365746d697340, 0x6e45206b752e6f63);
    LoadStore(x);
    assert COMMON_1 + COMMON_2 == StoreBlock(x);
  }

  lemma PersSecondWords()
    ensures StoreWord(0x79654b79706f7274) == [116, 114, 111, 112, 121, 75, 101, 121]
    ensures StoreWord(0x7373654d2f31762f) == [47, 118, 49, 47, 77, 101, 115, 115]
    ensures StoreWord(0x6568747541656761) == [97, 103, 101, 65, 117, 116, 104, 101]
    ensures StoreWord(0x6f6974616369746e) == [110, 116, 105, 99, 97, 116, 105, 111]
  {
  }

  lemma PersSecondLoaded()
    ensures LoadBlock(COMMON_3 + COMMON_4)
      == Block(0x79654b79706f7274, 0x7373654d2f31762f, 0x6568747541656761, 0x6f6974616369746e)
  {
    hide StoreWord, LoadWord;
    PersSecondWords();
    var x := Block(0x79654b79706f7274, 0x7373654d2f31762f, 0x6568747541656761, 0x6f6974616369746e);
    LoadStore(x);
    assert COMMON_3 + COMMON_4 == StoreBlock(x);
  }

  lemma ContentFirstWords()
    ensures StoreWord(0x7642774e41412153) == [83, 33, 65, 65, 78, 119, 66, 118]
    ensures StoreWord(0x4a42544f33676c42) == [66, 108, 103, 51, 79, 84, 66, 74]
    ensures StoreWord(0x202020204446524f) == [79, 82, 70, 68, 32, 32, 32, 32]
    ensures StoreWord(0x2020202020202020) == [32, 32, 32, 32, 32, 32, 32, 32]
  {
  }

  lemma ContentFirstLoaded()
    ensures LoadBlock(HEAD + Fill(12, SPACE))
      == Block(0x7642774e41412153, 0x4a42544f33676c42, 0x202020204446524f, 0x2020202020202020)
  {
    hide StoreWord, LoadWord;
    ContentFirstWords();
    var x := Block(0x7642774e41412153, 0x4a42544f33676c42, 0x202020204446524f, 0x2020202020202020);
    LoadStore(x);
    assert HEAD + Fill(12, SPACE) == StoreBlock(x);
  }

  lemma ContentLastWords()
    ensures StoreWord(0x2020202020202020) == [32, 32, 32, 32, 32, 32, 32, 32]
    ensures StoreWord(0x2020202020202020) == [32, 32, 32, 32, 32, 32, 32, 32]
    ensures StoreWord(0x20202020) == [32, 32, 32, 32, 0, 0, 0, 0]
    ensures StoreWord(0) == [0, 0, 0, 0, 0, 0, 0, 0]
  {
  }

  lemma ContentLastLoaded()
    ensures LoadBlock(Fill(20, SPACE) + Fill(12, 0))
      == Block(0x2020202020202020, 0x2020202020202020, 0x20202020, 0)
  {
    hide StoreWord, LoadWord;
    ContentLastWords();
    var x := Block(0x2020202020202020, 0x2020202020202020, 0x20202020, 0);
    LoadStore(x);
    assert Fill(20, SPACE) + Fill(12, 0) == StoreBlock(x);
  }

  // ----- the seven steps -----

  lemma Counts()
    ensures Word(32) == 32 && Word(44) == 44 && Word(52) == 52 && Word(64) == 64
  {
    hide Word;
    Numerals();
    WordSum(16, 16);
    WordSum(32, 12);
    WordSum(32, 16);
    WordSum(48, 4);
    WordSum(32, 32);
  }

  lemma FlagWords()
    ensures Or(TYPE_KEY, T1_FIRST) == 0x4000000000000000 && Or(TYPE_KEY, T1_FINAL) == 0x8000000000000000
    ensures Or(Or(TYPE_CFG, T1_FIRST), T1_FINAL) == 0xc400000000000000
    ensures Or(TYPE_PERS, T1_FIRST) == 0x4800000000000000 && TYPE_PERS == 0x800000000000000
    ensures Or(TYPE_MSG, T1_FIRST) == 0x7000000000000000 && Or(TYPE_MSG, T1_FINAL) == 0xb000000000000000
  {
  }

  /** A message of two blocks. */
  lemma TwoBlocks(g: Block, m: seq<byte>, typ: word)
    requires 32 < |m| <= 64
    ensures Ubi(g, m, typ)
      == Compress(
        Compress(g, Word(32), Or(typ, T1_FIRST), LoadBlock(m[..32])),
        Word(|m|), Or(typ, T1_FINAL), LoadBlock(m[32..] + Fill(64 - |m|, 0)))
  {
    hide Compress, LoadBlock, Word, Or;
    UbiStep(g, m, typ, 0);
    UbiStep(g, m, typ, 1);
    assert MessageBlock(m, 0) == m[..32] && MessageBlock(m, 1) == m[32..] + Fill(64 - |m|, 0);
  }

  /** The first two blocks of a message of three. */
  lemma TwoOfThree(g: Block, m: seq<byte>, a: seq<byte>, b: seq<byte>, c: seq<byte>, typ: word)
    requires |a| == |b| == |c| == 32 && m == a + b + c && BlockCount(|m|) == 3
    ensures UbiBlocks(g, m, typ, 2)
      == Compress(Compress(g, Word(32), Or(typ, T1_FIRST), LoadBlock(a)), Word(64), typ, LoadBlock(b))
  {
    hide Compress, LoadBlock, Word, Or;
    UbiStep(g, m, typ, 0);
    UbiStep(g, m, typ, 1);
    assert MessageBlock(m, 0) == a && MessageBlock(m, 1) == b;
  }

  lemma KeyStage()
    ensures Ubi(ZERO_BLOCK, SERIAL + ZEROS, TYPE_KEY)
      == Block(0x4b282ec02ce8941e, 0x9d31af290a90dff6, 0x632b43602b3dfdae, 0x61f5469200c8fd1c)
  {
    hide Compress, LoadBlock, Word, Or, StoreWord, LoadWord;
    var m := SERIAL + ZEROS;
    Counts();
    FlagWords();
    TwoBlocks(ZERO_BLOCK, m, TYPE_KEY);
    assert m[..32] == SERIAL + Fill(20, 0) && m[32..] + Fill(20, 0) == ZEROS;
    KeyFirstLoaded();
    KeyLastLoaded();
    KeyFirst();
    KeyLast();
  }

  lemma Initialised()
    ensures InitialValue(256, 0, SERIAL + ZEROS)
      == Block(0x91815f7488c14ca7, 0xbec6cfe93db15aaa, 0xad262b305e3e2f5, 0xb387d2bfe7fe4567)
  {
    hide Compress, LoadBlock, Word, Or, Config, Ubi;
    KeyStage();
    Counts();
    FlagWords();
    var g := Ubi(ZERO_BLOCK, SERIAL + ZEROS, TYPE_KEY);
    SingleBlock(g, Config(256, 0), TYPE_CFG);
    assert Config(256, 0) + Fill(0, 0) == Config(256, 0);
    ConfigBlock();
    Configured();
  }

  lemma Prepared()
    ensures PreparedValue(SERIAL, ZEROS, PMS)
      == Block(0x24057d9d9f29ffbb, 0xfdeaa0481619e420, 0x725c8485cb44a9e6, 0xa342d1954fcc521a)
  {
    hide Compress, LoadBlock, Word, Or, InitialValue, UbiBlocks;
    Initialised();
    Counts();
    FlagWords();
    var a, b, c := COMMON_1 + COMMON_2, COMMON_3 + COMMON_4, PMS_1 + PMS_2;
    assert PMS == a + b + c;
    TwoOfThree(InitialValue(256, 0, SERIAL + ZEROS), PMS, a, b, c, TYPE_PERS);
    PersFirstLoaded();
    PersSecondLoaded();
    PersFirst();
    PersSecond();
  }

  lemma Digested()
    ensures Ubi(PreparedValue(SERIAL, ZEROS, PMS), CONTENT, TYPE_MSG)
      == Block(0xef041272b9d25f02, 0xe58459e9f6c757d3, 0x1197da9b797dd1ea, 0x5b0d9b92b616d18b)
  {
    hide Compress, LoadBlock, Word, Or, PreparedValue, StoreWord;
    Prepared();
    Counts();
    FlagWords();
    TwoBlocks(PreparedValue(SERIAL, ZEROS, PMS), CONTENT, TYPE_MSG);
    assert CONTENT[..32] == HEAD + Fill(12, SPACE);
    assert CONTENT[32..] + Fill(12, 0) == Fill(20, SPACE) + Fill(12, 0);
    ContentFirstLoaded();
    ContentLastLoaded();
    ContentFirst();
    ContentLast();
  }

  // ----- the frame -----

  lemma Ends()
    ensures StoreWord(0xef041272b9d25f02) == [2, 95, 210, 185, 114, 18, 4, 239]
    ensures StoreWord(0x5b0d9b92b616d18b) == [139, 209, 22, 182, 146, 155, 13, 91]
  {
  }

  lemma TagIs(h: Hashes)
    requires forall k, c :: h.mac(k, c) == PacketMac(k, c)
    ensures Tag(h, Keyed(SERIAL, ZEROS), CONTENT) == [65, 108, 47, 83, 109, 119, 49, 98]
  {
    hide Ubi, PreparedValue, StoreWord, EncodeGroup;
    Digested();
    Ends();
    var d := h.mac(Keyed(SERIAL, ZEROS), CONTENT);
    assert d[..3] == [2, 95, 210] && d[29..] == [155, 13, 91];
    TagGroups();
  }

  lemma TagGroups()
    ensures EncodeGroup([2, 95, 210]) == [65, 108, 47, 83] && EncodeGroup([155, 13, 91]) == [109, 119, 49, 98]
  {
  }

  lemma PayloadIsHead()
    ensures BinaryPayload(0, SERIAL) == HEAD[2..]
  {
    hide EncodeGroup, Dictionary;
    SerialGroups();
    assert SERIAL[..3] == [55, 0, 111] && SERIAL[3..][..3] == [6, 88, 55];
    assert SERIAL[3..][3..][..3] == [57, 48, 73] && SERIAL[3..][3..][3..] == [57, 17, 67];
    NoSubcode();
  }

  lemma SerialGroups()
    ensures EncodeGroup([55, 0, 111]) == [78, 119, 66, 118] && EncodeGroup([6, 88, 55]) == [66, 108, 103, 51]
    ensures EncodeGroup([57, 48, 73]) == [79, 84, 66, 74] && EncodeGroup([57, 17, 67]) == [79, 82, 70, 68]
  {
  }

  lemma NoSubcode()
    ensures Encode12(0) == [65, 65]
  {
  }

  /** "* S!AANwBvBlg3OTBJORFD", spaces, "Al/Smw1b", and the end of the frame. */
  const DOCUMENTED: seq<byte> :=
    [42, 32] + HEAD + Fill(32, SPACE) + [65, 108, 47, 83, 109, 119, 49, 98] + [13, 10]

  /**
    * With the hash of the repository, the announcement of this device under the default key is the documented frame:
    * doc/README.protocol:141 and the code agree on every step from the personalisation to the last character.
    */
  lemma DocumentedAnnouncement(h: Hashes)
    requires forall k, c :: h.mac(k, c) == PacketMac(k, c)
    ensures FrameOf(h, Keyed(SERIAL, DEFAULT_KEY), 83, BINARY, BinaryPayload(0, SERIAL)) == DOCUMENTED
  {
    hide Tag, BinaryPayload, Encode, PacketMac;
    assert DEFAULT_KEY == ZEROS;
    PayloadIsHead();
    BinaryPayloadText(0, SERIAL);
    TagIs(h);
    assert Content(83, BINARY, BinaryPayload(0, SERIAL)) == CONTENT;
  }

  /** So it is accepted, as the first frame or under the default key, and gives the serial number. */
  lemma DocumentedAccepted(h: Hashes, stale: seq<byte>)
    requires (forall k, c :: h.mac(k, c) == PacketMac(k, c)) && |stale| == 6
    ensures Decodable(Some(Keyed(SERIAL, DEFAULT_KEY)), DOCUMENTED) && Decodable(None, DOCUMENTED)
    ensures ReadPacket(h, None, DOCUMENTED, stale) == Packet(SNUM, Encode12(0), SERIAL)
    ensures ReadPacket(h, Some(Keyed(SERIAL, DEFAULT_KEY)), DOCUMENTED, stale) == Packet(SNUM, Encode12(0), SERIAL)
  {
    hide FrameOf, PacketMac, BinaryPayload, MacOk, PacketData, PacketSubcode, Decode;
    DocumentedAnnouncement(h);
    BinaryFrameRoundTrip(h, Keyed(SERIAL, DEFAULT_KEY), 83, 0, SERIAL, stale);
  }

  /** The code that makes such a MAC: `PrepareSkein`, the content, `Skein_256_Final_Pad`. */
  method ComputePacketMac(
    skein: Context, serial: array<byte>, secret: array<byte>, personalisation: array<byte>, content: array<byte>,
    mac: array<byte>)
    requires skein.Shape() && serial.Length >= 12 && secret.Length >= 32 && personalisation[..] == PMS
    requires personalisation != skein.b && secret != skein.b && serial != skein.b && content != skein.b
    requires mac.Length == 32 && mac != skein.b
    modifies skein, skein.X, skein.b, mac
    ensures mac[..] == PacketMac(Keyed(old(serial[..12]), old(secret[..32])), old(content[..]))
  {
    hide Ubi, PreparedValue, StoreBlock, Absorb, IsType, Or;
    ghost var k, all := Keyed(serial[..12], secret[..32]), content[..];
    PrepareSkein(skein, serial, secret, personalisation);
    skein.Update(content, 0, content.Length);
    assert skein.message == all;
    FlagConstants();
    skein.FinalPad(mac);
    assert mac[..] == StoreBlock(skein.State());
  }
}
