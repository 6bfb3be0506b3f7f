// The hash behind an example of doc/README.protocol, evaluated: the serial-number frame of the device NwBvBlg3OTBJORFD,
// whose MAC the document gives as Al/Smw1b. Its blocks are those of key, configuration, personalisation and frame.

module DocumentedHash {
  import opened Bytes
  import opened Threefish
  import opened Chaining
  import opened Skein
  import opened KnownAnswers

  // The seven blocks that go through the cipher.

  lemma KeyFirstCipher(ks: Schedule, p: Block)
    requires ks == Schedule(
      [0, 0, 0, 0, 0x5555555555555555],
      [0x20, 0x4000000000000000, 0x4000000000000020])
    requires p == Block(0x30393758066f0037, 0x43113949, 0, 0)
    ensures Injected(ks, p, 18) == Block(0xfc3441b3f5eaba4a, 0x8b8ef68bff7cb314, 0x9d761d7a99561fb9, 0x9c84a0eb1751b70c)
  {
    hide Injected, Word;
    Numerals();
    Begin(ks, p, Block(0x30393758066f0037, 0x43113969, 0x4000000000000000, 0));
    Octet(ks, p, 0, 0x30393758066f0037, 0x43113969, 0x4000000000000000, 0,
      0, 0, 0, 0x5555555555555555, 0,
      0x4000000000000000, 0x4000000000000020, 0x20, 1, 2,
      Block(0xc4925ef1ec060a7b, 0x73cec06bf7851d0e, 0x75f31617ed879a5d, 0xa124d387864c5d97));
    Octet(ks, p, 1, 0xc4925ef1ec060a7b, 0x73cec06bf7851d0e, 0x75f31617ed879a5d, 0xa124d387864c5d97,
      0, 0x5555555555555555, 0, 0, 0,
      0x20, 0x4000000000000000, 0x4000000000000020, 3, 4,
      Block(0x522f3cd5d246c0b2, 0x23825eaf760846b9, 0x505111d7b8ddd50e, 0xa5f842af03a84bb4));
    Octet(ks, p, 2, 0x522f3cd5d246c0b2, 0x23825eaf760846b9, 0x505111d7b8ddd50e, 0xa5f842af03a84bb4,
      0, 0, 0, 0, 0x5555555555555555,
      0x4000000000000020, 0x20, 0x4000000000000000, 5, 6,
      Block(0xdeda22bd665d9f32, 0xff20d8cfd209070a, 0x94bef7ff9b5f0fbf, 0x8d44049f98bb8f6f));
    Octet(ks, p, 3, 0xdeda22bd665d9f32, 0xff20d8cfd209070a, 0x94bef7ff9b5f0fbf, 0x8d44049f98bb8f6f,
      0, 0, 0x5555555555555555, 0, 0,
      0x4000000000000000, 0x4000000000000020, 0x20, 7, 8,
      Block(0xcc2eebabfdf8db43, 0x2080f252d4507547, 0x8312c6c6b056ad3, 0xc0abe7ca6a05617e));
    Octet(ks, p, 4, 0xcc2eebabfdf8db43, 0x2080f252d4507547, 0x8312c6c6b056ad3, 0xc0abe7ca6a05617e,
      0x5555555555555555, 0, 0, 0, 0,
      0x20, 0x4000000000000000, 0x4000000000000020, 9, 10,
      Block(0xcb7ff2a5c03b743c, 0xfa3871411abd279e, 0x17bb27babff0dbbc, 0x2d3b235afab590df));
    Octet(ks, p, 5, 0xcb7ff2a5c03b743c, 0xfa3871411abd279e, 0x17bb27babff0dbbc, 0x2d3b235afab590df,
      0, 0, 0, 0x5555555555555555, 0,
      0x4000000000000020, 0x20, 0x4000000000000000, 11, 12,
      Block(0x55ffa57eb02c6770, 0xf95abcb78b35b46d, 0xcfa88936c5d4fcf9, 0x6c510dd8869f6028));
    Octet(ks, p, 6, 0x55ffa57eb02c6770, 0xf95abcb78b35b46d, 0xcfa88936c5d4fcf9, 0x6c510dd8869f6028,
      0, 0x5555555555555555, 0, 0, 0,
      0x4000000000000000, 0x4000000000000020, 0x20, 13, 14,
      Block(0x5ae5a5eac79aa2a, 0x11d2bbb859f03c69, 0xf65d4e8b0b422c25, 0xd2a1633f619d61c2));
    Octet(ks, p, 7, 0x5ae5a5eac79aa2a, 0x11d2bbb859f03c69, 0xf65d4e8b0b422c25, 0xd2a1633f619d61c2,
      0, 0, 0, 0, 0x5555555555555555,
      0x20, 0x4000000000000000, 0x4000000000000020, 15, 16,
      Block(0x4222a6d82d371241, 0x66086824a4eb65f6, 0xb043ce579e79ac62, 0xfa52b5c973325c81));
    Octet(ks, p, 8, 0x4222a6d82d371241, 0x66086824a4eb65f6, 0xb043ce579e79ac62, 0xfa52b5c973325c81,
      0, 0, 0x5555555555555555, 0, 0,
      0x4000000000000020, 0x20, 0x4000000000000000, 17, 18,
      Block(0xfc3441b3f5eaba4a, 0x8b8ef68bff7cb314, 0x9d761d7a99561fb9, 0x9c84a0eb1751b70c));
  }

  /** Compressing the serial number and the first zeros of the secret. */
  lemma KeyFirst()
    ensures Compress(
      Block(0, 0, 0, 0),
      0x20, 0x4000000000000000, Block(0x30393758066f0037, 0x43113949, 0, 0))
      == Block(0xcc0d76ebf385ba7d, 0x8b8ef68bbc6d8a5d, 0x9d761d7a99561fb9, 0x9c84a0eb1751b70c)
  {
    hide Injected, Encrypt, KeySchedule, XorBlock;
    var g, w := Block(0, 0, 0, 0),
      Block(0x30393758066f0037, 0x43113949, 0, 0);
    var ks := Schedule(
      [0, 0, 0, 0, 0x5555555555555555],
      [0x20, 0x4000000000000000, 0x4000000000000020]);
    KeyFirstParity();
    Scheduled(g, 0x20, 0x4000000000000000, ks);
    KeyFirstCipher(ks, w);
    KeyFirstForward();
    CodedCipherIsReference(ks, w);
  }

  lemma KeyFirstParity()
    ensures Parity(0, 0, 0, 0)
      == 0x5555555555555555
    ensures Xor(0x20, 0x4000000000000000) == 0x4000000000000020
  {
  }

  lemma KeyFirstForward()
    ensures XorBlock(Block(0xfc3441b3f5eaba4a, 0x8b8ef68bff7cb314, 0x9d761d7a99561fb9, 0x9c84a0eb1751b70c),
                     Block(0x30393758066f0037, 0x43113949, 0, 0))
      == Block(0xcc0d76ebf385ba7d, 0x8b8ef68bbc6d8a5d, 0x9d761d7a99561fb9, 0x9c84a0eb1751b70c)
  {
  }

  lemma KeyLastCipher(ks: Schedule, p: Block)
    requires ks == Schedule(
      [0xcc0d76ebf385ba7d, 0x8b8ef68bbc6d8a5d, 0x9d761d7a99561fb9, 0x9c84a0eb1751b70c, 0x132468a494bacdc0],
      [0x2c, 0x8000000000000000, 0x800000000000002c])
    requires p == Block(0, 0, 0, 0)
    ensures Injected(ks, p, 18) == Block(0x4b282ec02ce8941e, 0x9d31af290a90dff6, 0x632b43602b3dfdae, 0x61f5469200c8fd1c)
  {
    hide Injected, Word;
    Numerals();
    Begin(ks, p, Block(0xcc0d76ebf385ba7d, 0x8b8ef68bbc6d8a89, 0x1d761d7a99561fb9, 0x9c84a0eb1751b70c));
    Octet(ks, p, 0, 0xcc0d76ebf385ba7d, 0x8b8ef68bbc6d8a89, 0x1d761d7a99561fb9, 0x9c84a0eb1751b70c,
      0x8b8ef68bbc6d8a5d, 0x9d761d7a99561fb9, 0x9c84a0eb1751b70c, 0x132468a494bacdc0, 0xcc0d76ebf385ba7d,
      0x8000000000000000, 0x800000000000002c, 0x2c, 1, 2,
      Block(0x8ec75195f4597980, 0xbe8658a002fc281b, 0x7830491358787d1a, 0x1bfe82baa721ad75));
    Octet(ks, p, 1, 0x8ec75195f4597980, 0xbe8658a002fc281b, 0x7830491358787d1a, 0x1bfe82baa721ad75,
      0x9c84a0eb1751b70c, 0x132468a494bacdc0, 0xcc0d76ebf385ba7d, 0x8b8ef68bbc6d8a5d, 0x9d761d7a99561fb9,
      0x2c, 0x8000000000000000, 0x800000000000002c, 3, 4,
      Block(0xc893b87b0b39b062, 0x2fe3bbc544dfb149, 0x4f3a4a4638561634, 0x2adfcade97585f44));
    Octet(ks, p, 2, 0xc893b87b0b39b062, 0x2fe3bbc544dfb149, 0x4f3a4a4638561634, 0x2adfcade97585f44,
      0xcc0d76ebf385ba7d, 0x8b8ef68bbc6d8a5d, 0x9d761d7a99561fb9, 0x9c84a0eb1751b70c, 0x132468a494bacdc0,
      0x800000000000002c, 0x2c, 0x8000000000000000, 5, 6,
      Block(0x5e54ec58305691ee, 0x41c5a26bb76f215, 0xc6afdbef2fd6ecaf, 0xb82b424b58d4dc6b));
    Octet(ks, p, 3, 0x5e54ec58305691ee, 0x41c5a26bb76f215, 0xc6afdbef2fd6ecaf, 0xb82b424b58d4dc6b,
      0x9d761d7a99561fb9, 0x9c84a0eb1751b70c, 0x132468a494bacdc0, 0xcc0d76ebf385ba7d, 0x8b8ef68bbc6d8a5d,
      0x8000000000000000, 0x800000000000002c, 0x2c, 7, 8,
      Block(0xa316f2cf95554590, 0x61d7110ee8336fe5, 0x7ec8b05edb244ba2, 0x5c27349979441963));
    Octet(ks, p, 4, 0xa316f2cf95554590, 0x61d7110ee8336fe5, 0x7ec8b05edb244ba2, 0x5c27349979441963,
      0x132468a494bacdc0, 0xcc0d76ebf385ba7d, 0x8b8ef68bbc6d8a5d, 0x9d761d7a99561fb9, 0x9c84a0eb1751b70c,
      0x2c, 0x8000000000000000, 0x800000000000002c, 9, 10,
      Block(0xae3eb40d44378c3b, 0x553de942c7830710, 0xb38a2b48bb63392e, 0x71cf5f3c376324c8));
    Octet(ks, p, 5, 0xae3eb40d44378c3b, 0x553de942c7830710, 0xb38a2b48bb63392e, 0x71cf5f3c376324c8,
      0x8b8ef68bbc6d8a5d, 0x9d761d7a99561fb9, 0x9c84a0eb1751b70c, 0x132468a494bacdc0, 0xcc0d76ebf385ba7d,
      0x800000000000002c, 0x2c, 0x8000000000000000, 11, 12,
      Block(0x5b2bdeef9f662394, 0x6ddeffdff909ffd9, 0xb246a5b2159ca753, 0x443262b97c271908));
    Octet(ks, p, 6, 0x5b2bdeef9f662394, 0x6ddeffdff909ffd9, 0xb246a5b2159ca753, 0x443262b97c271908,
      0x9c84a0eb1751b70c, 0x132468a494bacdc0, 0xcc0d76ebf385ba7d, 0x8b8ef68bbc6d8a5d, 0x9d761d7a99561fb9,
      0x8000000000000000, 0x800000000000002c, 0x2c, 13, 14,
      Block(0xff5b26f50861e6da, 0xf7a437d5e99b758c, 0x448f4c56b6b4fdd1, 0x5475e502e1e6210e));
    Octet(ks, p, 7, 0xff5b26f50861e6da, 0xf7a437d5e99b758c, 0x448f4c56b6b4fdd1, 0x5475e502e1e6210e,
      0xcc0d76ebf385ba7d, 0x8b8ef68bbc6d8a5d, 0x9d761d7a99561fb9, 0x9c84a0eb1751b70c, 0x132468a494bacdc0,
      0x2c, 0x8000000000000000, 0x800000000000002c, 15, 16,
      Block(0xae61293bcaf9ca46, 0x40b88fbad4ed127, 0x7a48191a459fcac4, 0xc4738c8a14b22e5c));
    Octet(ks, p, 8, 0xae61293bcaf9ca46, 0x40b88fbad4ed127, 0x7a48191a459fcac4, 0xc4738c8a14b22e5c,
      0x9d761d7a99561fb9, 0x9c84a0eb1751b70c, 0x132468a494bacdc0, 0xcc0d76ebf385ba7d, 0x8b8ef68bbc6d8a5d,
      0x800000000000002c, 0x2c, 0x8000000000000000, 17, 18,
      Block(0x4b282ec02ce8941e, 0x9d31af290a90dff6, 0x632b43602b3dfdae, 0x61f5469200c8fd1c));
  }

  /** Compressing the other zeros. */
  lemma KeyLast()
    ensures Compress(
      Block(0xcc0d76ebf385ba7d, 0x8b8ef68bbc6d8a5d, 0x9d761d7a99561fb9, 0x9c84a0eb1751b70c),
      0x2c, 0x8000000000000000, Block(0, 0, 0, 0))
      == Block(0x4b282ec02ce8941e, 0x9d31af290a90dff6, 0x632b43602b3dfdae, 0x61f5469200c8fd1c)
  {
    hide Injected, Encrypt, KeySchedule, XorBlock;
    var g, w := Block(0xcc0d76ebf385ba7d, 0x8b8ef68bbc6d8a5d, 0x9d761d7a99561fb9, 0x9c84a0eb1751b70c),
      Block(0, 0, 0, 0);
    var ks := Schedule(
      [0xcc0d76ebf385ba7d, 0x8b8ef68bbc6d8a5d, 0x9d761d7a99561fb9, 0x9c84a0eb1751b70c, 0x132468a494bacdc0],
      [0x2c, 0x8000000000000000, 0x800000000000002c]);
    KeyLastParity();
    Scheduled(g, 0x2c, 0x8000000000000000, ks);
    KeyLastCipher(ks, w);
    KeyLastForward();
    CodedCipherIsReference(ks, w);
  }

  lemma KeyLastParity()
    ensures Parity(0xcc0d76ebf385ba7d, 0x8b8ef68bbc6d8a5d, 0x9d761d7a99561fb9, 0x9c84a0eb1751b70c)
      == 0x132468a494bacdc0
    ensures Xor(0x2c, 0x8000000000000000) == 0x800000000000002c
  {
  }

  lemma KeyLastForward()
    ensures XorBlock(Block(0x4b282ec02ce8941e, 0x9d31af290a90dff6, 0x632b43602b3dfdae, 0x61f5469200c8fd1c),
                     Block(0, 0, 0, 0))
      == Block(0x4b282ec02ce8941e, 0x9d31af290a90dff6, 0x632b43602b3dfdae, 0x61f5469200c8fd1c)
  {
  }

  lemma ConfiguredCipher(ks: Schedule, p: Block)
    requires ks == Schedule(
      [0x4b282ec02ce8941e, 0x9d31af290a90dff6, 0x632b43602b3dfdae, 0x61f5469200c8fd1c, 0x8192d14e58d81e0f],
      [0x20, 0xc400000000000000, 0xc400000000000020])
    requires p == Block(0x133414853, 0x100, 0, 0)
    ensures Injected(ks, p, 18) == Block(0x91815f75bb8004f4, 0xbec6cfe93db15baa, 0xad262b305e3e2f5, 0xb387d2bfe7fe4567)
  {
    hide Injected, Word;
    Numerals();
    Begin(ks, p, Block(0x4b282ec16029dc71, 0x9d31af290a90e116, 0x272b43602b3dfdae, 0x61f5469200c8fd1c));
    Octet(ks, p, 0, 0x4b282ec16029dc71, 0x9d31af290a90e116, 0x272b43602b3dfdae, 0x61f5469200c8fd1c,
      0x9d31af290a90dff6, 0x632b43602b3dfdae, 0x61f5469200c8fd1c, 0x8192d14e58d81e0f, 0x4b282ec02ce8941e,
      0xc400000000000000, 0xc400000000000020, 0x20, 1, 2,
      Block(0x10eb86a45fd5c1eb, 0xc4f90033a0ce49d5, 0x7e8673b9bedc9257, 0x16fa10abc1b37afa));
    Octet(ks, p, 1, 0x10eb86a45fd5c1eb, 0xc4f90033a0ce49d5, 0x7e8673b9bedc9257, 0x16fa10abc1b37afa,
      0x61f5469200c8fd1c, 0x8192d14e58d81e0f, 0x4b282ec02ce8941e, 0x9d31af290a90dff6, 0x632b43602b3dfdae,
      0x20, 0xc400000000000000, 0xc400000000000020, 3, 4,
      Block(0xbb0a5fa866076b92, 0xe959e360face4ef0, 0x1f355f9ad102554d, 0x6fc1bd0ce85d52e0));
    Octet(ks, p, 2, 0xbb0a5fa866076b92, 0xe959e360face4ef0, 0x1f355f9ad102554d, 0x6fc1bd0ce85d52e0,
      0x4b282ec02ce8941e, 0x9d31af290a90dff6, 0x632b43602b3dfdae, 0x61f5469200c8fd1c, 0x8192d14e58d81e0f,
      0xc400000000000020, 0x20, 0xc400000000000000, 5, 6,
      Block(0x75b2d43fe375409b, 0x8a8911fc8b9ab1ed, 0xfa7fb2274597c315, 0x7e29592e97fc30a1));
    Octet(ks, p, 3, 0x75b2d43fe375409b, 0x8a8911fc8b9ab1ed, 0xfa7fb2274597c315, 0x7e29592e97fc30a1,
      0x632b43602b3dfdae, 0x61f5469200c8fd1c, 0x8192d14e58d81e0f, 0x4b282ec02ce8941e, 0x9d31af290a90dff6,
      0xc400000000000000, 0xc400000000000020, 0x20, 7, 8,
      Block(0xf85828fce1efb388, 0x2934ac1ee5686b6f, 0x6bb895bcccf8776e, 0x77e1b64fce5c9a65));
    Octet(ks, p, 4, 0xf85828fce1efb388, 0x2934ac1ee5686b6f, 0x6bb895bcccf8776e, 0x77e1b64fce5c9a65,
      0x8192d14e58d81e0f, 0x4b282ec02ce8941e, 0x9d31af290a90dff6, 0x632b43602b3dfdae, 0x61f5469200c8fd1c,
      0x20, 0xc400000000000000, 0xc400000000000020, 9, 10,
      Block(0x941b5f03d4bdf1d, 0xcaa3cff4878009ab, 0xc0ac1e2dbf5431ca, 0xedb5aafb3da21276));
    Octet(ks, p, 5, 0x941b5f03d4bdf1d, 0xcaa3cff4878009ab, 0xc0ac1e2dbf5431ca, 0xedb5aafb3da21276,
      0x9d31af290a90dff6, 0x632b43602b3dfdae, 0x61f5469200c8fd1c, 0x8192d14e58d81e0f, 0x4b282ec02ce8941e,
      0xc400000000000020, 0x20, 0xc400000000000000, 11, 12,
      Block(0x2f1b8c91d0103685, 0x3f0634f2198f828b, 0xbfc4741e20b5f445, 0xc049952983178596));
    Octet(ks, p, 6, 0x2f1b8c91d0103685, 0x3f0634f2198f828b, 0xbfc4741e20b5f445, 0xc049952983178596,
      0x61f5469200c8fd1c, 0x8192d14e58d81e0f, 0x4b282ec02ce8941e, 0x9d31af290a90dff6, 0x632b43602b3dfdae,
      0xc400000000000000, 0xc400000000000020, 0x20, 13, 14,
      Block(0x3a0cbbafe43174f3, 0x43f23330eab883fc, 0xa9bf43f4b82528ae, 0x956efa482e517f4b));
    Octet(ks, p, 7, 0x3a0cbbafe43174f3, 0x43f23330eab883fc, 0xa9bf43f4b82528ae, 0x956efa482e517f4b,
      0x4b282ec02ce8941e, 0x9d31af290a90dff6, 0x632b43602b3dfdae, 0x61f5469200c8fd1c, 0x8192d14e58d81e0f,
      0x20, 0xc400000000000000, 0xc400000000000020, 15, 16,
      Block(0xf9287f3301fde02b, 0x7502f29579b4959, 0xdfd4212f932a390d, 0x3c7a847514273b28));
    Octet(ks, p, 8, 0xf9287f3301fde02b, 0x7502f29579b4959, 0xdfd4212f932a390d, 0x3c7a847514273b28,
      0x632b43602b3dfdae, 0x61f5469200c8fd1c, 0x8192d14e58d81e0f, 0x4b282ec02ce8941e, 0x9d31af290a90dff6,
      0xc400000000000020, 0x20, 0xc400000000000000, 17, 18,
      Block(0x91815f75bb8004f4, 0xbec6cfe93db15baa, 0xad262b305e3e2f5, 0xb387d2bfe7fe4567));
  }

  /** Compressing the configuration. */
  lemma Configured()
    ensures Compress(
      Block(0x4b282ec02ce8941e, 0x9d31af290a90dff6, 0x632b43602b3dfdae, 0x61f5469200c8fd1c),
      0x20, 0xc400000000000000, Block(0x133414853, 0x100, 0, 0))
      == Block(0x91815f7488c14ca7, 0xbec6cfe93db15aaa, 0xad262b305e3e2f5, 0xb387d2bfe7fe4567)
  {
    hide Injected, Encrypt, KeySchedule, XorBlock;
    var g, w := Block(0x4b282ec02ce8941e, 0x9d31af290a90dff6, 0x632b43602b3dfdae, 0x61f5469200c8fd1c),
      Block(0x133414853, 0x100, 0, 0);
    var ks := Schedule(
      [0x4b282ec02ce8941e, 0x9d31af290a90dff6, 0x632b43602b3dfdae, 0x61f5469200c8fd1c, 0x8192d14e58d81e0f],
      [0x20, 0xc400000000000000, 0xc400000000000020]);
    ConfiguredParity();
    Scheduled(g, 0x20, 0xc400000000000000, ks);
    ConfiguredCipher(ks, w);
    ConfiguredForward();
    CodedCipherIsReference(ks, w);
  }

  lemma ConfiguredParity()
    ensures Parity(0x4b282ec02ce8941e, 0x9d31af290a90dff6, 0x632b43602b3dfdae, 0x61f5469200c8fd1c)
      == 0x8192d14e58d81e0f
    ensures Xor(0x20, 0xc400000000000000) == 0xc400000000000020
  {
  }

  lemma ConfiguredForward()
    ensures XorBlock(Block(0x91815f75bb8004f4, 0xbec6cfe93db15baa, 0xad262b305e3e2f5, 0xb387d2bfe7fe4567),
                     Block(0x133414853, 0x100, 0, 0))
      == Block(0x91815f7488c14ca7, 0xbec6cfe93db15aaa, 0xad262b305e3e2f5, 0xb387d2bfe7fe4567)
  {
  }

  lemma PersFirstCipher(ks: Schedule, p: Block)
    requires ks == Schedule(
      [0x91815f7488c14ca7, 0xbec6cfe93db15aaa, 0xad262b305e3e2f5, 0xb387d2bfe7fe4567, 0xc34775c40238e4ca],
      [0x20, 0x4800000000000000, 0x4800000000000020])
    requires p == Block(0x3930363039303032, 0x74726f7070757320, 0x2e6365746d697340, 0x6e45206b752e6f63)
    ensures Injected(ks, p, 18) == Block(0xa25912c654ab745a, 0x828c2bd4dacd399, 0x36c4f23ad290eb8f, 0xd82926699647b1f2)
  {
    hide Injected, Word;
    Numerals();
    Begin(ks, p, Block(0xcab195a4c1f17cd9, 0x33393f59ae26cdea, 0x8135c827734d5635, 0x21ccf32b5d2cb4ca));
    Octet(ks, p, 0, 0xcab195a4c1f17cd9, 0x33393f59ae26cdea, 0x8135c827734d5635, 0x21ccf32b5d2cb4ca,
      0xbec6cfe93db15aaa, 0xad262b305e3e2f5, 0xb387d2bfe7fe4567, 0xc34775c40238e4ca, 0x91815f7488c14ca7,
      0x4800000000000000, 0x4800000000000020, 0x20, 1, 2,
      Block(0x376c90057582e6e1, 0xf128d15280ac373b, 0xa5f89dfff3dfd5c7, 0x579dd8316081aed5));
    Octet(ks, p, 1, 0x376c90057582e6e1, 0xf128d15280ac373b, 0xa5f89dfff3dfd5c7, 0x579dd8316081aed5,
      0xb387d2bfe7fe4567, 0xc34775c40238e4ca, 0x91815f7488c14ca7, 0xbec6cfe93db15aaa, 0xad262b305e3e2f5,
      0x20, 0x4800000000000000, 0x4800000000000020, 3, 4,
      Block(0xa18576476d07a2b5, 0x59b00bf76de8a4f6, 0x76f177251b4ecade, 0x96bc740c77d13730));
    Octet(ks, p, 2, 0xa18576476d07a2b5, 0x59b00bf76de8a4f6, 0x76f177251b4ecade, 0x96bc740c77d13730,
      0x91815f7488c14ca7, 0xbec6cfe93db15aaa, 0xad262b305e3e2f5, 0xb387d2bfe7fe4567, 0xc34775c40238e4ca,
      0x4800000000000020, 0x20, 0x4800000000000000, 5, 6,
      Block(0x97377f4824caaa13, 0x6bb7a2c49811506d, 0x487bbfdbe66b7ee0, 0x6257e75e29a2ecfd));
    Octet(ks, p, 3, 0x97377f4824caaa13, 0x6bb7a2c49811506d, 0x487bbfdbe66b7ee0, 0x6257e75e29a2ecfd,
      0xad262b305e3e2f5, 0xb387d2bfe7fe4567, 0xc34775c40238e4ca, 0x91815f7488c14ca7, 0xbec6cfe93db15aaa,
      0x4800000000000000, 0x4800000000000020, 0x20, 7, 8,
      Block(0x501fe29263af49d5, 0x3e3606196acc0857, 0x8ad26e9ef2bf68eb, 0xc99e3a022efc84cd));
    Octet(ks, p, 4, 0x501fe29263af49d5, 0x3e3606196acc0857, 0x8ad26e9ef2bf68eb, 0xc99e3a022efc84cd,
      0xc34775c40238e4ca, 0x91815f7488c14ca7, 0xbec6cfe93db15aaa, 0xad262b305e3e2f5, 0xb387d2bfe7fe4567,
      0x20, 0x4800000000000000, 0x4800000000000020, 9, 10,
      Block(0xff622fc7c5913b59, 0x713ed933f68786d0, 0xae1650251558fc68, 0x5e3c12fc7fb1c6b1));
    Octet(ks, p, 5, 0xff622fc7c5913b59, 0x713ed933f68786d0, 0xae1650251558fc68, 0x5e3c12fc7fb1c6b1,
      0xbec6cfe93db15aaa, 0xad262b305e3e2f5, 0xb387d2bfe7fe4567, 0xc34775c40238e4ca, 0x91815f7488c14ca7,
      0x4800000000000020, 0x20, 0x4800000000000000, 11, 12,
      Block(0x604a35858e4def3c, 0x613701329dd777c2, 0xd5f7f76e4ad53f1c, 0x8512f5730e5d4d09));
    Octet(ks, p, 6, 0x604a35858e4def3c, 0x613701329dd777c2, 0xd5f7f76e4ad53f1c, 0x8512f5730e5d4d09,
      0xb387d2bfe7fe4567, 0xc34775c40238e4ca, 0x91815f7488c14ca7, 0xbec6cfe93db15aaa, 0xad262b305e3e2f5,
      0x4800000000000000, 0x4800000000000020, 0x20, 13, 14,
      Block(0xd1781f7a8546efd7, 0xaf94c71f10f93c9a, 0xce49771ca429a7f3, 0xb93fa0f9c21578e4));
    Octet(ks, p, 7, 0xd1781f7a8546efd7, 0xaf94c71f10f93c9a, 0xce49771ca429a7f3, 0xb93fa0f9c21578e4,
      0x91815f7488c14ca7, 0xbec6cfe93db15aaa, 0xad262b305e3e2f5, 0xb387d2bfe7fe4567, 0xc34775c40238e4ca,
      0x20, 0x4800000000000000, 0x4800000000000020, 15, 16,
      Block(0xde4c3f30a7ff9281, 0x4d4f1007a6e69c70, 0xdddd648ae9613643, 0xfd880f528c3a765));
    Octet(ks, p, 8, 0xde4c3f30a7ff9281, 0x4d4f1007a6e69c70, 0xdddd648ae9613643, 0xfd880f528c3a765,
      0xad262b305e3e2f5, 0xb387d2bfe7fe4567, 0xc34775c40238e4ca, 0x91815f7488c14ca7, 0xbec6cfe93db15aaa,
      0x4800000000000020, 0x20, 0x4800000000000000, 17, 18,
      Block(0xa25912c654ab745a, 0x828c2bd4dacd399, 0x36c4f23ad290eb8f, 0xd82926699647b1f2));
  }

  /** Compressing the first 32 characters of the personalisation. */
  lemma PersFirst()
    ensures Compress(
      Block(0x91815f7488c14ca7, 0xbec6cfe93db15aaa, 0xad262b305e3e2f5, 0xb387d2bfe7fe4567),
      0x20, 0x4800000000000000, Block(0x3930363039303032, 0x74726f7070757320, 0x2e6365746d697340, 0x6e45206b752e6f63))
      == Block(0x9b6924f66d9b4468, 0x7c5aadcd3dd9a0b9, 0x18a7974ebff998cf, 0xb66c0602e369de91)
  {
    hide Injected, Encrypt, KeySchedule, XorBlock;
    var g, w := Block(0x91815f7488c14ca7, 0xbec6cfe93db15aaa, 0xad262b305e3e2f5, 0xb387d2bfe7fe4567),
      Block(0x3930363039303032, 0x74726f7070757320, 0x2e6365746d697340, 0x6e45206b752e6f63);
    var ks := Schedule(
      [0x91815f7488c14ca7, 0xbec6cfe93db15aaa, 0xad262b305e3e2f5, 0xb387d2bfe7fe4567, 0xc34775c40238e4ca],
      [0x20, 0x4800000000000000, 0x4800000000000020]);
    PersFirstParity();
    Scheduled(g, 0x20, 0x4800000000000000, ks);
    PersFirstCipher(ks, w);
    PersFirstForward();
    CodedCipherIsReference(ks, w);
  }

  lemma PersFirstParity()
    ensures Parity(0x91815f7488c14ca7, 0xbec6cfe93db15aaa, 0xad262b305e3e2f5, 0xb387d2bfe7fe4567)
      == 0xc34775c40238e4ca
    ensures Xor(0x20, 0x4800000000000000) == 0x4800000000000020
  {
  }

  lemma PersFirstForward()
    ensures XorBlock(Block(0xa25912c654ab745a, 0x828c2bd4dacd399, 0x36c4f23ad290eb8f, 0xd82926699647b1f2),
                     Block(0x3930363039303032, 0x74726f7070757320, 0x2e6365746d697340, 0x6e45206b752e6f63))
      == Block(0x9b6924f66d9b4468, 0x7c5aadcd3dd9a0b9, 0x18a7974ebff998cf, 0xb66c0602e369de91)
  {
  }

  lemma PersSecondCipher(ks: Schedule, p: Block)
    requires ks == Schedule(
      [0x9b6924f66d9b4468, 0x7c5aadcd3dd9a0b9, 0x18a7974ebff998cf, 0xb66c0602e369de91, 0x1cad4d225987f7da],
      [0x40, 0x800000000000000, 0x800000000000040])
    requires p == Block(0x79654b79706f7274, 0x7373654d2f31762f, 0x6568747541656761, 0x6f6974616369746e)
    ensures Injected(ks, p, 18) == Block(0x5d6036e4ef468dcf, 0x8e99c5053928920f, 0x1734f0f08a21ce87, 0xcc2ba5f42ca52674)
  {
    hide Injected, Word;
    Numerals();
    Begin(ks, p, Block(0x14ce706fde0ab6dc, 0xefce131a6d0b1728, 0x86100bc4015f0030, 0x25d57a6446d352ff));
    Octet(ks, p, 0, 0x14ce706fde0ab6dc, 0xefce131a6d0b1728, 0x86100bc4015f0030, 0x25d57a6446d352ff,
      0x7c5aadcd3dd9a0b9, 0x18a7974ebff998cf, 0xb66c0602e369de91, 0x1cad4d225987f7da, 0x9b6924f66d9b4468,
      0x800000000000000, 0x800000000000040, 0x40, 1, 2,
      Block(0x8deca3bfc3660686, 0x824c9e9f39ec237a, 0x7ee9fea1eae251a2, 0x8d3c413d621f6641));
    Octet(ks, p, 1, 0x8deca3bfc3660686, 0x824c9e9f39ec237a, 0x7ee9fea1eae251a2, 0x8d3c413d621f6641,
      0xb66c0602e369de91, 0x1cad4d225987f7da, 0x9b6924f66d9b4468, 0x7c5aadcd3dd9a0b9, 0x18a7974ebff998cf,
      0x40, 0x800000000000000, 0x800000000000040, 3, 4,
      Block(0xf5b0f528bd9aecd5, 0xcd091c2bfa4933e1, 0x1cac172195601953, 0x41f7080eb124a9bf));
    Octet(ks, p, 2, 0xf5b0f528bd9aecd5, 0xcd091c2bfa4933e1, 0x1cac172195601953, 0x41f7080eb124a9bf,
      0x9b6924f66d9b4468, 0x7c5aadcd3dd9a0b9, 0x18a7974ebff998cf, 0xb66c0602e369de91, 0x1cad4d225987f7da,
      0x800000000000040, 0x40, 0x800000000000000, 5, 6,
      Block(0xd8aca34f878228dd, 0x8b35b1d01da997ff, 0x8984beeb062cab94, 0x447905f5c5e9dfec));
    Octet(ks, p, 3, 0xd8aca34f878228dd, 0x8b35b1d01da997ff, 0x8984beeb062cab94, 0x447905f5c5e9dfec,
      0x18a7974ebff998cf, 0xb66c0602e369de91, 0x1cad4d225987f7da, 0x9b6924f66d9b4468, 0x7c5aadcd3dd9a0b9,
      0x800000000000000, 0x800000000000040, 0x40, 7, 8,
      Block(0xe285b3c72c181fce, 0x1206bcbf2c5d41ce, 0x7b275f89846fbb22, 0x2111369a1a3a3400));
    Octet(ks, p, 4, 0xe285b3c72c181fce, 0x1206bcbf2c5d41ce, 0x7b275f89846fbb22, 0x2111369a1a3a3400,
      0x1cad4d225987f7da, 0x9b6924f66d9b4468, 0x7c5aadcd3dd9a0b9, 0x18a7974ebff998cf, 0xb66c0602e369de91,
      0x40, 0x800000000000000, 0x800000000000040, 9, 10,
      Block(0x6a0482b2633a413e, 0xb5e586d16d7bf9b1, 0xe84e37079da6ebe0, 0x5812e54b50ad93fd));
    Octet(ks, p, 5, 0x6a0482b2633a413e, 0xb5e586d16d7bf9b1, 0xe84e37079da6ebe0, 0x5812e54b50ad93fd,
      0x7c5aadcd3dd9a0b9, 0x18a7974ebff998cf, 0xb66c0602e369de91, 0x1cad4d225987f7da, 0x9b6924f66d9b4468,
      0x800000000000040, 0x40, 0x800000000000000, 11, 12,
      Block(0x5650fe73a92c51f9, 0xe05403c45042665f, 0x67a50022ca9d6629, 0x3ee1a5b3560531d9));
    Octet(ks, p, 6, 0x5650fe73a92c51f9, 0xe05403c45042665f, 0x67a50022ca9d6629, 0x3ee1a5b3560531d9,
      0xb66c0602e369de91, 0x1cad4d225987f7da, 0x9b6924f66d9b4468, 0x7c5aadcd3dd9a0b9, 0x18a7974ebff998cf,
      0x800000000000000, 0x800000000000040, 0x40, 13, 14,
      Block(0x809876da9aa50d2a, 0x3d616f68bdf5d20e, 0xd87719ce7da89b47, 0x996612ecdfd1e78c));
    Octet(ks, p, 7, 0x809876da9aa50d2a, 0x3d616f68bdf5d20e, 0xd87719ce7da89b47, 0x996612ecdfd1e78c,
      0x9b6924f66d9b4468, 0x7c5aadcd3dd9a0b9, 0x18a7974ebff998cf, 0xb66c0602e369de91, 0x1cad4d225987f7da,
      0x40, 0x800000000000000, 0x800000000000040, 15, 16,
      Block(0x63d98eabfadc3344, 0xa5839679daae1205, 0xa343708264453816, 0x3809c4a734a2a731));
    Octet(ks, p, 8, 0x63d98eabfadc3344, 0xa5839679daae1205, 0xa343708264453816, 0x3809c4a734a2a731,
      0x18a7974ebff998cf, 0xb66c0602e369de91, 0x1cad4d225987f7da, 0x9b6924f66d9b4468, 0x7c5aadcd3dd9a0b9,
      0x800000000000040, 0x40, 0x800000000000000, 17, 18,
      Block(0x5d6036e4ef468dcf, 0x8e99c5053928920f, 0x1734f0f08a21ce87, 0xcc2ba5f42ca52674));
  }

  /** Compressing the next 32. */
  lemma PersSecond()
    ensures Compress(
      Block(0x9b6924f66d9b4468, 0x7c5aadcd3dd9a0b9, 0x18a7974ebff998cf, 0xb66c0602e369de91),
      0x40, 0x800000000000000, Block(0x79654b79706f7274, 0x7373654d2f31762f, 0x6568747541656761, 0x6f6974616369746e))
      == Block(0x24057d9d9f29ffbb, 0xfdeaa0481619e420, 0x725c8485cb44a9e6, 0xa342d1954fcc521a)
  {
    hide Injected, Encrypt, KeySchedule, XorBlock;
    var g, w := Block(0x9b6924f66d9b4468, 0x7c5aadcd3dd9a0b9, 0x18a7974ebff998cf, 0xb66c0602e369de91),
      Block(0x79654b79706f7274, 0x7373654d2f31762f, 0x6568747541656761, 0x6f6974616369746e);
    var ks := Schedule(
      [0x9b6924f66d9b4468, 0x7c5aadcd3dd9a0b9, 0x18a7974ebff998cf, 0xb66c0602e369de91, 0x1cad4d225987f7da],
      [0x40, 0x800000000000000, 0x800000000000040]);
    PersSecondParity();
    Scheduled(g, 0x40, 0x800000000000000, ks);
    PersSecondCipher(ks, w);
    PersSecondForward();
    CodedCipherIsReference(ks, w);
  }

  lemma PersSecondParity()
    ensures Parity(0x9b6924f66d9b4468, 0x7c5aadcd3dd9a0b9, 0x18a7974ebff998cf, 0xb66c0602e369de91)
      == 0x1cad4d225987f7da
    ensures Xor(0x40, 0x800000000000000) == 0x800000000000040
  {
  }

  lemma PersSecondForward()
    ensures XorBlock(Block(0x5d6036e4ef468dcf, 0x8e99c5053928920f, 0x1734f0f08a21ce87, 0xcc2ba5f42ca52674),
                     Block(0x79654b79706f7274, 0x7373654d2f31762f, 0x6568747541656761, 0x6f6974616369746e))
      == Block(0x24057d9d9f29ffbb, 0xfdeaa0481619e420, 0x725c8485cb44a9e6, 0xa342d1954fcc521a)
  {
  }

  lemma ContentFirstCipher(ks: Schedule, p: Block)
    requires ks == Schedule(
      [0x24057d9d9f29ffbb, 0xfdeaa0481619e420, 0x725c8485cb44a9e6, 0xa342d1954fcc521a, 0x5da4dd9058edb532],
      [0x20, 0x7000000000000000, 0x7000000000000020])
    requires p == Block(0x7642774e41412153, 0x4a42544f33676c42, 0x202020204446524f, 0x2020202020202020)
    ensures Injected(ks, p, 18) == Block(0x8d7ad36248bb6a9a, 0x2bbc5275b4076d85, 0x47b0cb7a877cd885, 0x437f628372dedeb5)
  {
    hide Injected, Word;
    Numerals();
    Begin(ks, p, Block(0x9a47f4ebe06b210e, 0x482cf49749815082, 0x27ca4a60f8afc35, 0xc362f1b56fec723a));
    Octet(ks, p, 0, 0x9a47f4ebe06b210e, 0x482cf49749815082, 0x27ca4a60f8afc35, 0xc362f1b56fec723a,
      0xfdeaa0481619e420, 0x725c8485cb44a9e6, 0xa342d1954fcc521a, 0x5da4dd9058edb532, 0x24057d9d9f29ffbb,
      0x7000000000000000, 0x7000000000000020, 0x20, 1, 2,
      Block(0x6b74edf1731e8df7, 0x1b64a900a464d6d5, 0xdb857316f5d9ab6, 0xa2abf30b21d437c4));
    Octet(ks, p, 1, 0x6b74edf1731e8df7, 0x1b64a900a464d6d5, 0xdb857316f5d9ab6, 0xa2abf30b21d437c4,
      0xa342d1954fcc521a, 0x5da4dd9058edb532, 0x24057d9d9f29ffbb, 0xfdeaa0481619e420, 0x725c8485cb44a9e6,
      0x20, 0x7000000000000000, 0x7000000000000020, 3, 4,
      Block(0xa8239b310c6af995, 0x76a61b4b1cd59d3d, 0x51711060baf50dc4, 0x6c4c938a8555b526));
    Octet(ks, p, 2, 0xa8239b310c6af995, 0x76a61b4b1cd59d3d, 0x51711060baf50dc4, 0x6c4c938a8555b526,
      0x24057d9d9f29ffbb, 0xfdeaa0481619e420, 0x725c8485cb44a9e6, 0xa342d1954fcc521a, 0x5da4dd9058edb532,
      0x7000000000000020, 0x20, 0x7000000000000000, 5, 6,
      Block(0x706d18dc9de74e7e, 0x25af36631c5140d1, 0x75a33473419d2289, 0xcfa299a611592ed5));
    Octet(ks, p, 3, 0x706d18dc9de74e7e, 0x25af36631c5140d1, 0x75a33473419d2289, 0xcfa299a611592ed5,
      0x725c8485cb44a9e6, 0xa342d1954fcc521a, 0x5da4dd9058edb532, 0x24057d9d9f29ffbb, 0xfdeaa0481619e420,
      0x7000000000000000, 0x7000000000000020, 0x20, 7, 8,
      Block(0xb8bf6f18d5a2f5c2, 0xd650043e0b338de0, 0x51d7cd33ed507dee, 0xc2e93e0d21adf35e));
    Octet(ks, p, 4, 0xb8bf6f18d5a2f5c2, 0xd650043e0b338de0, 0x51d7cd33ed507dee, 0xc2e93e0d21adf35e,
      0x5da4dd9058edb532, 0x24057d9d9f29ffbb, 0xfdeaa0481619e420, 0x725c8485cb44a9e6, 0xa342d1954fcc521a,
      0x20, 0x7000000000000000, 0x7000000000000020, 9, 10,
      Block(0xa465c46e16bc3b6f, 0x2f7fba9c2800914e, 0xd9ff929a46039982, 0xaab94afd11d902fe));
    Octet(ks, p, 5, 0xa465c46e16bc3b6f, 0x2f7fba9c2800914e, 0xd9ff929a46039982, 0xaab94afd11d902fe,
      0xfdeaa0481619e420, 0x725c8485cb44a9e6, 0xa342d1954fcc521a, 0x5da4dd9058edb532, 0x24057d9d9f29ffbb,
      0x7000000000000020, 0x20, 0x7000000000000000, 11, 12,
      Block(0xa23bc7fb004abafe, 0xe681174f05351bff, 0x6e925e4c0e57b04c, 0x4c074c66c770d380));
    Octet(ks, p, 6, 0xa23bc7fb004abafe, 0xe681174f05351bff, 0x6e925e4c0e57b04c, 0x4c074c66c770d380,
      0xa342d1954fcc521a, 0x5da4dd9058edb532, 0x24057d9d9f29ffbb, 0xfdeaa0481619e420, 0x725c8485cb44a9e6,
      0x7000000000000000, 0x7000000000000020, 0x20, 13, 14,
      Block(0xaa375844e256b0a2, 0x787487f0bfbfd361, 0xb4dcad69da036724, 0xbaf880b484317fc));
    Octet(ks, p, 7, 0xaa375844e256b0a2, 0x787487f0bfbfd361, 0xb4dcad69da036724, 0xbaf880b484317fc,
      0x24057d9d9f29ffbb, 0xfdeaa0481619e420, 0x725c8485cb44a9e6, 0xa342d1954fcc521a, 0x5da4dd9058edb532,
      0x20, 0x7000000000000000, 0x7000000000000020, 15, 16,
      Block(0x57788914fb13184a, 0x809611338e40c5fc, 0x101057c82d706a8d, 0x3383020d1037eb0));
    Octet(ks, p, 8, 0x57788914fb13184a, 0x809611338e40c5fc, 0x101057c82d706a8d, 0x3383020d1037eb0,
      0x725c8485cb44a9e6, 0xa342d1954fcc521a, 0x5da4dd9058edb532, 0x24057d9d9f29ffbb, 0xfdeaa0481619e420,
      0x7000000000000020, 0x20, 0x7000000000000000, 17, 18,
      Block(0x8d7ad36248bb6a9a, 0x2bbc5275b4076d85, 0x47b0cb7a877cd885, 0x437f628372dedeb5));
  }

  /** Compressing the first 32 characters of the frame's content. */
  lemma ContentFirst()
    ensures Compress(
      Block(0x24057d9d9f29ffbb, 0xfdeaa0481619e420, 0x725c8485cb44a9e6, 0xa342d1954fcc521a),
      0x20, 0x7000000000000000, Block(0x7642774e41412153, 0x4a42544f33676c42, 0x202020204446524f, 0x2020202020202020))
      == Block(0xfb38a42c09fa4bc9, 0x61fe063a876001c7, 0x6790eb5ac33a8aca, 0x635f42a352fefe95)
  {
    hide Injected, Encrypt, KeySchedule, XorBlock;
    var g, w := Block(0x24057d9d9f29ffbb, 0xfdeaa0481619e420, 0x725c8485cb44a9e6, 0xa342d1954fcc521a),
      Block(0x7642774e41412153, 0x4a42544f33676c42, 0x202020204446524f, 0x2020202020202020);
    var ks := Schedule(
      [0x24057d9d9f29ffbb, 0xfdeaa0481619e420, 0x725c8485cb44a9e6, 0xa342d1954fcc521a, 0x5da4dd9058edb532],
      [0x20, 0x7000000000000000, 0x7000000000000020]);
    ContentFirstParity();
    Scheduled(g, 0x20, 0x7000000000000000, ks);
    ContentFirstCipher(ks, w);
    ContentFirstForward();
    CodedCipherIsReference(ks, w);
  }

  lemma ContentFirstParity()
    ensures Parity(0x24057d9d9f29ffbb, 0xfdeaa0481619e420, 0x725c8485cb44a9e6, 0xa342d1954fcc521a)
      == 0x5da4dd9058edb532
    ensures Xor(0x20, 0x7000000000000000) == 0x7000000000000020
  {
  }

  lemma ContentFirstForward()
    ensures XorBlock(Block(0x8d7ad36248bb6a9a, 0x2bbc5275b4076d85, 0x47b0cb7a877cd885, 0x437f628372dedeb5),
                     Block(0x7642774e41412153, 0x4a42544f33676c42, 0x202020204446524f, 0x2020202020202020))
      == Block(0xfb38a42c09fa4bc9, 0x61fe063a876001c7, 0x6790eb5ac33a8aca, 0x635f42a352fefe95)
  {
  }

  lemma ContentLastCipher(ks: Schedule, p: Block)
    requires ks == Schedule(
      [0xfb38a42c09fa4bc9, 0x61fe063a876001c7, 0x6790eb5ac33a8aca, 0x635f42a352fefe95, 0xcb5c5eba4a0b6b04],
      [0x34, 0xb000000000000000, 0xb000000000000034])
    requires p == Block(0x2020202020202020, 0x2020202020202020, 0x20202020, 0)
    ensures Injected(ks, p, 18) == Block(0xcf24325299f27f22, 0xc5a479c9d6e777f3, 0x1197da9b595df1ca, 0x5b0d9b92b616d18b)
  {
    hide Injected, Word;
    Numerals();
    Begin(ks, p, Block(0x1b58c44c2a1a6be9, 0x821e265aa780221b, 0x1790eb5ae35aaaea, 0x635f42a352fefe95));
    Octet(ks, p, 0, 0x1b58c44c2a1a6be9, 0x821e265aa780221b, 0x1790eb5ae35aaaea, 0x635f42a352fefe95,
      0x61fe063a876001c7, 0x6790eb5ac33a8aca, 0x635f42a352fefe95, 0xcb5c5eba4a0b6b04, 0xfb38a42c09fa4bc9,
      0xb000000000000000, 0xb000000000000034, 0x34, 1, 2,
      Block(0xa11b25110a7e08a3, 0xd57923f1034f3f2f, 0x93fe0267b3122965, 0x639b39edf9b6f593));
    Octet(ks, p, 1, 0xa11b25110a7e08a3, 0xd57923f1034f3f2f, 0x93fe0267b3122965, 0x639b39edf9b6f593,
      0x635f42a352fefe95, 0xcb5c5eba4a0b6b04, 0xfb38a42c09fa4bc9, 0x61fe063a876001c7, 0x6790eb5ac33a8aca,
      0x34, 0xb000000000000000, 0xb000000000000034, 3, 4,
      Block(0x31901c9f66ce9e74, 0xf7db365803bac9de, 0xc792dccef8bffd38, 0x901c7cf7aecd95b5));
    Octet(ks, p, 2, 0x31901c9f66ce9e74, 0xf7db365803bac9de, 0xc792dccef8bffd38, 0x901c7cf7aecd95b5,
      0xfb38a42c09fa4bc9, 0x61fe063a876001c7, 0x6790eb5ac33a8aca, 0x635f42a352fefe95, 0xcb5c5eba4a0b6b04,
      0xb000000000000034, 0x34, 0xb000000000000000, 5, 6,
      Block(0xc0c9485a3035a0d9, 0xcec0be01f1853d9d, 0x3972aa996c6b0f7c, 0xb684238d37dcfefd));
    Octet(ks, p, 3, 0xc0c9485a3035a0d9, 0xcec0be01f1853d9d, 0x3972aa996c6b0f7c, 0xb684238d37dcfefd,
      0x6790eb5ac33a8aca, 0x635f42a352fefe95, 0xcb5c5eba4a0b6b04, 0xfb38a42c09fa4bc9, 0x61fe063a876001c7,
      0xb000000000000000, 0xb000000000000034, 0x34, 7, 8,
      Block(0xa882261427bacf24, 0xe310bb27adc9918c, 0x15c09304f6b2a7fe, 0x5f1d362a162e7d19));
    Octet(ks, p, 4, 0xa882261427bacf24, 0xe310bb27adc9918c, 0x15c09304f6b2a7fe, 0x5f1d362a162e7d19,
      0xcb5c5eba4a0b6b04, 0xfb38a42c09fa4bc9, 0x61fe063a876001c7, 0x6790eb5ac33a8aca, 0x635f42a352fefe95,
      0x34, 0xb000000000000000, 0xb000000000000034, 9, 10,
      Block(0xbe09d3d9418196f8, 0x516761299b34220d, 0xfe2b197098358712, 0xa9e809e39a20153b));
    Octet(ks, p, 5, 0xbe09d3d9418196f8, 0x516761299b34220d, 0xfe2b197098358712, 0xa9e809e39a20153b,
      0x61fe063a876001c7, 0x6790eb5ac33a8aca, 0x635f42a352fefe95, 0xcb5c5eba4a0b6b04, 0xfb38a42c09fa4bc9,
      0xb000000000000034, 0x34, 0xb000000000000000, 11, 12,
      Block(0x93f3206f823f2fb7, 0xf1ce36980dfc8ec4, 0xf306162f7a0b1e99, 0xbed05278e5387135));
    Octet(ks, p, 6, 0x93f3206f823f2fb7, 0xf1ce36980dfc8ec4, 0xf306162f7a0b1e99, 0xbed05278e5387135,
      0x635f42a352fefe95, 0xcb5c5eba4a0b6b04, 0xfb38a42c09fa4bc9, 0x61fe063a876001c7, 0x6790eb5ac33a8aca,
      0xb000000000000000, 0xb000000000000034, 0x34, 13, 14,
      Block(0x5740bfcf23e26ffc, 0x4a0184bfcd243876, 0xf1e4b345fc0a4218, 0x2dd941e4db7b2924));
    Octet(ks, p, 7, 0x5740bfcf23e26ffc, 0x4a0184bfcd243876, 0xf1e4b345fc0a4218, 0x2dd941e4db7b2924,
      0xfb38a42c09fa4bc9, 0x61fe063a876001c7, 0x6790eb5ac33a8aca, 0x635f42a352fefe95, 0xcb5c5eba4a0b6b04,
      0x34, 0xb000000000000000, 0xb000000000000034, 15, 16,
      Block(0x2d88eaf9bfbfadae, 0x758eeff36cc0927f, 0x95b511828fe8a950, 0x739f8d9e3f11b7d6));
    Octet(ks, p, 8, 0x2d88eaf9bfbfadae, 0x758eeff36cc0927f, 0x95b511828fe8a950, 0x739f8d9e3f11b7d6,
      0x6790eb5ac33a8aca, 0x635f42a352fefe95, 0xcb5c5eba4a0b6b04, 0xfb38a42c09fa4bc9, 0x61fe063a876001c7,
      0xb000000000000034, 0x34, 0xb000000000000000, 17, 18,
      Block(0xcf24325299f27f22, 0xc5a479c9d6e777f3, 0x1197da9b595df1ca, 0x5b0d9b92b616d18b));
  }

  /** Compressing the other 20. */
  lemma ContentLast()
    ensures Compress(
      Block(0xfb38a42c09fa4bc9, 0x61fe063a876001c7, 0x6790eb5ac33a8aca, 0x635f42a352fefe95),
      0x34, 0xb000000000000000, Block(0x2020202020202020, 0x2020202020202020, 0x20202020, 0))
      == Block(0xef041272b9d25f02, 0xe58459e9f6c757d3, 0x1197da9b797dd1ea, 0x5b0d9b92b616d18b)
  {
    hide Injected, Encrypt, KeySchedule, XorBlock;
    var g, w := Block(0xfb38a42c09fa4bc9, 0x61fe063a876001c7, 0x6790eb5ac33a8aca, 0x635f42a352fefe95),
      Block(0x2020202020202020, 0x2020202020202020, 0x20202020, 0);
    var ks := Schedule(
      [0xfb38a42c09fa4bc9, 0x61fe063a876001c7, 0x6790eb5ac33a8aca, 0x635f42a352fefe95, 0xcb5c5eba4a0b6b04],
      [0x34, 0xb000000000000000, 0xb000000000000034]);
    ContentLastParity();
    Scheduled(g, 0x34, 0xb000000000000000, ks);
    ContentLastCipher(ks, w);
    ContentLastForward();
    CodedCipherIsReference(ks, w);
  }

  lemma ContentLastParity()
    ensures Parity(0xfb38a42c09fa4bc9, 0x61fe063a876001c7, 0x6790eb5ac33a8aca, 0x635f42a352fefe95)
      == 0xcb5c5eba4a0b6b04
    ensures Xor(0x34, 0xb000000000000000) == 0xb000000000000034
  {
  }

  lemma ContentLastForward()
    ensures XorBlock(Block(0xcf24325299f27f22, 0xc5a479c9d6e777f3, 0x1197da9b595df1ca, 0x5b0d9b92b616d18b),
                     Block(0x2020202020202020, 0x2020202020202020, 0x20202020, 0))
      == Block(0xef041272b9d25f02, 0xe58459e9f6c757d3, 0x1197da9b797dd1ea, 0x5b0d9b92b616d18b)
  {
  }

}
