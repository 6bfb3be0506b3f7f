// What the hash is used for, and the device's frame encoder (device/frames/frame.c).

module Hashing {
  import opened Bytes

  /** A 256-bit digest. */
  type Digest = d: seq<byte> | |d| == 32 witness Fill(32, 0)

  /** The inputs `PrepareSkein` keys a hash state with. */
  datatype Keyed = Keyed(serial: seq<byte>, secret: seq<byte>)

  /** The three keyed hashes of the session protocol, as arbitrary deterministic functions. */
  datatype Hashes = Hashes(
    mac: (Keyed, seq<byte>) -> Digest,
    pad: (Keyed, seq<byte>) -> Digest,
    derive: (Keyed, seq<byte>, seq<byte>) -> Digest)

  /** A MAC on the wire: the first and the last three bytes of the digest. */
  function Short(d: Digest): (s: seq<byte>)
    ensures |s| == 6
  {
    d[..3] + d[29..]
  }
}

module DeviceFrames {
  import opened Bytes
  import opened Pem
  import opened Hashing
  import opened Framer

  const PAYLOAD_LEN: nat := 50
  const SPACE: byte := 32
  const TEXT: byte := 62
  const BINARY: byte := 33

  /** The characters of a NUL-terminated payload that fit. */
  function Payload(p: seq<byte>, room: nat): (t: seq<byte>)
    ensures |t| <= room && |t| <= |p| && t == p[..|t|]
    ensures forall i :: 0 <= i < |t| ==> t[i] != 0
    ensures |t| < room && |t| < |p| ==> p[|t|] == 0
  {
    if room == 0 || p == [] || p[0] == 0 then [] else [p[0]] + Payload(p[1..], room - 1)
  }

  /** Type, class and the space-padded payload: what the MAC covers. */
  function Content(ft1: byte, ft2: byte, p: seq<byte>): (c: seq<byte>)
    ensures |c| == 52
  {
    var t := Payload(p, PAYLOAD_LEN);
    [ft1, ft2] + (t + Fill(PAYLOAD_LEN - |t|, SPACE))
  }

  function Tag(h: Hashes, k: Keyed, content: seq<byte>): (t: seq<byte>)
    ensures |t| == 8
  {
    var d := h.mac(k, content);
    EncodeShape(d[..3]);
    EncodeShape(d[29..]);
    Encode(d[..3]) + Encode(d[29..])
  }

  /** A whole frame, with the markers its caller puts around it. */
  function FrameOf(h: Hashes, k: Keyed, ft1: byte, ft2: byte, p: seq<byte>): (f: seq<byte>)
    ensures |f| == FRAME_LEN
  {
    var c := Content(ft1, ft2, p);
    [SOF0, SOF1] + c + Tag(h, k, c) + [EOF0, EOF1]
  }

  /** `framer_compute_mac`: the digest stands for the copied and finalised base state. */
  method ComputeMac(h: Hashes, base: Keyed, frame: array<byte>)
    requires frame.Length == FRAME_LEN
    modifies frame
    ensures frame[..] == Splice(old(frame[..]), 54, Tag(h, base, old(frame[2..54])))
  {
    hide Splice, Encode, AllGood;
    var d := h.mac(base, frame[2..54]);
    var macbuf := new byte[32](i requires 0 <= i < 32 => d[i]);
    assert macbuf[..] == d && macbuf[0..0 + 3] == d[..3] && macbuf[29..29 + 3] == d[29..];
    EncodeShape(d[..3]);
    EncodeShape(d[29..]);
    ghost var before := frame[..];
    var a := EncodeBytes(macbuf, 0, 3, frame, 54);
    var b := EncodeBytes(macbuf, 29, 3, frame, 58);
    SpliceTwice(before, 54, Encode(d[..3]), Encode(d[29..]));
  }

  method CopyPayload(frame: array<byte>, payload: array<byte>) returns (n: nat)
    requires frame.Length == FRAME_LEN && frame != payload
    requires payload.Length >= PAYLOAD_LEN || exists i :: 0 <= i < payload.Length && payload[i] == 0
    modifies frame
    ensures n == |Payload(payload[..], PAYLOAD_LEN)|
    ensures frame[..] == Splice(old(frame[..]), 4, Payload(payload[..], PAYLOAD_LEN))
  {
    hide Payload, Splice;
    ghost var p, before := payload[..], frame[..];
    n := 0;
    SpliceNothing(before, 4);
    assert p[..0] == [];
    while n < PAYLOAD_LEN && payload[n] != 0
      invariant 0 <= n <= PAYLOAD_LEN && n <= payload.Length && payload[..] == p
      invariant n < PAYLOAD_LEN ==> n < payload.Length
      invariant forall i :: 0 <= i < n ==> p[i] != 0
      invariant frame[..] == Splice(before, 4, p[..n])
    {
      NulAhead(p, n);
      var next := PutByte(frame, 4 + n, payload[n]);
      SpliceTwice(before, 4, p[..n], [p[n]]);
      assert p[..n + 1] == p[..n] + [p[n]];
      n := n + 1;
    }
    PayloadIs(p, PAYLOAD_LEN, n);
  }

  method PadPayload(frame: array<byte>, n: nat)
    requires frame.Length == FRAME_LEN && n <= PAYLOAD_LEN
    modifies frame
    ensures frame[..] == Splice(old(frame[..]), 4 + n, Fill(PAYLOAD_LEN - n, SPACE))
  {
    hide Splice;
    ghost var before := frame[..];
    var done := 0;
    SpliceNothing(before, 4 + n);
    while done < PAYLOAD_LEN - n
      invariant 0 <= done <= PAYLOAD_LEN - n
      invariant frame[..] == Splice(before, 4 + n, Fill(done, SPACE))
    {
      var next := PutByte(frame, 4 + n + done, SPACE);
      SpliceTwice(before, 4 + n, Fill(done, SPACE), [SPACE]);
      assert Fill(done + 1, SPACE) == Fill(done, SPACE) + [SPACE];
      done := done + 1;
    }
  }

  /** `framer_fill_frame`: copies the payload up to its NUL, pads with spaces, appends the MAC. */
  method FillFrame(h: Hashes, base: Keyed, frame: array<byte>, ft1: byte, ft2: byte, payload: array<byte>)
    requires frame.Length == FRAME_LEN && frame != payload
    requires payload.Length >= PAYLOAD_LEN || exists i :: 0 <= i < payload.Length && payload[i] == 0
    modifies frame
    ensures frame[..] == Splice(old(frame[..]), 2, FrameOf(h, base, ft1, ft2, payload[..])[2..62])
  {
    hide Tag, Payload, Splice, Fill;
    ghost var p, before := payload[..], frame[..];
    ghost var t := Payload(p, PAYLOAD_LEN);
    var next := PutByte(frame, 2, ft1);
    next := PutByte(frame, 3, ft2);
    SpliceTwice(before, 2, [ft1], [ft2]);
    assert [ft1] + [ft2] == [ft1, ft2];
    var n := CopyPayload(frame, payload);
    SpliceTwice(before, 2, [ft1, ft2], t);
    PadPayload(frame, n);
    SpliceTwice(before, 2, [ft1, ft2] + t, Fill(PAYLOAD_LEN - n, SPACE));
    ghost var c := Content(ft1, ft2, p);
    assert [ft1, ft2] + t + Fill(PAYLOAD_LEN - n, SPACE) == c;
    SpliceReads(before, 2, c);
    assert frame[2..54] == frame[..][2..54];
    ComputeMac(h, base, frame);
    SpliceTwice(before, 2, c, Tag(h, base, c));
    assert FrameOf(h, base, ft1, ft2, p)[2..62] == c + Tag(h, base, c);
  }

  lemma SpliceReads<T>(s: seq<T>, at: nat, t: seq<T>)
    requires at + |t| <= |s|
    ensures Splice(s, at, t)[at..at + |t|] == t
  {
  }

  /** A NUL still lies ahead of a character that is not one. */
  lemma NulAhead(p: seq<byte>, n: nat)
    requires n < |p| && p[n] != 0 && forall i :: 0 <= i < n ==> p[i] != 0
    requires |p| >= PAYLOAD_LEN || exists i :: 0 <= i < |p| && p[i] == 0
    ensures n + 1 < PAYLOAD_LEN ==> n + 1 < |p|
  {
  }

  lemma {:induction false} PayloadIs(p: seq<byte>, room: nat, n: nat)
    requires n <= room && n <= |p| && (forall i :: 0 <= i < n ==> p[i] != 0)
    requires n == room || n == |p| || p[n] == 0
    ensures Payload(p, room) == p[..n]
  {
    if n > 0 {
      PayloadIs(p[1..], room - 1, n - 1);
      assert p[..n] == [p[0]] + p[1..][..n - 1];
    }
  }
}
