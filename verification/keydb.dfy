// The keyring (host/keydb.c): a linked list of long-term keys by serial number, and its text form.

module Keyring {
  import opened Bytes
  import Pem

  const SERIAL: nat := 12
  const KEY: nat := 32
  const NEWLINE: byte := 10
  const SPACE: byte := 32

  datatype Entry = Entry(snum: seq<byte>, ltkey: seq<byte>)

  predicate GoodEntry(e: Entry) {
    |e.snum| == SERIAL && |e.ltkey| == KEY
  }

  /** One entry per serial number. */
  predicate Distinct(es: seq<Entry>) {
    es == [] || (GoodEntry(es[0]) && Distinct(es[1..]) && es[0].snum !in Map(es[1..]))
  }

  function Map(es: seq<Entry>): map<seq<byte>, seq<byte>> {
    if es == [] then map[] else Map(es[1..])[es[0].snum := es[0].ltkey]
  }

  /** The list after a key has been added: overwritten in its place, or put in front. */
  function Replaced(es: seq<Entry>, snum: seq<byte>, ltkey: seq<byte>): seq<Entry> {
    if es == [] then []
    else if es[0].snum == snum then [Entry(snum, ltkey)] + es[1..]
    else [es[0]] + Replaced(es[1..], snum, ltkey)
  }

  function Put(es: seq<Entry>, snum: seq<byte>, ltkey: seq<byte>): seq<Entry> {
    if snum in Map(es) then Replaced(es, snum, ltkey) else [Entry(snum, ltkey)] + es
  }

  lemma {:induction false} ReplacedIsUpdate(es: seq<Entry>, snum: seq<byte>, ltkey: seq<byte>)
    requires Distinct(es) && snum in Map(es) && |ltkey| == KEY
    ensures var rs := Replaced(es, snum, ltkey);
      |rs| == |es| && Distinct(rs) && Map(rs) == Map(es)[snum := ltkey]
  {
    if es[0].snum != snum {
      ReplacedIsUpdate(es[1..], snum, ltkey);
    }
    var rs := Replaced(es, snum, ltkey);
    assert rs[1..] == if es[0].snum == snum then es[1..] else Replaced(es[1..], snum, ltkey);
  }

  /** Adding a key is a map update, and never leaves two entries for one serial number. */
  lemma PutIsUpdate(es: seq<Entry>, snum: seq<byte>, ltkey: seq<byte>)
    requires Distinct(es) && |snum| == SERIAL && |ltkey| == KEY
    ensures Distinct(Put(es, snum, ltkey)) && Map(Put(es, snum, ltkey)) == Map(es)[snum := ltkey]
  {
    if snum in Map(es) {
      ReplacedIsUpdate(es, snum, ltkey);
    } else {
      assert ([Entry(snum, ltkey)] + es)[1..] == es;
    }
  }

  lemma {:induction false} MapSize(es: seq<Entry>)
    requires Distinct(es)
    ensures |Map(es)| == |es|
  {
    if es != [] {
      MapSize(es[1..]);
      assert Map(es).Keys == Map(es[1..]).Keys + {es[0].snum};
      assert |Map(es).Keys| == |Map(es)| && |Map(es[1..]).Keys| == |Map(es[1..])|;
    }
  }

  // ----- text -----

  // "# Do not edit this directly, this file is managed by ekey-setkey", without its newline.
  const HEADER_1: seq<byte> := [35, 32, 68, 111, 32, 110, 111, 116, 32, 101, 100, 105, 116]
  const HEADER_2: seq<byte> := [32, 116, 104, 105, 115, 32, 100, 105, 114, 101, 99, 116, 108, 121]
  const HEADER_3: seq<byte> := [44, 32, 116, 104, 105, 115, 32, 102, 105, 108, 101, 32, 105, 115]
  const HEADER_4: seq<byte> := [32, 109, 97, 110, 97, 103, 101, 100, 32, 98, 121, 32, 101, 107, 101, 121]
  const HEADER_5: seq<byte> := [45, 115, 101, 116, 107, 101, 121]
  const HEADER: seq<byte> := HEADER_1 + HEADER_2 + HEADER_3 + HEADER_4 + HEADER_5

  function KeyLine(e: Entry): seq<byte> {
    Pem.Encode(e.snum) + [SPACE] + Pem.Encode(e.ltkey) + [NEWLINE]
  }

  /** A new serial number comes first; a known one keeps its place, and so do all others. */
  lemma {:induction false} PutPlaces(es: seq<Entry>, snum: seq<byte>, ltkey: seq<byte>)
    ensures var rs := Put(es, snum, ltkey);
      if snum in Map(es) then |rs| == |es| && forall i :: 0 <= i < |es| ==> rs[i].snum == es[i].snum
      else rs == [Entry(snum, ltkey)] + es
  {
    if snum in Map(es) {
      ReplacedPlaces(es, snum, ltkey);
    }
  }

  lemma {:induction false} ReplacedPlaces(es: seq<Entry>, snum: seq<byte>, ltkey: seq<byte>)
    ensures var rs := Replaced(es, snum, ltkey);
      |rs| == |es| && forall i :: 0 <= i < |es| ==> rs[i].snum == es[i].snum
  {
    if es != [] {
      ReplacedPlaces(es[1..], snum, ltkey);
    }
  }

  /** A line of the file: sixteen characters, a space, forty-four characters and a newline, for a key of 32 bytes. */
  lemma KeyLineShape(e: Entry)
    requires |e.snum| == 12 && |e.ltkey| == 32
    ensures |KeyLine(e)| == 62 && KeyLine(e)[16] == 32 && KeyLine(e)[61] == 10
    ensures SevenBit(KeyLine(e)[..16]) && Pem.Decode(KeyLine(e)[..16]) == e.snum
    ensures SevenBit(KeyLine(e)[17..61]) && Pem.Decode(KeyLine(e)[17..61]) == e.ltkey
  {
    hide Pem.Encode, Pem.Decode;
    Pem.EncodeShape(e.snum);
    Pem.EncodeShape(e.ltkey);
    Pem.RoundTrip(e.snum);
    Pem.RoundTrip(e.ltkey);
    assert KeyLine(e)[..16] == Pem.Encode(e.snum) && KeyLine(e)[17..61] == Pem.Encode(e.ltkey);
  }

  function KeyLines(es: seq<Entry>): seq<byte> {
    if es == [] then [] else KeyLine(es[0]) + KeyLines(es[1..])
  }

  // ----- scanning a line, as the C library does it -----

  /** `[A-Za-z0-9+/=]`. */
  predicate InClass(c: byte) {
    65 <= c <= 90 || 97 <= c <= 122 || 48 <= c <= 57 || c == 43 || c == 47 || c == 61
  }

  lemma ClassIsPem(c: byte)
    ensures InClass(c) <==> Pem.IsPemChar(c)
  {
  }

  predicate IsSpace(c: byte) {
    c == 32 || 9 <= c <= 13
  }

  function SkipSpaces(s: seq<byte>): seq<byte> {
    if s != [] && IsSpace(s[0]) then SkipSpaces(s[1..]) else s
  }

  /** How many characters of the class come first, up to `max`. */
  function Span(s: seq<byte>, max: nat): (n: nat)
    ensures n <= max && n <= |s|
    ensures forall i :: 0 <= i < n ==> InClass(s[i])
  {
    if max == 0 || s == [] || !InClass(s[0]) then 0 else 1 + Span(s[1..], max - 1)
  }

  function UpToNul(s: seq<byte>): seq<byte> {
    if s == [] || s[0] == 0 then [] else [s[0]] + UpToNul(s[1..])
  }

  datatype Scanned = Scanned(res: nat, first: seq<byte>, second: seq<byte>)

  /** `sscanf(line, " %16[A-Za-z0-9+/=] %44[A-Za-z0-9+/=]", ...)`. */
  function Scan(line: seq<byte>): (r: Scanned)
    ensures |r.first| <= 16 && |r.second| <= 44
    ensures forall i :: 0 <= i < |r.first| ==> InClass(r.first[i])
    ensures forall i :: 0 <= i < |r.second| ==> InClass(r.second[i])
  {
    var a := SkipSpaces(UpToNul(line));
    var n := Span(a, 16);
    if n == 0 then Scanned(0, [], [])
    else
      var b := SkipSpaces(a[n..]);
      var m := Span(b, 44);
      if m == 0 then Scanned(1, a[..n], []) else Scanned(2, a[..n], b[..m])
  }

  function FirstNewline(s: seq<byte>): (n: nat)
    ensures n <= |s| && (n < |s| ==> s[n] == NEWLINE)
  {
    if s == [] || s[0] == NEWLINE then 0 else 1 + FirstNewline(s[1..])
  }

  /** How much of the text `fgets(line, 512, fh)` takes. */
  function LineLength(s: seq<byte>): (n: nat)
    requires s != []
    ensures 0 < n <= |s| && n <= 511
    ensures n < 511 && n < |s| ==> s[n - 1] == 10
  {
    var n := if FirstNewline(s) < |s| then FirstNewline(s) + 1 else |s|;
    if n < 511 then n else 511
  }

  // ----- reading -----

  /** The list, the count, and the two buffers, which keep what an earlier line left in them. */
  datatype Reading = Reading(es: seq<Entry>, keys: nat, snum: seq<byte>, ltkey: seq<byte>)

  predicate GoodReading(r: Reading) {
    |r.snum| == SERIAL && |r.ltkey| == 33 && Distinct(r.es)
  }

  lemma ClassText(s: seq<byte>)
    requires forall i :: 0 <= i < |s| ==> InClass(s[i])
    ensures SevenBit(s) && forall i :: 0 <= i < |s| ==> Pem.IsPemChar(s[i])
  {
    forall i | 0 <= i < |s|
      ensures s[i] < 128 && Pem.IsPemChar(s[i])
    {
      ClassIsPem(s[i]);
    }
  }

  /** A buffer after a field has been decoded into its front. */
  function Into(buf: seq<byte>, field: seq<byte>): (r: seq<byte>)
    requires forall i :: 0 <= i < |field| ==> InClass(field[i])
    requires 3 * (|field| / 4) <= |buf|
    ensures |r| == |buf|
  {
    ClassText(field);
    Pem.DecodeLength(field);
    Splice(buf, 0, Pem.Decode(field))
  }

  function ReadLine(r: Reading, line: seq<byte>): (n: Reading)
    requires GoodReading(r)
    ensures GoodReading(n)
  {
    var s := Scan(line);
    if s.res == 2 then
      var snum, ltkey := Into(r.snum, s.first), Into(r.ltkey, s.second);
      PutIsUpdate(r.es, snum, ltkey[..KEY]);
      Reading(Put(r.es, snum, ltkey[..KEY]), r.keys + 1, snum, ltkey)
    else r
  }

  function ReadText(r: Reading, text: seq<byte>): (n: Reading)
    requires GoodReading(r)
    ensures GoodReading(n)
    decreases |text|
  {
    if text == [] then r
    else ReadText(ReadLine(r, text[..LineLength(text)]), text[LineLength(text)..])
  }

  lemma {:induction false} AllInSpan(s: seq<byte>, rest: seq<byte>, max: nat)
    requires |s| <= max && (forall i :: 0 <= i < |s| ==> InClass(s[i])) && rest != [] && !InClass(rest[0])
    ensures Span(s + rest, max) == |s|
  {
    if s == [] {
      assert s + rest == rest;
    } else {
      assert (s + rest)[1..] == s[1..] + rest;
      AllInSpan(s[1..], rest, max - 1);
    }
  }

  /** A line with a single field adds nothing and leaves the buffers alone. */
  lemma OneFieldIgnored(r: Reading, field: seq<byte>)
    requires GoodReading(r) && 0 < |field| <= 16 && forall i :: 0 <= i < |field| ==> InClass(field[i])
    ensures ReadLine(r, field + [10]) == r
  {
    hide Span;
    var line := field + [10];
    PlainLine(field, []);
    assert SkipSpaces(line) == line;
    AllInSpan(field, [10], 16);
    assert line[|field|..] == [10];
    assert SkipSpaces([10]) == [] by {
      assert [10][1..] == [];
    }
    EmptySpan();
  }

  lemma EmptySpan()
    ensures Span([], 44) == 0
  {
  }

  // ----- the text of a keyring reads back as the same keyring -----

  function KeyringText(es: seq<Entry>): seq<byte> {
    HEADER + [NEWLINE] + KeyLines(es)
  }

  predicate Plain(s: seq<byte>) {
    forall i :: 0 <= i < |s| ==> s[i] != NEWLINE && s[i] != 0
  }

  lemma {:induction false} PlainLine(s: seq<byte>, rest: seq<byte>)
    requires Plain(s)
    ensures FirstNewline(s + [NEWLINE] + rest) == |s|
    ensures UpToNul(s + [NEWLINE]) == s + [NEWLINE]
  {
    var t, l := s + [NEWLINE] + rest, s + [NEWLINE];
    if s == [] {
      assert l[1..] == [];
    } else {
      assert t[1..] == s[1..] + [NEWLINE] + rest && l[1..] == s[1..] + [NEWLINE];
      PlainLine(s[1..], rest);
    }
  }

  /** One line at a time: a line that is short enough is taken as a whole. */
  lemma OneLine(r: Reading, s: seq<byte>, rest: seq<byte>)
    requires GoodReading(r) && Plain(s) && |s| < 511
    ensures ReadText(r, s + [NEWLINE] + rest) == ReadText(ReadLine(r, s + [NEWLINE]), rest)
  {
    hide ReadLine, FirstNewline;
    PlainLine(s, rest);
    var t := s + [NEWLINE] + rest;
    assert LineLength(t) == |s| + 1;
    assert t[..|s| + 1] == s + [NEWLINE] && t[|s| + 1..] == rest;
  }

  lemma HeaderSkipped(r: Reading)
    requires GoodReading(r)
    ensures Plain(HEADER) && |HEADER| < 511 && ReadLine(r, HEADER + [NEWLINE]) == r
  {
    hide *;
    HeaderPlain();
    PlainLine(HEADER, []);
    assert (HEADER + [NEWLINE])[0] == HEADER[0];
    CommentScans(HEADER + [NEWLINE]);
    NotTwo(r, HEADER + [NEWLINE]);
  }

  lemma HeaderPlain()
    ensures Plain(HEADER) && 0 < |HEADER| < 511 && HEADER[0] == 35
  {
    assert Plain(HEADER_1);
    assert Plain(HEADER_2);
    assert Plain(HEADER_3);
    assert Plain(HEADER_4);
    assert Plain(HEADER_5);
  }

  lemma NotTwo(r: Reading, line: seq<byte>)
    requires GoodReading(r) && Scan(line).res != 2
    ensures ReadLine(r, line) == r
  {
  }

  lemma CommentScans(line: seq<byte>)
    requires line != [] && line[0] == 35 && UpToNul(line) == line
    ensures Scan(line).res == 0
  {
    assert SkipSpaces(line) == line;
    assert Span(line, 16) == 0;
  }

  lemma {:induction false} SpanAll(s: seq<byte>, c: byte, rest: seq<byte>, max: nat)
    requires |s| <= max && (forall i :: 0 <= i < |s| ==> InClass(s[i])) && !InClass(c)
    ensures Span(s + [c] + rest, max) == |s|
  {
    var t := s + [c] + rest;
    if s == [] {
      assert t[0] == c;
    } else {
      assert t[1..] == s[1..] + [c] + rest;
      SpanAll(s[1..], c, rest, max - 1);
    }
  }

  lemma EncodedInClass(x: seq<byte>)
    ensures forall i :: 0 <= i < |Pem.Encode(x)| ==> InClass(Pem.Encode(x)[i])
    ensures |Pem.Encode(x)| == Pem.EncodedLength(|x|)
  {
    hide Pem.Encode, InClass, Pem.IsPemChar;
    Pem.EncodeShape(x);
    forall i | 0 <= i < |Pem.Encode(x)|
      ensures InClass(Pem.Encode(x)[i])
    {
      ClassIsPem(Pem.Encode(x)[i]);
    }
  }

  lemma Separators()
    ensures !InClass(SPACE) && !InClass(NEWLINE) && IsSpace(SPACE) && IsSpace(NEWLINE) && !InClass(0)
  {
  }

  lemma NoSpaceInClass(c: byte)
    requires InClass(c)
    ensures !IsSpace(c)
  {
  }

  /** A key line is scanned into its two fields. */
  lemma KeyLineScans(e: Entry)
    requires GoodEntry(e)
    ensures Plain(Pem.Encode(e.snum) + [SPACE] + Pem.Encode(e.ltkey))
    ensures Scan(KeyLine(e)) == Scanned(2, Pem.Encode(e.snum), Pem.Encode(e.ltkey))
  {
    hide Pem.Encode, InClass, IsSpace;
    var s, k := Pem.Encode(e.snum), Pem.Encode(e.ltkey);
    EncodedInClass(e.snum);
    EncodedInClass(e.ltkey);
    Separators();
    assert Plain(s + [SPACE] + k);
    PlainLine(s + [SPACE] + k, []);
    var line := KeyLine(e);
    assert line == s + [SPACE] + (k + [NEWLINE]);
    NoSpaceInClass(line[0]);
    assert SkipSpaces(line) == line;
    SpanAll(s, SPACE, k + [NEWLINE], 16);
    var a := line[16..];
    assert a[0] == SPACE && a[1..] == k + [NEWLINE];
    var b := k + [NEWLINE];
    NoSpaceInClass(b[0]);
    assert SkipSpaces(a) == SkipSpaces(b) == b;
    SpanAll(k, NEWLINE, [], 44);
    assert b == k + [NEWLINE] + [];
    assert line[..16] == s && b[..44] == k;
  }

  lemma KeyLineRead(r: Reading, e: Entry)
    requires GoodReading(r) && GoodEntry(e)
    ensures var n := ReadLine(r, KeyLine(e));
      n.es == Put(r.es, e.snum, e.ltkey) && n.keys == r.keys + 1
  {
    hide Pem.Encode, Pem.Decode, Scan, KeyLine, Put;
    KeyLineScans(e);
    Pem.RoundTrip(e.snum);
    Pem.RoundTrip(e.ltkey);
    EncodedInClass(e.snum);
    EncodedInClass(e.ltkey);
    assert Into(r.snum, Pem.Encode(e.snum)) == e.snum;
    assert Into(r.ltkey, Pem.Encode(e.ltkey))[..KEY] == e.ltkey;
  }

  lemma {:induction false} LinesRead(r: Reading, es: seq<Entry>)
    requires GoodReading(r) && Distinct(es)
    ensures var n := ReadText(r, KeyLines(es));
      Map(n.es) == Map(r.es) + Map(es) && n.keys == r.keys + |es|
    decreases |es|
  {
    hide ReadLine, ReadText, KeyLine, Put, Map, InClass;
    EmptyMap();
    if es == [] {
      ReadNothing(r);
      assert Map(r.es) + map[] == Map(r.es);
    } else {
      var e := es[0];
      KeyLineScans(e);
      EncodedInClass(e.snum);
      EncodedInClass(e.ltkey);
      SplitLine(e);
      OneLine(r, Pem.Encode(e.snum) + [SPACE] + Pem.Encode(e.ltkey), KeyLines(es[1..]));
      var n := ReadLine(r, KeyLine(e));
      KeyLineRead(r, e);
      PutIsUpdate(r.es, e.snum, e.ltkey);
      LinesRead(n, es[1..]);
      FirstInMap(es);
      MapMerge(Map(r.es), Map(es[1..]), e.snum, e.ltkey);
    }
  }

  lemma EmptyMap()
    ensures Map([]) == map[]
  {
  }

  lemma FirstInMap(es: seq<Entry>)
    requires es != [] && Distinct(es)
    ensures Map(es) == Map(es[1..])[es[0].snum := es[0].ltkey] && es[0].snum !in Map(es[1..])
  {
  }

  lemma MapMerge<K, V>(m: map<K, V>, n: map<K, V>, k: K, v: V)
    requires k !in n
    ensures m[k := v] + n == m + n[k := v]
  {
  }

  lemma SplitLine(e: Entry)
    ensures KeyLine(e) == Pem.Encode(e.snum) + [SPACE] + Pem.Encode(e.ltkey) + [NEWLINE]
  {
  }

  lemma ReadNothing(r: Reading)
    requires GoodReading(r)
    ensures ReadText(r, []) == r && KeyLines([]) == []
  {
  }

  /**
    * Whatever is left in the two buffers, reading the text that is written for a keyring gives the same map back, and
    * the number of keys reported is its size.
    */
  lemma KeyringRoundTrip(es: seq<Entry>, snum: seq<byte>, ltkey: seq<byte>)
    requires Distinct(es) && |snum| == SERIAL && |ltkey| == 33
    ensures var n := ReadText(Reading([], 0, snum, ltkey), KeyringText(es));
      Map(n.es) == Map(es) && n.keys == |Map(es)|
  {
    hide ReadText, ReadLine, KeyLines, Plain;
    var r := Reading([], 0, snum, ltkey);
    HeaderSkipped(r);
    OneLine(r, HEADER, KeyLines(es));
    LinesRead(r, es);
    MapSize(es);
    assert map[] + Map(es) == Map(es);
  }
}
