// host/keydb.c in its own form: a linked list that is searched, prepended to and overwritten, and the two loops that
// write it out and read it in.

module KeyList {
  import opened Bytes
  import opened Keyring
  import Pem

  class Node {
    const snum: seq<byte>
    var ltkey: seq<byte>
    var next: Node?

    constructor (snum: seq<byte>, ltkey: seq<byte>, next: Node?)
      ensures this.snum == snum && this.ltkey == ltkey && this.next == next
    {
      this.snum, this.ltkey, this.next := snum, ltkey, next;
    }
  }

  /** The entry at position `i` of a list, or the end of it. */
  function At(nodes: seq<Node>, i: nat): Node? {
    if i < |nodes| then nodes[i] else null
  }

  /** The nodes hang together in this order. */
  ghost predicate Chain(first: Node?, nodes: seq<Node>)
    reads nodes`next
  {
    && first == At(nodes, 0)
    && (forall i :: 0 <= i < |nodes| ==> nodes[i].next == At(nodes, i + 1))
    && (forall i, j :: 0 <= i < j < |nodes| ==> nodes[i] != nodes[j])
  }

  ghost function EntriesOf(nodes: seq<Node>): (es: seq<Entry>)
    reads nodes`ltkey
    ensures |es| == |nodes|
    ensures forall i :: 0 <= i < |nodes| ==> es[i] == Entry(nodes[i].snum, nodes[i].ltkey)
  {
    if nodes == [] then [] else [Entry(nodes[0].snum, nodes[0].ltkey)] + EntriesOf(nodes[1..])
  }

  lemma {:induction false} ReplacedAt(es: seq<Entry>, i: nat, ltkey: seq<byte>)
    requires i < |es| && forall j :: 0 <= j < i ==> es[j].snum != es[i].snum
    ensures Replaced(es, es[i].snum, ltkey) == es[i := Entry(es[i].snum, ltkey)]
  {
    if i > 0 {
      ReplacedAt(es[1..], i - 1, ltkey);
    }
  }

  lemma MapHead(es: seq<Entry>, i: nat, snum: seq<byte>)
    requires i < |es| && Distinct(es[i..])
    ensures Distinct(es[i + 1..])
    ensures es[i].snum == snum ==> snum in Map(es[i..]) && Map(es[i..])[snum] == es[i].ltkey
    ensures es[i].snum != snum ==> (snum in Map(es[i..]) <==> snum in Map(es[i + 1..]))
    ensures es[i].snum != snum && snum in Map(es[i..]) ==> Map(es[i..])[snum] == Map(es[i + 1..])[snum]
  {
    assert es[i..][1..] == es[i + 1..];
  }

  class KeyDb {
    var ents: Node?
    ghost var nodes: seq<Node>

    ghost predicate Valid()
      reads this, nodes
    {
      Chain(ents, nodes) && Distinct(EntriesOf(nodes))
    }

    ghost function Entries(): seq<Entry>
      reads this, nodes
    {
      EntriesOf(nodes)
    }

    constructor ()
      ensures Valid() && Entries() == [] && nodes == []
    {
      ents, nodes := null, [];
    }

    /** `find_ltkey`: the first node with the serial number, and where it is. */
    method FindLtkey(snum: seq<byte>) returns (ent: Node?, ghost i: nat)
      requires Valid()
      ensures ent == null <==> snum !in Map(Entries())
      ensures ent != null ==> i < |nodes| && ent == nodes[i] && ent.snum == snum && Map(Entries())[snum] == ent.ltkey
      ensures ent != null ==> forall j :: 0 <= j < i ==> nodes[j].snum != snum
    {
      hide Map, Distinct;
      ghost var es := Entries();
      ent, i := ents, 0;
      assert es[0..] == es;
      while ent != null
        invariant i <= |nodes| && ent == At(nodes, i) && Distinct(es[i..])
        invariant snum in Map(es) <==> snum in Map(es[i..])
        invariant snum in Map(es) ==> Map(es)[snum] == Map(es[i..])[snum]
        invariant forall j :: 0 <= j < i ==> nodes[j].snum != snum
        decreases |nodes| - i
      {
        MapHead(es, i, snum);
        if ent.snum == snum {
          return;
        }
        ent := ent.next;
        i := i + 1;
      }
      NoEntries(es[i..]);
    }

    lemma NoEntries(es: seq<Entry>)
      ensures es == [] ==> Map(es) == map[]
    {
    }

    /** `snum_to_ltkey`. */
    method SnumToLtkey(snum: seq<byte>) returns (key: Option<seq<byte>>)
      requires Valid()
      ensures key == if snum in Map(Entries()) then Some(Map(Entries())[snum]) else None
    {
      var ent, i := FindLtkey(snum);
      key := if ent == null then None else Some(ent.ltkey);
    }

    /** `add_ltkey`. */
    method AddLtkey(snum: seq<byte>, ltkey: seq<byte>)
      requires Valid() && |snum| == SERIAL && |ltkey| == KEY
      modifies this, nodes
      ensures Valid() && Entries() == Put(old(Entries()), snum, ltkey)
      ensures Map(Entries()) == old(Map(Entries()))[snum := ltkey]
      ensures fresh(set n | n in nodes && n !in old(nodes))
    {
      hide Map, Distinct, Replaced, Chain, EntriesOf;
      ghost var es := Entries();
      PutIsUpdate(es, snum, ltkey);
      var ent, i := FindLtkey(snum);
      if ent == null {
        Prepend(snum, ltkey);
      } else {
        ReplacedAt(es, i, ltkey);
        Overwrite(ent, i, ltkey);
      }
    }

    method Prepend(snum: seq<byte>, ltkey: seq<byte>)
      requires Chain(ents, nodes)
      modifies this
      ensures Chain(ents, nodes) && Entries() == [Entry(snum, ltkey)] + old(Entries())
      ensures |nodes| == |old(nodes)| + 1 && fresh(nodes[0]) && nodes[1..] == old(nodes)
    {
      var ent := new Node(snum, ltkey, ents);
      ents, nodes := ent, [ent] + nodes;
      assert EntriesOf(nodes) == [Entry(snum, ltkey)] + old(EntriesOf(nodes));
    }

    method Overwrite(ent: Node, ghost i: nat, ltkey: seq<byte>)
      requires Chain(ents, nodes) && i < |nodes| && ent == nodes[i]
      modifies ent`ltkey
      ensures Chain(ents, nodes) && Entries() == old(Entries())[i := Entry(ent.snum, ltkey)]
    {
      ent.ltkey := ltkey;
    }

    /**
      * `write_keyring`: what ends up in the file, and the number that is returned. It is meant to be the number of
      * entries, which it is for an empty keyring only.
      */
    method WriteKeyring() returns (text: seq<byte>, count: nat)
      requires Valid()
      ensures text == KeyringText(Entries())
      ensures count == 0 && (count == |Map(Entries())| <==> Map(Entries()) == map[])
    {
      hide KeyLine, KeyLines, Distinct;
      ghost var es := Entries();
      text := HEADER + [NEWLINE];
      var base := ents;
      ghost var i := 0;
      NoLines();
      assert es[..0] == [];
      assert text + [] == text;
      while base != null
        invariant 0 <= i <= |nodes| && base == At(nodes, i)
        invariant text == HEADER + [NEWLINE] + KeyLines(es[..i])
        decreases |nodes| - i
      {
        GoodAt(es, i);
        LinesSnoc(es, i);
        var line := OutputKey(base.snum, base.ltkey);
        text := text + line;
        base := base.next;
        i := i + 1;
      }
      assert es[..i] == es;
      count := 0;
    }

    /** `read_keyring`, from the text of the file; the two buffers start with whatever they happen to hold. */
    method ReadKeyring(text: seq<byte>) returns (keys: nat, ghost start: Reading)
      modifies this
      ensures Valid() && start.es == [] && start.keys == 0 && GoodReading(start)
      ensures Entries() == ReadText(start, text).es && keys == ReadText(start, text).keys
    {
      hide ReadText, ReadLine, Distinct, Chain, EntriesOf, LineLength, SevenBit;
      var snum := new byte[12];
      var ltkey := new byte[33];
      var snumpem := NewText(17);
      var ltkeypem := NewText(45);
      ents, nodes := null, [];
      keys := 0;
      start := Reading([], 0, snum[..], ltkey[..]);
      Emptied();
      var rest := text;
      while rest != []
        invariant Valid() && fresh(nodes)
        invariant SevenBit(snumpem[..]) && SevenBit(ltkeypem[..])
        invariant ReadText(Reading(Entries(), keys, snum[..], ltkey[..]), rest) == ReadText(start, text)
        decreases |rest|
      {
        var n := LineLength(rest);
        TextStep(Reading(Entries(), keys, snum[..], ltkey[..]), rest);
        keys := ReadOne(rest[..n], keys, snumpem, ltkeypem, snum, ltkey);
        rest := rest[n..];
      }
      TextDone(Reading(Entries(), keys, snum[..], ltkey[..]));
    }

    lemma Emptied()
      requires ents == null && nodes == []
      ensures Valid() && Entries() == []
    {
    }

    /** One line. */
    method ReadOne(
      line: seq<byte>, keys: nat, snumpem: array<byte>, ltkeypem: array<byte>, snum: array<byte>, ltkey: array<byte>)
      returns (count: nat)
      requires Valid() && snumpem.Length == 17 && ltkeypem.Length == 45 && snum.Length == 12 && ltkey.Length == 33
      requires snumpem != ltkeypem && snumpem != snum && snumpem != ltkey && ltkeypem != snum && ltkeypem != ltkey
      requires snum != ltkey && SevenBit(snumpem[..]) && SevenBit(ltkeypem[..])
      modifies this, nodes, snumpem, ltkeypem, snum, ltkey
      ensures Valid() && SevenBit(snumpem[..]) && SevenBit(ltkeypem[..])
      ensures fresh(set n | n in nodes && n !in old(nodes))
      ensures Reading(Entries(), count, snum[..], ltkey[..])
        == ReadLine(Reading(old(Entries()), keys, old(snum[..]), old(ltkey[..])), line)
    {
      hide Scan, Put, Distinct, Map, Chain, EntriesOf, InClass, Into, SevenBit;
      var s := Scan(line);
      count := keys;
      if s.res == 2 {
        DecodeField(s.first, snumpem, 16, snum);
        DecodeField(s.second, ltkeypem, 44, ltkey);
        AddLtkey(snum[..], ltkey[..32]);
        count := count + 1;
      }
    }
  }

  /** A text buffer; what it holds before the first line does not matter. */
  method NewText(size: nat) returns (a: array<byte>)
    ensures fresh(a) && a.Length == size && SevenBit(a[..])
  {
    a := new byte[size](_ => 0);
  }

  /** The scanned field, with its NUL, is put into a text buffer and decoded from there. */
  method DecodeField(field: seq<byte>, pem: array<byte>, width: nat, out: array<byte>)
    requires |field| <= width < pem.Length && pem != out && 3 * (width / 4) <= out.Length && width % 4 == 0
    requires (forall i :: 0 <= i < |field| ==> InClass(field[i])) && SevenBit(pem[..])
    modifies pem, out
    ensures SevenBit(pem[..]) && out[..] == Into(old(out[..]), field)
  {
    hide InClass, Pem.Decode;
    ClassText(field);
    var i := 0;
    while i < |field|
      invariant 0 <= i <= |field| && pem[..i] == field[..i] && SevenBit(pem[..]) && out[..] == old(out[..])
    {
      pem[i] := field[i];
      i := i + 1;
    }
    pem[i] := 0;
    ghost var t := pem[0..width];
    if |field| < width {
      ghost var rest := pem[|field| + 1..width];
      forall j | 0 <= j < width
        ensures t[j] == (field + [0] + rest)[j]
      {
        assert t[j] == pem[j];
      }
      assert t == field + [0] + rest;
      NulStops(field, rest);
    } else {
      assert t == field;
    }
    assert Pem.Decode(t) == Pem.Decode(field);
    Pem.DecodeLength(t);
    var len := Pem.DecodeBytes(pem, 0, width, out);
  }

  /** Whatever stands behind the NUL, only what is in front of it is decoded. */
  lemma {:induction false} NulStops(field: seq<byte>, rest: seq<byte>)
    requires (forall i :: 0 <= i < |field| ==> InClass(field[i])) && SevenBit(rest)
    ensures SevenBit(field) && SevenBit(field + [0] + rest)
    ensures Pem.Decode(field + [0] + rest) == Pem.Decode(field)
  {
    hide InClass, Pem.DecodeQuad;
    ClassText(field);
    var t := field + [0] + rest;
    if |field| >= 4 {
      assert t[..4] == field[..4] && t[4..] == field[4..] + [0] + rest;
      NulStops(field[4..], rest);
    } else if |t| >= 4 {
      assert t[..4][|field|] == 0;
      assert !Pem.GoodQuad(t[..4]);
    }
  }

  /** `output_key`: 16 characters, a space and 44 characters in a buffer of 128 bytes, and a newline. */
  method OutputKey(snum: seq<byte>, ltkey: seq<byte>) returns (line: seq<byte>)
    requires |snum| == SERIAL && |ltkey| == KEY
    ensures line == KeyLine(Entry(snum, ltkey))
  {
    hide Pem.Encode;
    var s := new byte[12](i requires 0 <= i < 12 => snum[i]);
    var k := new byte[32](i requires 0 <= i < 32 => ltkey[i]);
    var data := new byte[128];
    assert s[0..12] == snum && k[0..32] == ltkey;
    var n := Pem.EncodeBytes(s, 0, 12, data, 0);
    data[16] := SPACE;
    assert data[..17] == Pem.Encode(snum) + [SPACE];
    var m := Pem.EncodeBytes(k, 0, 32, data, 17);
    assert data[..61] == Pem.Encode(snum) + [SPACE] + Pem.Encode(ltkey);
    data[61] := 0;
    line := data[..61] + [NEWLINE];
  }

  lemma NoLines()
    ensures KeyLines([]) == []
  {
  }

  lemma {:induction false} GoodAt(es: seq<Entry>, i: nat)
    requires Distinct(es) && i < |es|
    ensures GoodEntry(es[i])
  {
    if i > 0 {
      GoodAt(es[1..], i - 1);
    }
  }

  lemma {:induction false} LinesSnoc(es: seq<Entry>, i: nat)
    requires i < |es|
    ensures KeyLines(es[..i + 1]) == KeyLines(es[..i]) + KeyLine(es[i])
  {
    hide KeyLine;
    if i == 0 {
      assert es[..1] == [es[0]];
    } else {
      LinesSnoc(es[1..], i - 1);
      assert es[..i + 1][1..] == es[1..][..i] && es[..i][1..] == es[1..][..i - 1];
    }
  }

  lemma TextStep(r: Reading, text: seq<byte>)
    requires GoodReading(r) && text != []
    ensures ReadText(r, text) == ReadText(ReadLine(r, text[..LineLength(text)]), text[LineLength(text)..])
  {
    hide ReadLine;
  }

  lemma TextDone(r: Reading)
    requires GoodReading(r)
    ensures ReadText(r, []) == r
  {
  }
}
