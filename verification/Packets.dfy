/** The constructors, the parser and the two functions that patch a finished packet, on packets in memory. */
module Packets {
  import opened Bytes
  import opened Cbuf
  import opened Wire
  import opened Codec

  /** A constructor: np_create_common, its puts, and np_post_check. */
  method Create(m: Call, dotu: bool) returns (pkt: array?<Byte>)
    requires FitsCall(m, dotu)
    ensures pkt != null ==> fresh(pkt) && pkt.Length == Build(m, dotu).size + 7
    ensures pkt != null ==> Created(m, dotu, pkt[..]) == Some(pkt[..])
    ensures pkt == null <==> Refused(m) || Filled(m, dotu).over
  {
    if Refused(m) { return null; }
    pkt := Fill(Build(m, dotu));
    if pkt != null { Rejoin(pkt[..], Filled(m, dotu).out); }
  }

  lemma Rejoin(s: seq<Byte>, out: seq<Byte>)
    requires |out| <= |s| && s[..|out|] == out
    ensures out + s[|out|..] == s
  {
  }

  method Fill(b: Built) returns (pkt: array?<Byte>)
    requires forall i :: 0 <= i < |b.vals| ==> Fits(b.vals[i])
    ensures pkt == null <==> FilledBy(b).over
    ensures pkt != null ==> fresh(pkt) && pkt.Length == b.size + 7
    ensures pkt != null ==> pkt[..|FilledBy(b).out|] == FilledBy(b).out
  {
    pkt := new Byte[b.size + 7];
    var buf := new Cbuf(pkt, 0, b.size + 7);
    PutHeader(buf, b.size + 7, b.typ);
    PutValues(buf, b.vals);
    var over := buf.CheckOverflow();
    if over { return null; }
  }

  method PutHeader(buf: Cbuf, size: nat, typ: nat)
    requires buf.Valid()
    modifies buf`p, buf.data
    ensures buf.Valid() && buf.Written() == PutAll(old(buf.Written()), Header(size, typ, NoTag))
  {
    ghost var w, h := buf.Written(), Header(size, typ, NoTag);
    buf.PutInt32(size);
    buf.PutInt8(typ);
    buf.PutInt16(NoTag);
    assert h[1..] == [h[1], h[2]] && h[1..][1..] == [h[2]];
    ghost var w2 := Put(Put(w, h[0]), h[1]);
    assert PutAll(w2, [h[2]]) == Put(w2, h[2]);
  }

  method PutValues(buf: Cbuf, vals: seq<Value>)
    requires buf.Valid() && forall i :: 0 <= i < |vals| ==> Fits(vals[i])
    modifies buf`p, buf.data
    ensures buf.Valid() && buf.Written() == PutAll(old(buf.Written()), AllChunks(vals))
    ensures buf.data[..buf.sp] == old(buf.data[..buf.sp]) && buf.data[buf.ep..] == old(buf.data[buf.ep..])
  {
    ghost var w := buf.Written();
    for i := 0 to |vals|
      invariant buf.Valid()
      invariant PutAll(buf.Written(), AllChunks(vals[i..])) == PutAll(w, AllChunks(vals))
      invariant buf.data[..buf.sp] == old(buf.data[..buf.sp]) && buf.data[buf.ep..] == old(buf.data[buf.ep..])
    {
      ghost var here := buf.Written();
      PutValue(buf, vals[i]);
      assert vals[i..][1..] == vals[i + 1..];
      PutAllConcat(here, Chunks(vals[i]), AllChunks(vals[i + 1..]));
    }
  }

  /** np_deserialize. */
  method Deserialize(data: array<Byte>, dotu: bool) returns (r: Option<Parsed>)
    requires data.Length >= 4 && UnLE(data[..4]) <= data.Length
    ensures r == Parse(data[..], dotu)
  {
    ghost var pkt := data[..];
    assert pkt[..4] == data[..4];
    var buf := new Cbuf(data, 0, 4);
    assert data[0..4][0..4] == pkt[..4];
    var size := buf.GetInt(4);
    if size < 4 || size >= WildSize { return None; }
    buf := new Cbuf(data, 4, size - 4);
    ghost var c := buf.Reading();
    assert c == Reader(pkt[4..size], 0, false);
    var typ := buf.GetInt(1);
    var tag := buf.GetInt(2);
    assert Parse(pkt, dotu) == ParseFields(size, typ, tag, Layout(typ, dotu), buf.Reading());
    r := ReadLayout(buf, size, typ, tag, Layout(typ, dotu));
  }

  method ReadLayout(buf: Cbuf, size: nat, typ: nat, tag: nat, layout: Option<seq<Field>>) returns (r: Option<Parsed>)
    requires buf.Valid()
    modifies buf`p
    ensures r == ParseFields(size, typ, tag, layout, old(buf.Reading()))
  {
    if layout.None? { return None; }
    var vals := ReadFields(buf, layout.value);
    if vals.None? { return None; }
    var over := buf.CheckOverflow();
    if over { return None; }
    return Some(Parsed(Fcall(size, typ, tag, vals.value), Reader(buf.data[buf.sp..buf.ep], buf.p - buf.sp, false)));
  }

  method ReadFields(buf: Cbuf, fields: seq<Field>) returns (r: Option<seq<Value>>)
    requires buf.Valid()
    modifies buf`p
    ensures buf.Valid() && Got(r, buf.Reading()) == GetAll(old(buf.Reading()), fields)
  {
    var vals := [];
    ghost var c := buf.Reading();
    for i := 0 to |fields|
      invariant buf.Valid() && GetAll(c, fields[..i]) == Got(Some(vals), buf.Reading())
    {
      GetAllStep(c, fields, i, vals, buf.Reading());
      var v := ReadField(buf, fields[i]);
      if v.None? { return None; }
      vals := vals + [v.value];
    }
    assert fields[..|fields|] == fields;
    return Some(vals);
  }

  lemma {:induction false} GetAllStep(c: Reader, fields: seq<Field>, i: nat, vals: seq<Value>, here: Reader)
    requires i < |fields| && GetAll(c, fields[..i]) == Got(Some(vals), here)
    ensures var g := GetField(here, fields[i]);
      if g.value.None? then GetAll(c, fields) == Got(None, g.c)
      else GetAll(c, fields[..i + 1]) == Got(Some(vals + [g.value.value]), g.c)
  {
    var g := GetField(here, fields[i]);
    if g.value.None? {
      var more := fields[i..];
      assert fields[..i] + more == fields && GetAll(here, more) == Got(None, g.c);
      GetAllConcat(c, fields[..i], more, vals, here);
    } else {
      GetAllOne(here, fields[i]);
      GetAllConcat(c, fields[..i], [fields[i]], vals, here);
      assert fields[..i] + [fields[i]] == fields[..i + 1];
    }
  }

  lemma {:induction false} GetAllOne(c: Reader, f: Field)
    requires GetField(c, f).value.Some?
    ensures var g := GetField(c, f); GetAll(c, [f]) == Got(Some([g.value.value]), g.c)
  {
    var g := GetField(c, f);
    assert [f][1..] == [] && GetAll(g.c, []) == Got(Some([]), g.c);
    assert [g.value.value] + [] == [g.value.value];
  }

  /** np_set_tag. */
  method SetTag(pkt: array<Byte>, tag: nat)
    requires pkt.Length >= 7
    modifies pkt
    ensures pkt[..] == old(pkt[..5]) + LE(tag, 2) + old(pkt[7..])
  {
    LEBytes(tag);
    pkt[5], pkt[6] := tag % 256, tag / 0x100 % 256;
  }

  /** np_set_rread_count. */
  method SetRreadCount(pkt: array<Byte>, count: nat)
    requires pkt.Length >= 11 + count
    modifies pkt
    ensures pkt[..4] == LE(11 + count, 4) && pkt[4..7] == old(pkt[4..7])
    ensures pkt[7..11] == LE(count, 4) && pkt[11..] == old(pkt[11..])
  {
    var size := 4 + 1 + 2 + 4 + count;
    ghost var was := pkt[..];
    PutInt32At(pkt, 0, size, size);
    ghost var mid := pkt[..];
    PutInt32At(pkt, 7, size - 7, count);
    assert pkt[..7] == mid[..7] && mid[4..] == was[4..] && mid[4..][..3] == mid[4..7] && mid[4..][7..] == mid[11..];
  }

  method PutInt32At(pkt: array<Byte>, sp: nat, len: nat, v: nat)
    requires 4 <= len && sp + len <= pkt.Length
    modifies pkt
    ensures pkt[..sp] == old(pkt[..sp]) && pkt[sp..sp + 4] == LE(v, 4) && pkt[sp + 4..] == old(pkt[sp + 4..])
  {
    var buf := new Cbuf(pkt, sp, len);
    buf.PutInt32(v);
    assert buf.Written().out == LE(v, 4);
  }

  /** Patching the tag changes nothing else the parser sees. */
  lemma {:induction false} TaggedReadsBack(m: Call, dotu: bool, junk: seq<Byte>, tag: nat)
    requires FitsCall(m, dotu) && !Refused(m) && |junk| == Build(m, dotu).size + 7 && tag < 0x1_0000
    requires !Missized(m, dotu) && !ReadDifferently(m, dotu)
    ensures var b, pkt := Build(m, dotu), Created(m, dotu, junk);
      && pkt.Some? && |pkt.value| == b.size + 7
      && var tagged := pkt.value[..5] + LE(tag, 2) + pkt.value[7..];
         && UnLE(tagged[..4]) == b.size + 7
         && var p := Parse(tagged, dotu); p.Some? && p.value.call == Fcall(b.size + 7, b.typ, tag, b.vals)
  {
    Agrees(m, dotu);
    CreatedExactly(m, dotu, junk);
    var b := Build(m, dotu);
    Retagged(b, tag, dotu);
  }

  lemma {:induction false} Retagged(b: Built, tag: nat, dotu: bool)
    requires Whole(b) && LayoutAgrees(b, dotu) && tag < 0x1_0000
    ensures var pkt := Packet(b.typ, NoTag, b.size + 7, EncAll(b.vals));
      |pkt| == b.size + 7
      && var tagged := pkt[..5] + LE(tag, 2) + pkt[7..];
         && UnLE(tagged[..4]) == b.size + 7
         && var p := Parse(tagged, dotu); p.Some? && p.value.call == Fcall(b.size + 7, b.typ, tag, b.vals)
  {
    var pkt := Packet(b.typ, NoTag, b.size + 7, EncAll(b.vals));
    assert pkt[..5] + LE(tag, 2) + pkt[7..] == Packet(b.typ, tag, b.size + 7, EncAll(b.vals));
    Tailless(b.typ, tag, b.size + 7, EncAll(b.vals));
    PacketReadsBack(b.typ, tag, b.vals, [], dotu);
  }

  /** A reply to Tread cut down to count bytes reads back as those bytes, under its tag, whatever stands behind it. */
  lemma ShortenedReadsBack(pkt: seq<Byte>, tag: nat, data: seq<Byte>, count: nat, dotu: bool)
    requires tag < 0x1_0000 && count <= |data| && count + 11 < 0x8000_0000 && |pkt| >= 11
    requires pkt[..4] == LE(11 + count, 4) && pkt[4..7] == LE(117, 1) + LE(tag, 2)
    requires pkt[7..11] == LE(count, 4) && pkt[11..] == data
    ensures UnLE(pkt[..4]) == 11 + count <= |pkt|
    ensures var p := Parse(pkt, dotu); p.Some? && p.value.call == Fcall(11 + count, 117, tag, [Data(data[..count])])
  {
    var d := data[..count];
    assert data == d + data[count..];
    Glue(pkt, LE(11 + count, 4), LE(117, 1), LE(tag, 2), LE(count, 4), d, data[count..]);
    RreadReadsBack(tag, d, data[count..], dotu);
  }

  lemma {:induction false} RreadReadsBack(tag: nat, d: seq<Byte>, tail: seq<Byte>, dotu: bool)
    requires tag < 0x1_0000 && |d| + 11 < 0x8000_0000
    ensures var enc := EncAll([Data(d)]);
      var pkt := Packet(117, tag, |enc| + 7, enc) + tail;
      && enc == LE(|d|, 4) + d
      && UnLE(pkt[..4]) == |enc| + 7
      && Parse(pkt, dotu) ==
         Some(Parsed(Fcall(|enc| + 7, 117, tag, [Data(d)]), BodyReader(117, tag, enc).(p := |enc| + 3)))
  {
    DataAlone(d);
    RreadLayout(d, dotu);
    PacketReadsBack(117, tag, [Data(d)], tail, dotu);
  }

  lemma RreadLayout(d: seq<Byte>, dotu: bool)
    ensures Layout(117, dotu) == Some(FieldsOf([Data(d)]))
  {
    assert FieldsOf([Data(d)]) == [FData];
  }

  lemma Glue(s: seq<Byte>, a: seq<Byte>, b: seq<Byte>, c: seq<Byte>, d: seq<Byte>, e: seq<Byte>, f: seq<Byte>)
    requires |s| >= 11 && s[..4] == a && s[4..7] == b + c && s[7..11] == d && s[11..] == e + f
    ensures s == (a + (b + (c + (d + e)))) + f
  {
    assert s == s[..4] + (s[4..7] + (s[7..11] + s[11..]));
  }

  lemma {:induction false} DataAlone(d: seq<Byte>)
    ensures EncAll([Data(d)]) == LE(|d|, 4) + d
  {
    EncAllCons([Data(d)]);
    assert Chunks(Data(d))[1..] == [d];
    FlatOne(d);
    assert [Data(d)][1..] == [] && EncAll([]) == [];
    assert Enc(Data(d)) + [] == Enc(Data(d));
  }
}
