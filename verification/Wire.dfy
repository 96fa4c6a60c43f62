/** The values a 9P message is made of, how np.c writes each of them and how it reads each of them back. */
module Wire {
  import opened Bytes
  import opened Cbuf

  const MaxWelem := 16

  datatype QidVal = QidVal(typ: nat, version: nat, path: nat)

  /** A value on the wire. Null and NullData are what a reader is left with when the count is there and the
      bytes are not; Wild is a count that a C int makes negative. */
  datatype Value =
    | U8(n: nat) | U16(n: nat) | U32(n: nat) | U64(n: nat)
    | Str(s: seq<Byte>) | Null(len: nat)
    | Qid(q: QidVal)
    | Data(d: seq<Byte>) | NullData(count: nat) | Wild(count: nat)
    | Names(names: seq<Value>)
    | Qids(qids: seq<QidVal>)

  /** What a reader expects next. */
  datatype Field = F8 | F16 | F32 | F64 | FStr | FQid | FData | FNames | FQids

  function FieldOf(v: Value): Field {
    match v
    case U8(_) => F8 case U16(_) => F16 case U32(_) => F32 case U64(_) => F64
    case Str(_) => FStr case Null(_) => FStr
    case Qid(_) => FQid
    case Data(_) => FData case NullData(_) => FData case Wild(_) => FData
    case Names(_) => FNames
    case Qids(_) => FQids
  }

  function FieldsOf(vals: seq<Value>): (r: seq<Field>)
    ensures |r| == |vals|
  {
    seq(|vals|, i requires 0 <= i < |vals| => FieldOf(vals[i]))
  }

  ghost predicate FitsQid(q: QidVal) { q.typ < 0x100 && q.version < 0x1_0000_0000 && q.path < 0x1_0000_0000_0000_0000 }

  /** The value is one the C types can hold, and one a writer can be given. */
  ghost predicate Fits(v: Value) {
    match v
    case U8(n) => n < 0x100 case U16(n) => n < 0x1_0000 case U32(n) => n < 0x1_0000_0000
    case U64(n) => n < 0x1_0000_0000_0000_0000
    case Str(s) => |s| < 0x1_0000
    case Qid(q) => FitsQid(q)
    case Data(d) => |d| < 0x8000_0000
    case Names(names) =>
      |names| <= MaxWelem && forall i :: 0 <= i < |names| ==> names[i].Str? && |names[i].s| < 0x1_0000
    case Qids(qids) => |qids| <= MaxWelem && forall i :: 0 <= i < |qids| ==> FitsQid(qids[i])
    case Null(_) => false case NullData(_) => false case Wild(_) => false
  }

  // ---- writing

  /** The pieces a value is put in, each checked for room on its own. */
  function Chunks(v: Value): seq<seq<Byte>> {
    match v
    case U8(n) => [LE(n, 1)] case U16(n) => [LE(n, 2)] case U32(n) => [LE(n, 4)] case U64(n) => [LE(n, 8)]
    case Str(s) => [LE(|s|, 2) + s]
    case Qid(q) => QidChunks(q)
    case Data(d) => [LE(|d|, 4), d]
    case Names(names) => [LE(|names|, 2)] + AllChunks(names)
    case Qids(qids) => [LE(|qids|, 2)] + AllQidChunks(qids)
    case Null(_) => [] case NullData(_) => [] case Wild(_) => []
  }

  function QidChunks(q: QidVal): seq<seq<Byte>> { [LE(q.typ, 1), LE(q.version, 4), LE(q.path, 8)] }

  function AllChunks(vals: seq<Value>): seq<seq<Byte>> {
    if vals == [] then [] else Chunks(vals[0]) + AllChunks(vals[1..])
  }

  function AllQidChunks(qids: seq<QidVal>): seq<seq<Byte>> {
    if qids == [] then [] else QidChunks(qids[0]) + AllQidChunks(qids[1..])
  }

  function Enc(v: Value): seq<Byte> { Flat(Chunks(v)) }

  function EncAll(vals: seq<Value>): seq<Byte> { Flat(AllChunks(vals)) }

  lemma EncAllCons(vals: seq<Value>)
    requires vals != []
    ensures EncAll(vals) == Enc(vals[0]) + EncAll(vals[1..])
  {
    FlatConcat(Chunks(vals[0]), AllChunks(vals[1..]));
  }

  lemma {:induction false} EncQidsCons(qids: seq<QidVal>)
    requires qids != []
    ensures Flat(AllQidChunks(qids)) == Flat(QidChunks(qids[0])) + Flat(AllQidChunks(qids[1..]))
  {
    FlatConcat(QidChunks(qids[0]), AllQidChunks(qids[1..]));
  }

  // ---- reading

  /** A value read, and the cursor after it; no value where the parser gives up on the message. */
  datatype Got<T> = Got(value: Option<T>, c: Reader)

  function GetStr(c: Reader): (Value, Reader) {
    var len, c1 := Int(c, 2), Skip(c, 2);
    match Take(c1, len)
    case Some(b) => (Str(b), Skip(c1, len))
    case None => (Null(len), Skip(c1, len))
  }

  function GetQid(c: Reader): (QidVal, Reader) {
    var c1 := Skip(c, 1);
    var c2 := Skip(c1, 4);
    (QidVal(Int(c, 1), Int(c1, 4), Int(c2, 8)), Skip(c2, 8))
  }

  function GetNames(c: Reader, n: nat): (seq<Value>, Reader)
    decreases n
  {
    if n == 0 then ([], c)
    else
      var (v, c1) := GetStr(c);
      var (rest, c2) := GetNames(c1, n - 1);
      ([v] + rest, c2)
  }

  function GetQids(c: Reader, n: nat): (seq<QidVal>, Reader)
    decreases n
  {
    if n == 0 then ([], c)
    else
      var (q, c1) := GetQid(c);
      var (rest, c2) := GetQids(c1, n - 1);
      ([q] + rest, c2)
  }

  function GetData(c: Reader): (Value, Reader) {
    var n, c1 := Int(c, 4), Skip(c, 4);
    if n >= 0x8000_0000 then (Wild(n), c1)
    else match Take(c1, n)
      case Some(b) => (Data(b), Skip(c1, n))
      case None => (NullData(n), Skip(c1, n))
  }

  function GetField(c: Reader, f: Field): Got<Value> {
    match f
    case F8 => Got(Some(U8(Int(c, 1))), Skip(c, 1))
    case F16 => Got(Some(U16(Int(c, 2))), Skip(c, 2))
    case F32 => Got(Some(U32(Int(c, 4))), Skip(c, 4))
    case F64 => Got(Some(U64(Int(c, 8))), Skip(c, 8))
    case FStr => var (v, c1) := GetStr(c); Got(Some(v), c1)
    case FQid => var (q, c1) := GetQid(c); Got(Some(Qid(q)), c1)
    case FData => var (v, c1) := GetData(c); Got(Some(v), c1)
    case FNames =>
      var n, c1 := Int(c, 2), Skip(c, 2);
      if n > MaxWelem then Got(None, c1) else var (names, c2) := GetNames(c1, n); Got(Some(Names(names)), c2)
    case FQids =>
      var n, c1 := Int(c, 2), Skip(c, 2);
      if n > MaxWelem then Got(None, c1) else var (qids, c2) := GetQids(c1, n); Got(Some(Qids(qids)), c2)
  }

  function GetAll(c: Reader, fields: seq<Field>): Got<seq<Value>>
    decreases |fields|
  {
    if fields == [] then Got(Some([]), c)
    else
      var g := GetField(c, fields[0]);
      if g.value.None? then Got(None, g.c)
      else
        var rest := GetAll(g.c, fields[1..]);
        if rest.value.None? then rest else Got(Some([g.value.value] + rest.value.value), rest.c)
  }

  // ---- reading back what was written

  /** The bytes enc stand at the cursor. */
  ghost predicate Ahead(c: Reader, enc: seq<Byte>) {
    !c.over && c.p + |enc| <= |c.s| && c.s[c.p..c.p + |enc|] == enc
  }

  function Past(c: Reader, enc: seq<Byte>): Reader { c.(p := c.p + |enc|) }

  lemma FlatOne(x: seq<Byte>)
    ensures Flat([x]) == x
  {
    assert [x][1..] == [] && x + [] == x;
  }

  lemma AheadSplit(c: Reader, a: seq<Byte>, b: seq<Byte>)
    requires Ahead(c, a + b)
    ensures Ahead(c, a) && Ahead(Past(c, a), b) && Past(Past(c, a), b) == Past(c, a + b)
  {
    var w := c.s[c.p..c.p + |a + b|];
    assert w[..|a|] == a && w[|a|..] == b;
    assert c.s[c.p..c.p + |a|] == w[..|a|];
    assert c.s[c.p + |a|..c.p + |a| + |b|] == w[|a|..];
  }

  lemma {:induction false} IntAhead(c: Reader, n: nat, k: nat)
    requires n < Pow256(k) && Ahead(c, LE(n, k))
    ensures Int(c, k) == n && Skip(c, k) == Past(c, LE(n, k))
  {
    UnLEOfLE(n, k);
  }

  lemma {:induction false} StrAhead(c: Reader, s: seq<Byte>)
    requires |s| < 0x1_0000 && Ahead(c, LE(|s|, 2) + s)
    ensures GetStr(c) == (Str(s), Past(c, LE(|s|, 2) + s))
  {
    PowValues();
    AheadSplit(c, LE(|s|, 2), s);
    IntAhead(c, |s|, 2);
  }

  lemma QidAhead(c: Reader, q: QidVal)
    requires FitsQid(q) && Ahead(c, Flat(QidChunks(q)))
    ensures GetQid(c) == (q, Past(c, Flat(QidChunks(q))))
  {
    PowValues();
    var a, b, d := LE(q.typ, 1), LE(q.version, 4), LE(q.path, 8);
    FlatOne(d);
    assert Flat([b, d]) == b + d by { assert [b, d][1..] == [d]; }
    assert Flat(QidChunks(q)) == a + (b + d) by { assert QidChunks(q)[1..] == [b, d]; }
    AheadSplit(c, a, b + d);
    AheadSplit(Past(c, a), b, d);
    IntAhead(c, q.typ, 1);
    IntAhead(Past(c, a), q.version, 4);
    IntAhead(Past(Past(c, a), b), q.path, 8);
  }

  lemma {:induction false} NamesAhead(c: Reader, names: seq<Value>)
    requires forall i :: 0 <= i < |names| ==> names[i].Str? && |names[i].s| < 0x1_0000
    requires Ahead(c, EncAll(names))
    ensures GetNames(c, |names|) == (names, Past(c, EncAll(names)))
    decreases |names|
  {
    if names != [] {
      EncAllCons(names);
      var e := LE(|names[0].s|, 2) + names[0].s;
      FlatOne(e);
      AheadSplit(c, e, EncAll(names[1..]));
      StrAhead(c, names[0].s);
      NamesAhead(Past(c, e), names[1..]);
      assert names == [names[0]] + names[1..];
    }
  }

  lemma {:induction false} QidsAhead(c: Reader, qids: seq<QidVal>)
    requires forall i :: 0 <= i < |qids| ==> FitsQid(qids[i])
    requires Ahead(c, Flat(AllQidChunks(qids)))
    ensures GetQids(c, |qids|) == (qids, Past(c, Flat(AllQidChunks(qids))))
    decreases |qids|
  {
    if qids != [] {
      EncQidsCons(qids);
      var e := Flat(QidChunks(qids[0]));
      AheadSplit(c, e, Flat(AllQidChunks(qids[1..])));
      QidAhead(c, qids[0]);
      QidsAhead(Past(c, e), qids[1..]);
      assert qids == [qids[0]] + qids[1..];
    }
  }

  lemma {:induction false} DataAhead(c: Reader, d: seq<Byte>)
    requires |d| < 0x8000_0000 && Ahead(c, LE(|d|, 4) + d)
    ensures GetData(c) == (Data(d), Past(c, LE(|d|, 4) + d))
  {
    PowValues();
    AheadSplit(c, LE(|d|, 4), d);
    IntAhead(c, |d|, 4);
  }

  lemma DataFieldAhead(c: Reader, d: seq<Byte>)
    requires Fits(Data(d)) && Ahead(c, Enc(Data(d)))
    ensures GetField(c, FData) == Got(Some(Data(d)), Past(c, Enc(Data(d))))
  {
    FlatOne(d);
    assert Enc(Data(d)) == LE(|d|, 4) + d by { assert Chunks(Data(d))[1..] == [d]; }
    DataAhead(c, d);
  }

  lemma NamesFieldAhead(c: Reader, names: seq<Value>)
    requires Fits(Names(names)) && Ahead(c, Enc(Names(names)))
    ensures GetField(c, FNames) == Got(Some(Names(names)), Past(c, Enc(Names(names))))
  {
    PowValues();
    var head := LE(|names|, 2);
    assert Enc(Names(names)) == head + EncAll(names) by { assert Chunks(Names(names))[1..] == AllChunks(names); }
    AheadSplit(c, head, EncAll(names));
    IntAhead(c, |names|, 2);
    NamesAhead(Past(c, head), names);
  }

  lemma QidsFieldAhead(c: Reader, qids: seq<QidVal>)
    requires Fits(Qids(qids)) && Ahead(c, Enc(Qids(qids)))
    ensures GetField(c, FQids) == Got(Some(Qids(qids)), Past(c, Enc(Qids(qids))))
  {
    PowValues();
    var head := LE(|qids|, 2);
    assert Enc(Qids(qids)) == head + Flat(AllQidChunks(qids))
      by { assert Chunks(Qids(qids))[1..] == AllQidChunks(qids); }
    AheadSplit(c, head, Flat(AllQidChunks(qids)));
    IntAhead(c, |qids|, 2);
    QidsAhead(Past(c, head), qids);
  }

  lemma FieldAhead(c: Reader, v: Value)
    requires Fits(v) && Ahead(c, Enc(v))
    ensures GetField(c, FieldOf(v)) == Got(Some(v), Past(c, Enc(v)))
  {
    PowValues();
    match v
    case U8(n) => FlatOne(LE(n, 1)); IntAhead(c, n, 1);
    case U16(n) => FlatOne(LE(n, 2)); IntAhead(c, n, 2);
    case U32(n) => FlatOne(LE(n, 4)); IntAhead(c, n, 4);
    case U64(n) => FlatOne(LE(n, 8)); IntAhead(c, n, 8);
    case Str(s) => FlatOne(LE(|s|, 2) + s); StrAhead(c, s);
    case Qid(q) => QidAhead(c, q);
    case Data(d) => DataFieldAhead(c, d);
    case Names(names) => NamesFieldAhead(c, names);
    case Qids(qids) => QidsFieldAhead(c, qids);
  }

  lemma {:induction false} GetAllCons(c: Reader, f: Field, fields: seq<Field>, v: Value, vals: seq<Value>, c1: Reader,
                                      c2: Reader)
    requires GetField(c, f) == Got(Some(v), c1) && GetAll(c1, fields) == Got(Some(vals), c2)
    ensures GetAll(c, [f] + fields) == Got(Some([v] + vals), c2)
  {
    assert ([f] + fields)[1..] == fields;
  }

  /** Every list of values reads back, field by field, and the cursor ends right after it. */
  lemma {:induction false} AllAhead(c: Reader, vals: seq<Value>)
    requires (forall i :: 0 <= i < |vals| ==> Fits(vals[i])) && Ahead(c, EncAll(vals))
    ensures GetAll(c, FieldsOf(vals)) == Got(Some(vals), Past(c, EncAll(vals)))
    decreases |vals|
  {
    if vals != [] {
      var v, rest := vals[0], vals[1..];
      EncAllCons(vals);
      AheadSplit(c, Enc(v), EncAll(rest));
      var c1 := Past(c, Enc(v));
      FieldAhead(c, v);
      AllAhead(c1, rest);
      GetAllCons(c, FieldOf(v), FieldsOf(rest), v, rest, c1, Past(c1, EncAll(rest)));
      assert FieldsOf(vals) == [FieldOf(v)] + FieldsOf(rest);
      assert vals == [v] + rest;
    }
  }

  // ---- the same on a cursor in memory

  method PutValue(buf: Cbuf, v: Value)
    requires buf.Valid() && Fits(v)
    modifies buf`p, buf.data
    ensures buf.Valid() && buf.Written() == PutAll(old(buf.Written()), Chunks(v))
    ensures buf.data[..buf.sp] == old(buf.data[..buf.sp]) && buf.data[buf.ep..] == old(buf.data[buf.ep..])
  {
    match v {
      case U8(n) => buf.PutInt8(n);
      case U16(n) => buf.PutInt16(n);
      case U32(n) => buf.PutInt32(n);
      case U64(n) => buf.PutInt64(n);
      case Str(s) => buf.PutStr(s);
      case Qid(q) => PutQid(buf, q);
      case Data(d) =>
        ghost var w := buf.Written();
        buf.PutInt32(|d|);
        buf.PutBytes(d);
        assert Chunks(v)[1..] == [d] && PutAll(Put(w, LE(|d|, 4)), [d]) == Put(Put(w, LE(|d|, 4)), d);
      case Names(names) =>
        ghost var w := buf.Written();
        buf.PutInt16(|names|);
        PutAllConcat(w, [LE(|names|, 2)], AllChunks(names));
        assert PutAll(w, [LE(|names|, 2)]) == Put(w, LE(|names|, 2));
        PutNames(buf, names);
      case Qids(qids) =>
        ghost var w := buf.Written();
        buf.PutInt16(|qids|);
        PutAllConcat(w, [LE(|qids|, 2)], AllQidChunks(qids));
        assert PutAll(w, [LE(|qids|, 2)]) == Put(w, LE(|qids|, 2));
        PutQids(buf, qids);
    }
  }

  method PutQid(buf: Cbuf, q: QidVal)
    requires buf.Valid()
    modifies buf`p, buf.data
    ensures buf.Valid() && buf.Written() == PutAll(old(buf.Written()), QidChunks(q))
    ensures buf.data[..buf.sp] == old(buf.data[..buf.sp]) && buf.data[buf.ep..] == old(buf.data[buf.ep..])
  {
    ghost var w := buf.Written();
    buf.PutInt8(q.typ);
    buf.PutInt32(q.version);
    buf.PutInt64(q.path);
    assert QidChunks(q)[1..] == [LE(q.version, 4), LE(q.path, 8)];
    assert QidChunks(q)[1..][1..] == [LE(q.path, 8)];
    var w2 := Put(Put(w, LE(q.typ, 1)), LE(q.version, 4));
    assert PutAll(w2, [LE(q.path, 8)]) == Put(w2, LE(q.path, 8));
  }

  method PutNames(buf: Cbuf, names: seq<Value>)
    requires buf.Valid() && forall i :: 0 <= i < |names| ==> names[i].Str?
    modifies buf`p, buf.data
    ensures buf.Valid() && buf.Written() == PutAll(old(buf.Written()), AllChunks(names))
    ensures buf.data[..buf.sp] == old(buf.data[..buf.sp]) && buf.data[buf.ep..] == old(buf.data[buf.ep..])
  {
    ghost var w := buf.Written();
    for i := 0 to |names|
      invariant buf.Valid()
      invariant PutAll(buf.Written(), AllChunks(names[i..])) == PutAll(w, AllChunks(names))
      invariant buf.data[..buf.sp] == old(buf.data[..buf.sp]) && buf.data[buf.ep..] == old(buf.data[buf.ep..])
    {
      ghost var here := buf.Written();
      buf.PutStr(names[i].s);
      assert names[i..][1..] == names[i + 1..];
      PutAllConcat(here, Chunks(names[i]), AllChunks(names[i + 1..]));
      assert PutAll(here, Chunks(names[i])) == buf.Written();
    }
  }

  method PutQids(buf: Cbuf, qids: seq<QidVal>)
    requires buf.Valid()
    modifies buf`p, buf.data
    ensures buf.Valid() && buf.Written() == PutAll(old(buf.Written()), AllQidChunks(qids))
    ensures buf.data[..buf.sp] == old(buf.data[..buf.sp]) && buf.data[buf.ep..] == old(buf.data[buf.ep..])
  {
    ghost var w := buf.Written();
    for i := 0 to |qids|
      invariant buf.Valid()
      invariant PutAll(buf.Written(), AllQidChunks(qids[i..])) == PutAll(w, AllQidChunks(qids))
      invariant buf.data[..buf.sp] == old(buf.data[..buf.sp]) && buf.data[buf.ep..] == old(buf.data[buf.ep..])
    {
      ghost var here := buf.Written();
      PutQid(buf, qids[i]);
      assert qids[i..][1..] == qids[i + 1..];
      PutAllConcat(here, QidChunks(qids[i]), AllQidChunks(qids[i + 1..]));
    }
  }

  method ReadStr(buf: Cbuf) returns (v: Value)
    requires buf.Valid()
    modifies buf`p
    ensures buf.Valid() && (v, buf.Reading()) == GetStr(old(buf.Reading()))
  {
    var len := buf.GetInt(2);
    var b := buf.GetBytes(len);
    v := if b.Some? then Str(b.value) else Null(len);
  }

  method ReadQid(buf: Cbuf) returns (q: QidVal)
    requires buf.Valid()
    modifies buf`p
    ensures buf.Valid() && (q, buf.Reading()) == GetQid(old(buf.Reading()))
  {
    var typ := buf.GetInt(1);
    var version := buf.GetInt(4);
    var path := buf.GetInt(8);
    q := QidVal(typ, version, path);
  }

  lemma {:induction false} GetNamesNext(c: Reader, n: nat)
    ensures var (names, c1) := GetNames(c, n); var (x, c2) := GetStr(c1); GetNames(c, n + 1) == (names + [x], c2)
    decreases n
  {
    var (x, c1) := GetStr(c);
    if n == 0 {
      assert GetNames(c1, 0) == ([], c1) && [x] + [] == [x] && [] + [x] == [x];
    } else {
      GetNamesNext(c1, n - 1);
      var (rest, c2) := GetNames(c1, n - 1);
      assert [x] + (rest + [GetStr(c2).0]) == ([x] + rest) + [GetStr(c2).0];
    }
  }

  lemma {:induction false} GetQidsNext(c: Reader, n: nat)
    ensures var (qids, c1) := GetQids(c, n); var (x, c2) := GetQid(c1); GetQids(c, n + 1) == (qids + [x], c2)
    decreases n
  {
    var (x, c1) := GetQid(c);
    if n == 0 {
      assert GetQids(c1, 0) == ([], c1) && [x] + [] == [x] && [] + [x] == [x];
    } else {
      GetQidsNext(c1, n - 1);
      var (rest, c2) := GetQids(c1, n - 1);
      assert [x] + (rest + [GetQid(c2).0]) == ([x] + rest) + [GetQid(c2).0];
    }
  }

  method ReadNames(buf: Cbuf, n: nat) returns (names: seq<Value>)
    requires buf.Valid()
    modifies buf`p
    ensures buf.Valid() && (names, buf.Reading()) == GetNames(old(buf.Reading()), n)
  {
    names := [];
    ghost var c := buf.Reading();
    for i := 0 to n
      invariant buf.Valid() && (names, buf.Reading()) == GetNames(c, i)
    {
      GetNamesNext(c, i);
      var x := ReadStr(buf);
      names := names + [x];
    }
  }

  method ReadQids(buf: Cbuf, n: nat) returns (qids: seq<QidVal>)
    requires buf.Valid()
    modifies buf`p
    ensures buf.Valid() && (qids, buf.Reading()) == GetQids(old(buf.Reading()), n)
  {
    qids := [];
    ghost var c := buf.Reading();
    for i := 0 to n
      invariant buf.Valid() && (qids, buf.Reading()) == GetQids(c, i)
    {
      GetQidsNext(c, i);
      var x := ReadQid(buf);
      qids := qids + [x];
    }
  }

  method ReadField(buf: Cbuf, f: Field) returns (v: Option<Value>)
    requires buf.Valid()
    modifies buf`p
    ensures buf.Valid() && Got(v, buf.Reading()) == GetField(old(buf.Reading()), f)
  {
    match f {
      case F8 => var n := buf.GetInt(1); return Some(U8(n));
      case F16 => var n := buf.GetInt(2); return Some(U16(n));
      case F32 => var n := buf.GetInt(4); return Some(U32(n));
      case F64 => var n := buf.GetInt(8); return Some(U64(n));
      case FStr => var s := ReadStr(buf); return Some(s);
      case FQid => var q := ReadQid(buf); return Some(Qid(q));
      case FData =>
        var n := buf.GetInt(4);
        if n >= 0x8000_0000 { return Some(Wild(n)); }
        var b := buf.GetBytes(n);
        return Some(if b.Some? then Data(b.value) else NullData(n));
      case FNames =>
        var n := buf.GetInt(2);
        if n > MaxWelem { return None; }
        var names := ReadNames(buf, n);
        return Some(Names(names));
      case FQids =>
        var n := buf.GetInt(2);
        if n > MaxWelem { return None; }
        var qids := ReadQids(buf, n);
        return Some(Qids(qids));
    }
  }
}
