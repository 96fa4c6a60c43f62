/** Checkpoints cut short, and checkpoints that announce another number of fids than they hold (libufs/ufs.c): exactly
    which of them ufs_restore takes. */
module ImageCuts {
  import opened Bytes
  import opened Cbuf
  import opened Wire
  import opened Codec
  import opened Cuts
  import P = FidPool
  import C = Checkpoint

  // ---- fields in the pieces they were put in: the count and the bytes of a string are one

  ghost predicate NoNull(vals: seq<Value>) { forall i :: 0 <= i < |vals| ==> !vals[i].Null? }

  predicate Plain(v: Value) { v.U8? || v.U16? || v.U32? || v.U64? || v.Str? }

  /** Where a cursor gets, and whether all strings are there. */
  ghost predicate Comes(c: Reader, vals: seq<Value>, pieces: seq<seq<Byte>>, cut: seq<Byte>) {
    Stopped(c) && (Between(cut, pieces) <==> AtEnd(c) && NoNull(vals))
  }

  lemma {:induction false} StringCut(c: Reader, s: seq<Byte>, enc: seq<Byte>, cut: seq<Byte>)
    requires Left(c, cut) && |s| < 0x1_0000 && enc == LE(|s|, 2) + s && cut <= enc
    ensures Comes(GetStr(c).1, [GetStr(c).0], [enc], cut)
  {
    BetweenOne(cut, enc);
    NoNullOne(GetStr(c).0);
    if cut == [] {
      StringBlank(c);
    } else if |cut| == |enc| {
      StringWhole(c, s, enc, cut);
    } else {
      StringInside(c, s, cut);
    }
  }

  lemma NoNullOne(v: Value)
    ensures NoNull([v]) <==> !v.Null?
  {
    assert [v][0] == v;
  }

  lemma StringBlank(c: Reader)
    requires AtEnd(c)
    ensures GetStr(c) == (Str([]), c)
  {
    BlankField(c, FStr);
  }

  lemma {:induction false} StringWhole(c: Reader, s: seq<Byte>, enc: seq<Byte>, cut: seq<Byte>)
    requires Left(c, cut) && |s| < 0x1_0000 && enc == LE(|s|, 2) + s && cut <= enc && |cut| == |enc|
    ensures GetStr(c).0 == Str(s) && AtEnd(GetStr(c).1)
  {
    PastLeaves(c, enc, cut);
    StrAhead(c, s);
  }

  /** Not at its end, and not before its beginning: the cursor is marked, or there is a count without its bytes. */
  lemma {:induction false} StringInside(c: Reader, s: seq<Byte>, cut: seq<Byte>)
    requires Left(c, cut) && |s| < 0x1_0000 && cut <= LE(|s|, 2) + s && 0 < |cut| < 2 + |s|
    ensures Stopped(GetStr(c).1) && (GetStr(c).1.over || GetStr(c).0.Null?)
  {
    StrCut(c, s, cut);
    if |cut| >= 2 {
      PowValues();
      FlatOne(s);
      CountFirst(c, |s|, 2, [s], cut);
      assert Take(Skip(c, 2), |s|).None?;
    }
  }

  lemma {:induction false} PlainCut(c: Reader, v: Value, cut: seq<Byte>)
    requires Left(c, cut) && Fits(v) && cut <= Enc(v) && Plain(v)
    ensures var g := GetField(c, FieldOf(v)); g.value.Some? && Comes(g.c, [g.value.value], Chunks(v), cut)
  {
    if v.Str? {
      FlatOne(LE(|v.s|, 2) + v.s);
      StringCut(c, v.s, LE(|v.s|, 2) + v.s, cut);
    } else {
      FieldCut(c, v, cut);
    }
  }

  lemma {:induction false} BlanksNoNull(fields: seq<Field>)
    ensures NoNull(Blanks(fields))
  {
    if fields != [] {
      BlanksNoNull(fields[1..]);
      assert Blanks(fields) == [Blank(fields[0])] + Blanks(fields[1..]);
    }
  }

  lemma {:induction false} PlainShort(c: Reader, v: Value, rest: seq<Value>, cut: seq<Byte>)
    requires Left(c, cut) && Fits(v) && Plain(v) && cut <= Enc(v) + EncAll(rest) && |cut| <= |Enc(v)|
    ensures var g := GetAll(c, [FieldOf(v)] + FieldsOf(rest));
      g.value.Some? && Comes(g.c, g.value.value, Chunks(v) + AllChunks(rest), cut)
  {
    var g, fields := GetField(c, FieldOf(v)), FieldsOf(rest);
    PlainCut(c, v, cut);
    BetweenConcat(cut, Chunks(v), AllChunks(rest));
    StoppedFields(g.c, fields);
    assert ([FieldOf(v)] + fields)[1..] == fields;
    var more := GetAll(g.c, fields).value.value;
    GetAllCons(c, FieldOf(v), fields, g.value.value, more, g.c, g.c);
    if AtEnd(g.c) {
      BlankFields(g.c, fields);
      BlanksNoNull(fields);
    }
    var vals := [g.value.value] + more;
    assert vals[0] == g.value.value && forall i :: 0 <= i < |more| ==> vals[i + 1] == more[i];
  }

  lemma {:induction false} PlainsCut(c: Reader, vals: seq<Value>, cut: seq<Byte>)
    requires Left(c, cut) && (forall i :: 0 <= i < |vals| ==> Fits(vals[i]) && Plain(vals[i])) && cut <= EncAll(vals)
    ensures var g := GetAll(c, FieldsOf(vals)); g.value.Some? && Comes(g.c, g.value.value, AllChunks(vals), cut)
    decreases |vals|
  {
    if vals != [] {
      var v, rest := vals[0], vals[1..];
      EncAllCons(vals);
      assert FieldsOf(vals) == [FieldOf(v)] + FieldsOf(rest);
      if |cut| <= |Enc(v)| {
        PlainShort(c, v, rest, cut);
      } else {
        var c1, left := Past(c, Enc(v)), cut[|Enc(v)|..];
        assert Enc(v) <= cut;
        PastLeaves(c, Enc(v), cut);
        FieldAhead(c, v);
        assert left <= EncAll(rest);
        PlainsCut(c1, rest, left);
        BetweenConcat(cut, Chunks(v), AllChunks(rest));
        var g := GetAll(c1, FieldsOf(rest));
        GetAllCons(c, FieldOf(v), FieldsOf(rest), v, g.value.value, c1, g.c);
        var all, more := [v] + g.value.value, g.value.value;
        assert all[0] == v && forall i :: 0 <= i < |more| ==> all[i + 1] == more[i];
      }
    }
  }

  lemma {:induction false} LastOfStopped(c: Reader, fields: seq<Field>)
    requires Stopped(c) && fields != [] && fields[|fields| - 1] == F64
    ensures var g := GetAll(c, fields); g.value.Some? && g.value.value != [] && Last(g.value.value) == U64(0)
    decreases |fields|
  {
    StoppedFields(c, fields);
    StoppedFields(c, [fields[0]]);
    StoppedReads(c, 8);
    if |fields| > 1 {
      StoppedFields(c, fields[1..]);
      assert fields == [fields[0]] + fields[1..];
      assert GetField(c, fields[0]).c == c by { assert [fields[0]][1..] == []; }
      LastOfStopped(c, fields[1..]);
    }
  }

  function Last(vals: seq<Value>): Value
    requires vals != []
  {
    vals[|vals| - 1]
  }

  /** An integer of 8 bytes behind the others is 0 when any byte of them all is missing. */
  lemma {:induction false} LastMissing(c: Reader, vals: seq<Value>, cut: seq<Byte>)
    requires Left(c, cut) && (forall i :: 0 <= i < |vals| ==> Fits(vals[i]) && Plain(vals[i])) && cut <= EncAll(vals)
    requires vals != [] && Last(vals).U64? && |cut| < |EncAll(vals)|
    ensures var g := GetAll(c, FieldsOf(vals)); g.value.Some? && g.value.value != [] && Last(g.value.value) == U64(0)
    decreases |vals|
  {
    var v, rest := vals[0], vals[1..];
    EncAllCons(vals);
    assert FieldsOf(vals) == [FieldOf(v)] + FieldsOf(rest);
    PlainsCut(c, vals, cut);
    if rest == [] {
      PowValues();
      FlatOne(LE(v.n, 8));
      IntCut(c, v.n, 8, cut);
    } else if |cut| <= |Enc(v)| {
      PlainCut(c, v, cut);
      LastOfStopped(GetField(c, FieldOf(v)).c, FieldsOf(rest));
    } else {
      assert Enc(v) <= cut;
      PastLeaves(c, Enc(v), cut);
      FieldAhead(c, v);
      LastMissing(Past(c, Enc(v)), rest, cut[|Enc(v)|..]);
    }
  }

  // ---- records

  /** The pieces a record is put in. */
  function RecPieces(r: C.FidRec): seq<seq<Byte>> {
    [LE(r.fid, 4)] + (AllChunks(C.RecValues(r)[1..]) + [C.Bytes0(r.aux.xattr)])
  }

  function AllRecPieces(recs: seq<C.FidRec>): seq<seq<Byte>> {
    if recs == [] then [] else RecPieces(recs[0]) + AllRecPieces(recs[1..])
  }

  lemma RecFlat(r: C.FidRec)
    ensures Flat(RecPieces(r)) == C.RecBytes(r)
    ensures Flat(AllChunks(C.RecValues(r)[1..]) + [C.Bytes0(r.aux.xattr)])
         == EncAll(C.RecValues(r)[1..]) + C.Bytes0(r.aux.xattr)
  {
    var rest, data := AllChunks(C.RecValues(r)[1..]), C.Bytes0(r.aux.xattr);
    C.RecParts(r);
    FlatCons(LE(r.fid, 4), rest + [data]);
    FlatConcat(rest, [data]);
    FlatOne(data);
  }

  lemma {:induction false} AllRecFlat(recs: seq<C.FidRec>)
    ensures Flat(AllRecPieces(recs)) == C.AllRecBytes(recs)
  {
    if recs != [] {
      RecFlat(recs[0]);
      AllRecFlat(recs[1..]);
      FlatConcat(RecPieces(recs[0]), AllRecPieces(recs[1..]));
    }
  }

  /** A record that reads as nothing but zeros. */
  const BlankRec := C.FidRec(0, 0, 0, 0, 0, P.Aux([], 0, None, 0, None))

  function BlankRecs(n: nat): (r: seq<C.FidRec>) ensures |r| == n { seq(n, _ => BlankRec) }

  lemma BlankRestIs(c: Reader)
    requires AtEnd(c)
    ensures C.GetRest(c, 0) == Got(Some(BlankRec), c)
  {
    BlankFields(c, C.RecFields);
    BlankNine();
  }

  lemma BlankNine()
    ensures Blanks(C.RecFields) == [U16(0), U16(0), U32(0), U32(0)] + [Str([]), U32(0), Str([]), U32(0), U64(0)]
  {
    forall i | 0 <= i < |C.RecFields| ensures Blanks(C.RecFields)[i] == Blank(C.RecFields[i])
    { BlankAt(C.RecFields, i); }
  }

  lemma {:induction false} BlankAt(fields: seq<Field>, i: nat)
    requires i < |fields|
    ensures Blanks(fields)[i] == Blank(fields[i])
  {
    if i > 0 { BlankAt(fields[1..], i - 1); }
  }

  /** Behind the last record, restore reads as many blank ones as it is told to. */
  lemma {:induction false} BlankRecsRead(c: Reader, n: nat)
    requires AtEnd(c)
    ensures C.GetRecs(c, n) == Got(Some(BlankRecs(n)), c)
  {
    if n > 0 {
      StoppedReads(c, 4);
      BlankRestIs(c);
      BlankRecsRead(c, n - 1);
      assert [BlankRec] + BlankRecs(n - 1) == BlankRecs(n);
    }
  }

  /** Where a record cut short gets: its pieces are there and the cursor at the end, or it is no record, or marked. */
  ghost predicate Reads<T>(g: Got<T>, pieces: seq<seq<Byte>>, cut: seq<Byte>) {
    if Between(cut, pieces) then g.value.Some? && AtEnd(g.c) else g.value.None? || g.c.over
  }

  lemma KindRead(c: Reader, f: Field)
    requires GetField(c, f).value.Some?
    ensures FieldOf(GetField(c, f).value.value) == f
  {
    match f
    case FStr => StrKind(c);
    case FData => DataKind(c);
    case _ =>
  }

  lemma StrKind(c: Reader)
    ensures GetStr(c).0.Str? || GetStr(c).0.Null?
  {
  }

  lemma DataKind(c: Reader)
    ensures GetData(c).0.Data? || GetData(c).0.NullData? || GetData(c).0.Wild?
  {
  }

  lemma {:induction false} KindsRead(c: Reader, fields: seq<Field>)
    requires GetAll(c, fields).value.Some?
    ensures FieldsOf(GetAll(c, fields).value.value) == fields
    decreases |fields|
  {
    if fields != [] {
      var g := GetField(c, fields[0]);
      KindRead(c, fields[0]);
      KindsRead(g.c, fields[1..]);
      var rest := GetAll(g.c, fields[1..]).value.value;
      assert FieldsOf([g.value.value] + rest) == [fields[0]] + FieldsOf(rest);
    }
  }

  lemma SizeLast(vals: seq<Value>)
    requires FieldsOf(vals) == C.RecFields
    ensures |vals| == 9 && vals[8].U64?
  {
    assert |FieldsOf(vals)| == 9 && FieldOf(vals[8]) == C.RecFields[8];
  }

  /** There is a record just when its strings are there. */
  lemma RecOfExactly(fid: nat, vals: seq<Value>, data: seq<Byte>)
    requires FieldsOf(vals) == C.RecFields
    ensures C.RecOf(fid, vals, data).Some? <==> NoNull(vals)
  {
    SizeLast(vals);
    assert forall i :: 0 <= i < 9 ==> FieldOf(vals[i]) == C.RecFields[i];
  }

  /** The part of a record behind its number. */
  lemma RestCut(c: Reader, r: C.FidRec, fid: nat, cut: seq<Byte>)
    requires Left(c, cut) && C.FitsRec(r) && cut <= EncAll(C.RecValues(r)[1..]) + C.Bytes0(r.aux.xattr)
    ensures Reads(C.GetRest(c, fid), AllChunks(C.RecValues(r)[1..]) + [C.Bytes0(r.aux.xattr)], cut)
  {
    var vals, data := C.RecValues(r)[1..], C.Bytes0(r.aux.xattr);
    var enc, g := EncAll(vals), GetAll(c, C.RecFields);
    C.RecFits(r);
    C.RecLayout(r);
    FlatOne(data);
    BetweenConcat(cut, AllChunks(vals), [data]);
    if |cut| <= |enc| {
      PlainsCut(c, vals, cut);
      KindsRead(c, C.RecFields);
      SizeLast(g.value.value);
      var size := g.value.value[8].n;
      RestSize(c, r, cut);
      StoppedReads(g.c, size);
      RecOfExactly(fid, g.value.value, C.Bytes0(Take(g.c, size)));
    } else {
      assert enc <= cut;
      PastLeaves(c, enc, cut);
      AllAhead(c, vals);
      PieceCut(Past(c, enc), data, cut[|enc|..]);
      RecOfExactly(fid, vals, C.Bytes0(Take(g.c, |data|)));
      NoneNull(vals);
    }
  }

  lemma {:induction false} RestSize(c: Reader, r: C.FidRec, cut: seq<Byte>)
    requires Left(c, cut) && C.FitsRec(r) && cut <= EncAll(C.RecValues(r)[1..])
    ensures var g := GetAll(c, C.RecFields);
      g.value.Some? && |g.value.value| == 9 && g.value.value[8] in {U64(0), U64(|C.Bytes0(r.aux.xattr)|)}
  {
    var vals := C.RecValues(r)[1..];
    C.RecFits(r);
    C.RecLayout(r);
    assert Last(vals) == U64(|C.Bytes0(r.aux.xattr)|);
    PlainsCut(c, vals, cut);
    KindsRead(c, C.RecFields);
    SizeLast(GetAll(c, C.RecFields).value.value);
    if |cut| < |EncAll(vals)| {
      LastMissing(c, vals, cut);
    } else {
      assert cut == EncAll(vals);
      PastLeaves(c, EncAll(vals), cut);
      AllAhead(c, vals);
    }
  }

  lemma NoneNull(vals: seq<Value>)
    requires forall i :: 0 <= i < |vals| ==> Fits(vals[i])
    ensures NoNull(vals)
  {
  }

  lemma RecCut(c: Reader, r: C.FidRec, cut: seq<Byte>)
    requires Left(c, cut) && C.FitsRec(r) && cut <= C.RecBytes(r)
    ensures Reads(C.GetRec(c), RecPieces(r), cut)
  {
    var rest := AllChunks(C.RecValues(r)[1..]) + [C.Bytes0(r.aux.xattr)];
    C.RecParts(r);
    RecFlat(r);
    PowValues();
    CountFirst(c, r.fid, 4, rest, cut);
    var c1 := Skip(c, 4);
    if |cut| < 4 {
      if AtEnd(c1) { BlankRestIs(c1); }
    } else {
      RestCut(c1, r, r.fid, cut[4..]);
      BetweenConcat(cut, [LE(r.fid, 4)], rest);
      FlatOne(LE(r.fid, 4));
    }
  }

  lemma {:induction false} FailedRecs(c: Reader, n: nat)
    requires c.over
    ensures var g := C.GetRecs(c, n); g.value.None? || g.c.over
  {
    if n > 0 { StoppedReads(c, 4); }
  }

  lemma {:induction false} RecsStart(c: Reader, n: nat)
    ensures C.GetRecs(c, n + 1) ==
      var g := C.GetRec(c);
      if g.value.None? then Got(None, g.c)
      else var rest := C.GetRecs(g.c, n);
           if rest.value.None? then rest else Got(Some([g.value.value] + rest.value.value), rest.c)
  {
  }

  lemma RecsBehind(c: Reader, n: nat, pieces: seq<seq<Byte>>, cut: seq<Byte>)
    requires Reads(C.GetRec(c), pieces, cut)
    ensures Reads(C.GetRecs(c, n + 1), pieces, cut)
  {
    RecsStart(c, n);
    var g := C.GetRec(c);
    if Between(cut, pieces) {
      BlankRecsRead(g.c, n);
    } else if g.value.Some? {
      FailedRecs(g.c, n);
    }
  }

  lemma {:induction false} RecsAfter(c: Reader, n: nat, pieces: seq<seq<Byte>>, cut: seq<Byte>)
    requires C.GetRec(c).value.Some? && Reads(C.GetRecs(C.GetRec(c).c, n), pieces, cut)
    ensures Reads(C.GetRecs(c, n + 1), pieces, cut)
  {
    RecsStart(c, n);
  }

  lemma {:induction false} RecsCut(c: Reader, recs: seq<C.FidRec>, cut: seq<Byte>)
    requires Left(c, cut) && C.FitsRecs(recs) && cut <= C.AllRecBytes(recs)
    ensures Reads(C.GetRecs(c, |recs|), AllRecPieces(recs), cut)
    decreases |recs|
  {
    if recs != [] {
      var r, rest := recs[0], recs[1..];
      var enc := C.RecBytes(r);
      RecFlat(r);
      AllRecFlat(rest);
      if |cut| <= |enc| {
        FirstRecCut(c, r, |rest|, AllRecPieces(rest), cut);
      } else {
        assert enc <= cut;
        PastLeaves(c, enc, cut);
        C.RecAhead(c, r);
        RecsCut(Past(c, enc), rest, cut[|enc|..]);
        RecsAfter(c, |rest|, AllRecPieces(rest), cut[|enc|..]);
        ReadsLater(C.GetRecs(c, |rest| + 1), RecPieces(r), AllRecPieces(rest), cut);
      }
    }
  }

  lemma {:induction false} FirstRecCut(c: Reader, r: C.FidRec, n: nat, rest: seq<seq<Byte>>, cut: seq<Byte>)
    requires Left(c, cut) && C.FitsRec(r) && cut <= C.RecBytes(r) + Flat(rest) && |cut| <= |C.RecBytes(r)|
    ensures Reads(C.GetRecs(c, n + 1), RecPieces(r) + rest, cut)
  {
    RecFlat(r);
    RecCut(c, r, cut);
    RecsBehind(c, n, RecPieces(r), cut);
    ReadsFirst(C.GetRecs(c, n + 1), RecPieces(r), rest, cut);
  }

  lemma {:induction false} ReadsFirst<T>(g: Got<T>, a: seq<seq<Byte>>, b: seq<seq<Byte>>, cut: seq<Byte>)
    requires cut <= Flat(a) + Flat(b) && |cut| <= |Flat(a)| && Reads(g, a, cut)
    ensures Reads(g, a + b, cut)
  {
    BetweenConcat(cut, a, b);
  }

  lemma {:induction false} ReadsLater<T>(g: Got<T>, a: seq<seq<Byte>>, b: seq<seq<Byte>>, cut: seq<Byte>)
    requires cut <= Flat(a) + Flat(b) && |Flat(a)| < |cut| && Reads(g, b, cut[|Flat(a)|..])
    ensures Reads(g, a + b, cut)
  {
    BetweenConcat(cut, a, b);
  }

  // ---- images

  /** The pieces of an image that announces n fids. */
  function ImagePieces(h: C.Head, n: nat, recs: seq<C.FidRec>): seq<seq<Byte>> {
    [LE(h.msize, 4)] + ([LE(h.dotu, 1)] + ([LE(h.dotl, 1)] + ([LE(n, 4)] + AllRecPieces(recs))))
  }

  /** The image of the records, with n in the place of their number. */
  function Announcing(h: C.Head, n: nat, recs: seq<C.FidRec>): seq<Byte> {
    EncAll(C.HeadValues(h, n)) + C.AllRecBytes(recs)
  }

  lemma {:induction false} NoRecs(c: Reader, pieces: seq<seq<Byte>>, cut: seq<Byte>)
    requires Lands(c, pieces, cut)
    ensures Reads(C.GetRecs(c, 0), pieces, cut)
  {
  }

  lemma {:induction false} CountCut(c: Reader, recs: seq<C.FidRec>, n: nat, cut: seq<Byte>)
    requires Left(c, cut) && C.FitsRecs(recs) && |recs| == n < C.IntEnd && cut <= LE(n, 4) + C.AllRecBytes(recs)
    ensures Reads(C.GetRecs(Skip(c, 4), Int(c, 4)), [LE(n, 4)] + AllRecPieces(recs), cut) && Int(c, 4) <= n
  {
    AllRecFlat(recs);
    PowValues();
    CountFirst(c, n, 4, AllRecPieces(recs), cut);
    if |cut| < 4 {
      NoRecs(Skip(c, 4), [LE(n, 4)] + AllRecPieces(recs), cut);
    } else {
      RecsCut(Skip(c, 4), recs, cut[4..]);
      ReadsBehind(C.GetRecs(Skip(c, 4), n), LE(n, 4), AllRecPieces(recs), cut);
    }
  }

  lemma {:induction false} ReadsBehind<T>(g: Got<T>, first: seq<Byte>, rest: seq<seq<Byte>>, cut: seq<Byte>)
    requires cut <= first + Flat(rest) && |first| <= |cut| && Reads(g, rest, cut[|first|..])
    ensures Reads(g, [first] + rest, cut)
  {
    FlatOne(first);
    BetweenConcat(cut, [first], rest);
    if |cut| == |first| { BetweenOne(cut, first); }
  }

  lemma NothingBehind(c: Reader, pieces: seq<seq<Byte>>, cut: seq<Byte>)
    requires Lands(c, pieces, cut) && Stopped(c)
    ensures Reads(C.GetRecs(Skip(c, 4), Int(c, 4)), pieces, cut) && Int(c, 4) == 0
  {
    StoppedReads(c, 4);
    NoRecs(c, pieces, cut);
  }

  lemma {:induction false} DotlCut(c: Reader, dotl: nat, recs: seq<C.FidRec>, n: nat, cut: seq<Byte>)
    requires Left(c, cut) && C.FitsRecs(recs) && |recs| == n < C.IntEnd && dotl < 0x100
    requires cut <= LE(dotl, 1) + (LE(n, 4) + C.AllRecBytes(recs))
    ensures Reads(C.GetRecs(Skip(Skip(c, 1), 4), Int(Skip(c, 1), 4)),
          [LE(dotl, 1)] + ([LE(n, 4)] + AllRecPieces(recs)), cut)
    ensures Int(Skip(c, 1), 4) <= n
  {
    var rest := [LE(n, 4)] + AllRecPieces(recs);
    AllRecFlat(recs);
    FlatCons(LE(n, 4), AllRecPieces(recs));
    PowValues();
    CountFirst(c, dotl, 1, rest, cut);
    var c1 := Skip(c, 1);
    if cut == [] {
      NothingBehind(c1, [LE(dotl, 1)] + rest, cut);
    } else {
      CountCut(c1, recs, n, cut[1..]);
      ReadsBehind(C.GetRecs(Skip(c1, 4), Int(c1, 4)), LE(dotl, 1), rest, cut);
    }
  }

  lemma {:induction false} HeadCut(c: Reader, h: C.Head, recs: seq<C.FidRec>, n: nat, cut: seq<Byte>)
    requires Left(c, cut) && C.FitsRecs(recs) && |recs| == n < C.IntEnd && C.FitsHead(h)
    requires cut <= LE(h.msize, 4) + (LE(h.dotu, 1) + (LE(h.dotl, 1) + (LE(n, 4) + C.AllRecBytes(recs))))
    ensures Reads(C.GetRecs(C.GetHead(c).2, C.GetHead(c).1), ImagePieces(h, n, recs), cut) && C.GetHead(c).1 <= n
  {
    var last := [LE(h.dotl, 1)] + ([LE(n, 4)] + AllRecPieces(recs));
    var c1, c2 := Skip(c, 4), Skip(Skip(c, 4), 1);
    ImageFlat(h, n, recs);
    PowValues();
    CountFirst(c, h.msize, 4, [LE(h.dotu, 1)] + last, cut);
    if |cut| < 4 {
      StoppedReads(c1, 1);
      NothingBehind(c1, ImagePieces(h, n, recs), cut);
    } else {
      CountFirst(c1, h.dotu, 1, last, cut[4..]);
      if |cut| == 4 {
        StoppedReads(c2, 1);
        NothingBehind(c2, [LE(h.dotu, 1)] + last, cut[4..]);
      } else {
        DotlCut(c2, h.dotl, recs, n, cut[4..][1..]);
        ReadsBehind(C.GetRecs(C.GetHead(c).2, C.GetHead(c).1), LE(h.dotu, 1), last, cut[4..]);
      }
      ReadsBehind(C.GetRecs(C.GetHead(c).2, C.GetHead(c).1), LE(h.msize, 4), [LE(h.dotu, 1)] + last, cut);
    }
  }

  lemma {:induction false} ImageFlat(h: C.Head, n: nat, recs: seq<C.FidRec>)
    ensures var last := [LE(h.dotl, 1)] + ([LE(n, 4)] + AllRecPieces(recs));
      && Flat(last) == LE(h.dotl, 1) + (LE(n, 4) + C.AllRecBytes(recs))
      && Flat([LE(h.dotu, 1)] + last) == LE(h.dotu, 1) + Flat(last)
      && Flat(ImagePieces(h, n, recs)) == LE(h.msize, 4) + (LE(h.dotu, 1) + Flat(last))
  {
    var count := [LE(n, 4)] + AllRecPieces(recs);
    AllRecFlat(recs);
    FlatCons(LE(n, 4), AllRecPieces(recs));
    FlatCons(LE(h.dotl, 1), count);
    FlatCons(LE(h.dotu, 1), [LE(h.dotl, 1)] + count);
    FlatCons(LE(h.msize, 4), [LE(h.dotu, 1)] + ([LE(h.dotl, 1)] + count));
  }

  lemma {:induction false} ImageIsFlat(h: C.Head, n: nat, recs: seq<C.FidRec>)
    ensures Announcing(h, n, recs) ==
      LE(h.msize, 4) + (LE(h.dotu, 1) + (LE(h.dotl, 1) + (LE(n, 4) + C.AllRecBytes(recs))))
  {
    C.HeadBytes(h, n);
  }

  /** An image cut short is taken just when the cut falls between two of the pieces that it was put in. */
  lemma {:induction false} CutImageExactly(h: C.Head, recs: seq<C.FidRec>, cut: seq<Byte>)
    requires C.FitsHead(h) && |recs| < C.IntEnd && C.FitsRecs(recs) && cut <= C.Image(h, recs)
    ensures var pieces := ImagePieces(h, |recs|, recs);
      C.Restored(cut).Some? <==> exists k :: 0 <= k <= |pieces| && cut == Flat(pieces[..k])
  {
    var c := Reader(cut, 0, false);
    ImageIsFlat(h, |recs|, recs);
    HeadCut(c, h, recs, |recs|, cut);
    BetweenMeans(cut, ImagePieces(h, |recs|, recs));
  }

  lemma BlankRead(c: Reader)
    requires AtEnd(c)
    ensures C.GetRec(c) == Got(Some(BlankRec), c)
  {
    StoppedReads(c, 4);
    BlankRestIs(c);
  }

  lemma {:induction false} BlanksFollow(c: Reader, n: nat, recs: seq<C.FidRec>, end: Reader, m: nat)
    requires C.GetRecs(c, n) == Got(Some(recs), end) && AtEnd(end)
    ensures C.GetRecs(c, n + m) == Got(Some(recs + BlankRecs(m)), end)
    decreases m
  {
    if m == 0 {
      assert recs + BlankRecs(0) == recs;
    } else {
      BlanksFollow(c, n, recs, end, m - 1);
      C.GetRecsNext(c, n + (m - 1), recs + BlankRecs(m - 1), end);
      BlankRead(end);
      assert recs + BlankRecs(m - 1) + [BlankRec] == recs + BlankRecs(m);
    }
  }

  /** An image that announces n fids is taken just when n is a C int and the image holds no more; what it lacks reads as
      blank records. */
  lemma {:induction false} CountExactly(h: C.Head, n: nat, recs: seq<C.FidRec>)
    requires C.FitsHead(h) && n < 0x1_0000_0000 && C.FitsRecs(recs)
    ensures C.Restored(Announcing(h, n, recs)) ==
      if |recs| <= n < C.IntEnd then Some((h, recs + BlankRecs(n - |recs|))) else None
  {
    var c := C.GetHead(Reader(Announcing(h, n, recs), 0, false)).2;
    HeadAnnounces(h, n, recs);
    WholeExactly(c, n, recs);
  }

  lemma {:induction false} WholeExactly(c: Reader, n: nat, recs: seq<C.FidRec>)
    requires C.FitsRecs(recs) && Ahead(c, C.AllRecBytes(recs))
    requires C.GetRecs(c, |recs|) == Got(Some(recs), c.(p := |c.s|))
    ensures |recs| <= n ==> C.Whole(C.GetRecs(c, n)) == Some(recs + BlankRecs(n - |recs|))
    ensures n < |recs| ==> C.Whole(C.GetRecs(c, n)) == None
  {
    if |recs| <= n {
      BlanksToTheEnd(c, n, recs, c.(p := |c.s|));
    } else {
      FewerRead(c, recs, n);
    }
  }

  lemma {:induction false} HeadAnnounces(h: C.Head, n: nat, recs: seq<C.FidRec>)
    requires C.FitsHead(h) && n < 0x1_0000_0000 && C.FitsRecs(recs)
    ensures var (h', n', c) := C.GetHead(Reader(Announcing(h, n, recs), 0, false));
      && h' == h && n' == n && Ahead(c, C.AllRecBytes(recs))
      && C.GetRecs(c, |recs|) == Got(Some(recs), c.(p := |c.s|))
  {
    var s := Announcing(h, n, recs);
    var c := Reader(s, 0, false);
    C.WholeAhead(s);
    C.HeadAhead(c, h, n, C.AllRecBytes(recs));
    C.RecsAhead(C.GetHead(c).2, recs);
  }

  lemma {:induction false} BlanksToTheEnd(c: Reader, n: nat, recs: seq<C.FidRec>, end: Reader)
    requires |recs| <= n && C.GetRecs(c, |recs|) == Got(Some(recs), end) && AtEnd(end)
    ensures C.Whole(C.GetRecs(c, n)) == Some(recs + BlankRecs(n - |recs|))
  {
    BlanksFollow(c, |recs|, recs, end, n - |recs|);
  }

  lemma {:induction false} FewerRead(c: Reader, recs: seq<C.FidRec>, n: nat)
    requires C.FitsRecs(recs) && Ahead(c, C.AllRecBytes(recs)) && n < |recs|
    ensures C.Whole(C.GetRecs(c, n)) == None
  {
    AllRecSplit(recs, n);
    AheadSplit(c, C.AllRecBytes(recs[..n]), C.AllRecBytes(recs[n..]));
    C.RecsAhead(c, recs[..n]);
  }

  lemma {:induction false} AllRecSplit(recs: seq<C.FidRec>, n: nat)
    requires n < |recs| && C.FitsRecs(recs)
    ensures C.AllRecBytes(recs) == C.AllRecBytes(recs[..n]) + C.AllRecBytes(recs[n..])
    ensures C.FitsRecs(recs[..n]) && |C.AllRecBytes(recs[n..])| > 0
    decreases n
  {
    if n == 0 {
      C.RecSize(recs[0]);
      assert recs[0..] == recs && recs[..0] == [];
    } else {
      var r, rest, part := recs[0], recs[1..], recs[..n];
      AllRecSplit(rest, n - 1);
      assert part[0] == r && part[1..] == rest[..n - 1] && recs[n..] == rest[n - 1..];
      Assoc(C.RecBytes(r), C.AllRecBytes(rest[..n - 1]), C.AllRecBytes(recs[n..]));
    }
  }

  lemma Assoc(a: seq<Byte>, b: seq<Byte>, c: seq<Byte>)
    ensures (a + b) + c == a + (b + c)
  {
  }
}
