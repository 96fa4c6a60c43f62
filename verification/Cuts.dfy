/** Messages cut short (np_deserialize of libnpfs/np.c): exactly where the parser does not notice. */
module Cuts {
  import opened Bytes
  import opened Cbuf
  import opened Wire
  import opened Codec

  // ---- what stands between the pieces of a list

  /** The bytes are the first so many pieces, whole. */
  ghost predicate Between(cut: seq<Byte>, pieces: seq<seq<Byte>>)
    decreases |pieces|
  {
    cut == [] || (pieces != [] && pieces[0] <= cut && Between(cut[|pieces[0]|..], pieces[1..]))
  }

  lemma {:induction false} BetweenMeans(cut: seq<Byte>, pieces: seq<seq<Byte>>)
    ensures Between(cut, pieces) <==> exists k :: 0 <= k <= |pieces| && cut == Flat(pieces[..k])
    decreases |pieces|
  {
    if cut == [] {
      assert Flat(pieces[..0]) == [];
    } else if pieces != [] {
      var first, rest := pieces[0], pieces[1..];
      forall k | 1 <= k <= |pieces| ensures Flat(pieces[..k]) == first + Flat(rest[..k - 1]) {
        assert pieces[..k][0] == first && pieces[..k][1..] == rest[..k - 1];
      }
      assert Flat(pieces[..0]) == [];
      if first <= cut {
        BetweenMeans(cut[|first|..], rest);
        if Between(cut, pieces) {
          var k :| 0 <= k <= |rest| && cut[|first|..] == Flat(rest[..k]);
          assert Flat(pieces[..k + 1]) == first + Flat(rest[..k]);
          assert cut == first + cut[|first|..];
        } else {
          forall k | 0 <= k <= |pieces| ensures cut != Flat(pieces[..k]) {
            if k > 0 { assert (first + Flat(rest[..k - 1]))[|first|..] == Flat(rest[..k - 1]); }
          }
        }
      }
    }
  }

  lemma {:induction false} BetweenConcat(cut: seq<Byte>, a: seq<seq<Byte>>, b: seq<seq<Byte>>)
    requires cut <= Flat(a) + Flat(b)
    ensures Between(cut, a + b) <==>
      if |cut| <= |Flat(a)| then Between(cut, a) else Between(cut[|Flat(a)|..], b)
    decreases |a|
  {
    if a == [] {
      assert a + b == b;
    } else if cut != [] {
      assert (a + b)[0] == a[0] && (a + b)[1..] == a[1..] + b;
      assert Flat(a) + Flat(b) == a[0] + (Flat(a[1..]) + Flat(b));
      if |a[0]| <= |cut| {
        var rest := cut[|a[0]|..];
        assert a[0] <= cut;
        assert rest <= Flat(a[1..]) + Flat(b);
        BetweenConcat(rest, a[1..], b);
        if |cut| > |Flat(a)| { assert rest[|Flat(a[1..])|..] == cut[|Flat(a)|..]; }
      }
    }
  }

  // ---- a cursor with just these bytes left

  ghost predicate Left(c: Reader, cut: seq<Byte>) { !c.over && c.p <= |c.s| && c.s[c.p..] == cut }

  /** Where a cursor gets that reads the pieces from what is left of them: to the end, or it is marked. */
  ghost predicate Lands(c: Reader, pieces: seq<seq<Byte>>, cut: seq<Byte>) {
    if Between(cut, pieces) then AtEnd(c) else c.over
  }

  ghost predicate Stopped(c: Reader) { AtEnd(c) || c.over }

  lemma StoppedReads(c: Reader, k: nat)
    requires Stopped(c)
    ensures k > 0 ==> Int(c, k) == 0
    ensures Skip(c, k) == c
  {
  }

  lemma {:induction false} LandsShort(c: Reader, a: seq<seq<Byte>>, b: seq<seq<Byte>>, cut: seq<Byte>)
    requires cut <= Flat(a) + Flat(b) && |cut| <= |Flat(a)| && Lands(c, a, cut)
    ensures Lands(c, a + b, cut) && Stopped(c)
  {
    BetweenConcat(cut, a, b);
  }

  lemma {:induction false} BetweenAll(pieces: seq<seq<Byte>>)
    ensures Between(Flat(pieces), pieces)
  {
    if pieces != [] { BetweenAll(pieces[1..]); }
  }

  lemma {:induction false} LandsLong(c: Reader, a: seq<seq<Byte>>, b: seq<seq<Byte>>, cut: seq<Byte>)
    requires cut <= Flat(a) + Flat(b) && |Flat(a)| <= |cut| && Lands(c, b, cut[|Flat(a)|..])
    ensures Lands(c, a + b, cut)
  {
    BetweenConcat(cut, a, b);
    if |cut| == |Flat(a)| {
      assert cut == Flat(a);
      BetweenAll(a);
    }
  }

  lemma PastLeaves(c: Reader, enc: seq<Byte>, cut: seq<Byte>)
    requires Left(c, cut) && enc <= cut
    ensures Ahead(c, enc) && Left(Past(c, enc), cut[|enc|..])
  {
  }

  /** Whatever of the piece is left, reading past all of it gets a cursor where it lands. */
  lemma PieceCut(c: Reader, piece: seq<Byte>, cut: seq<Byte>)
    requires Left(c, cut) && cut <= piece
    ensures Lands(Skip(c, |piece|), [piece], cut) && Stopped(Skip(c, |piece|))
  {
    assert |c.s| - c.p == |cut|;
    BetweenOne(cut, piece);
  }

  lemma {:induction false} BetweenOne(cut: seq<Byte>, piece: seq<Byte>)
    requires cut <= piece
    ensures Between(cut, [piece]) <==> cut == [] || |cut| == |piece|
  {
    if |cut| == |piece| {
      assert cut == piece && cut[|piece|..] == [] && [piece][1..] == [];
    }
  }

  lemma {:induction false} IntCut(c: Reader, n: nat, k: nat, cut: seq<Byte>)
    requires Left(c, cut) && cut <= LE(n, k) && k > 0 && n < Pow256(k)
    ensures Lands(Skip(c, k), [LE(n, k)], cut) && Stopped(Skip(c, k))
    ensures Int(c, k) == if |cut| == k then n else 0
  {
    PieceCut(c, LE(n, k), cut);
    if |cut| == k { IntAhead(c, n, k); }
  }

  // ---- what of a field or of several is left

  /** The pieces a value is read in: unlike a writer, a reader checks for a string's count and for its bytes. */
  function Pieces(v: Value): seq<seq<Byte>> {
    match v
    case Str(s) => [LE(|s|, 2)] + [s]
    case Names(names) => [LE(|names|, 2)] + AllPieces(names)
    case _ => Chunks(v)
  }

  function AllPieces(vals: seq<Value>): seq<seq<Byte>> {
    if vals == [] then [] else Pieces(vals[0]) + AllPieces(vals[1..])
  }

  lemma {:induction false} PiecesFlat(v: Value)
    ensures Flat(Pieces(v)) == Enc(v)
    decreases v, 0
  {
    match v
    case Str(s) => FlatConcat([LE(|s|, 2)], [s]); FlatOne(LE(|s|, 2)); FlatOne(s); FlatOne(LE(|s|, 2) + s);
    case Names(names) =>
      AllPiecesFlat(names);
      FlatConcat([LE(|names|, 2)], AllPieces(names));
      FlatConcat([LE(|names|, 2)], AllChunks(names));
    case _ =>
  }

  lemma {:induction false} AllPiecesFlat(vals: seq<Value>)
    ensures Flat(AllPieces(vals)) == EncAll(vals)
    decreases vals, 1
  {
    if vals != [] {
      PiecesFlat(vals[0]);
      AllPiecesFlat(vals[1..]);
      FlatConcat(Pieces(vals[0]), AllPieces(vals[1..]));
      EncAllCons(vals);
    }
  }

  /** A field of which the integer n of k bytes comes first, and the pieces rest behind it. */
  lemma {:induction false} CountFirst(c: Reader, n: nat, k: nat, rest: seq<seq<Byte>>, cut: seq<Byte>)
    requires Left(c, cut) && cut <= LE(n, k) + Flat(rest) && k > 0 && n < Pow256(k)
    ensures |cut| < k ==> Int(c, k) == 0 && Lands(Skip(c, k), [LE(n, k)] + rest, cut) && Stopped(Skip(c, k))
    ensures |cut| >= k ==> Int(c, k) == n && Left(Skip(c, k), cut[k..]) && cut[k..] <= Flat(rest)
  {
    FlatOne(LE(n, k));
    if |cut| < k {
      IntCut(c, n, k, cut);
      LandsShort(Skip(c, k), [LE(n, k)], rest, cut);
    } else {
      assert LE(n, k) <= cut;
      PastLeaves(c, LE(n, k), cut);
      IntAhead(c, n, k);
    }
  }

  lemma {:induction false} AfterCount(c: Reader, n: nat, k: nat, rest: seq<seq<Byte>>, cut: seq<Byte>)
    requires cut <= LE(n, k) + Flat(rest) && |cut| >= k && Lands(c, rest, cut[k..])
    ensures Lands(c, [LE(n, k)] + rest, cut)
  {
    FlatOne(LE(n, k));
    LandsLong(c, [LE(n, k)], rest, cut);
  }

  lemma StrSkips(c: Reader)
    ensures GetStr(c).1 == Skip(Skip(c, 2), Int(c, 2))
  {
  }

  lemma {:induction false} StrCut(c: Reader, s: seq<Byte>, cut: seq<Byte>)
    requires Left(c, cut) && |s| < 0x1_0000 && cut <= LE(|s|, 2) + s
    ensures Lands(GetStr(c).1, [LE(|s|, 2)] + [s], cut) && Stopped(GetStr(c).1)
  {
    StrSkips(c);
    FlatOne(s);
    PowValues();
    CountFirst(c, |s|, 2, [s], cut);
    if |cut| < 2 {
      StoppedReads(Skip(c, 2), 0);
    } else {
      PieceCut(Skip(c, 2), s, cut[2..]);
      AfterCount(Skip(Skip(c, 2), |s|), |s|, 2, [s], cut);
    }
  }

  lemma QidCut(c: Reader, q: QidVal, cut: seq<Byte>)
    requires Left(c, cut) && FitsQid(q) && cut <= Flat(QidChunks(q))
    ensures Lands(GetQid(c).1, QidChunks(q), cut) && Stopped(GetQid(c).1)
  {
    var typ, version, path := LE(q.typ, 1), LE(q.version, 4), LE(q.path, 8);
    PowValues();
    FlatOne(path);
    FlatCons(version, [path]);
    FlatCons(typ, [version] + [path]);
    assert QidChunks(q) == [typ] + ([version] + [path]);
    CountFirst(c, q.typ, 1, [version] + [path], cut);
    var c1 := Skip(c, 1);
    if |cut| < 1 {
      StoppedReads(c1, 4);
      StoppedReads(c1, 8);
    } else {
      QidRestCut(c1, q, cut[1..]);
      AfterCount(Skip(Skip(c1, 4), 8), q.typ, 1, [version] + [path], cut);
    }
  }

  lemma {:induction false} FlatCons(x: seq<Byte>, rest: seq<seq<Byte>>)
    ensures Flat([x] + rest) == x + Flat(rest)
  {
    FlatConcat([x], rest);
    FlatOne(x);
  }

  lemma QidRestCut(c: Reader, q: QidVal, cut: seq<Byte>)
    requires Left(c, cut) && FitsQid(q) && cut <= LE(q.version, 4) + LE(q.path, 8)
    ensures Lands(Skip(Skip(c, 4), 8), [LE(q.version, 4)] + [LE(q.path, 8)], cut) && Stopped(Skip(Skip(c, 4), 8))
  {
    PowValues();
    FlatOne(LE(q.path, 8));
    CountFirst(c, q.version, 4, [LE(q.path, 8)], cut);
    if |cut| < 4 {
      StoppedReads(Skip(c, 4), 8);
    } else {
      IntCut(Skip(c, 4), q.path, 8, cut[4..]);
      AfterCount(Skip(Skip(c, 4), 8), q.version, 4, [LE(q.path, 8)], cut);
    }
  }

  lemma {:induction false} DataCut(c: Reader, d: seq<Byte>, cut: seq<Byte>)
    requires Left(c, cut) && |d| < 0x8000_0000 && cut <= LE(|d|, 4) + d
    ensures Lands(GetData(c).1, [LE(|d|, 4)] + [d], cut) && Stopped(GetData(c).1)
  {
    PowValues();
    FlatOne(d);
    CountFirst(c, |d|, 4, [d], cut);
    DataSkips(c);
    if |cut| < 4 {
      StoppedReads(Skip(c, 4), 0);
    } else {
      PieceCut(Skip(c, 4), d, cut[4..]);
      AfterCount(Skip(Skip(c, 4), |d|), |d|, 4, [d], cut);
    }
  }

  lemma DataSkips(c: Reader)
    ensures Int(c, 4) < 0x8000_0000 ==> GetData(c).1 == Skip(Skip(c, 4), Int(c, 4))
  {
  }

  lemma {:induction false} NamesCut(c: Reader, names: seq<Value>, cut: seq<Byte>)
    requires forall i :: 0 <= i < |names| ==> names[i].Str? && |names[i].s| < 0x1_0000
    requires Left(c, cut) && cut <= EncAll(names)
    ensures Lands(GetNames(c, |names|).1, AllPieces(names), cut) && Stopped(GetNames(c, |names|).1)
    decreases |names|
  {
    if names != [] {
      var s, rest := names[0].s, names[1..];
      EncAllCons(names);
      AllPiecesFlat(names);
      AllPiecesFlat(rest);
      PiecesFlat(names[0]);
      var c1 := GetStr(c).1;
      FlatOne(LE(|s|, 2) + s);
      if |cut| <= 2 + |s| {
        StrCut(c, s, cut);
        LandsShort(c1, Pieces(names[0]), AllPieces(rest), cut);
        StoppedNames(c1, |rest|);
      } else {
        var enc := LE(|s|, 2) + s;
        assert enc <= cut;
        PastLeaves(c, enc, cut);
        StrAhead(c, s);
        assert cut[|enc|..] <= EncAll(rest);
        NamesCut(c1, rest, cut[|enc|..]);
        LandsLong(GetNames(c1, |rest|).1, Pieces(names[0]), AllPieces(rest), cut);
      }
    }
  }

  lemma {:induction false} StoppedNames(c: Reader, n: nat)
    requires Stopped(c)
    ensures GetNames(c, n).1 == c
  {
    if n > 0 {
      StoppedReads(c, 2);
      StoppedReads(c, 0);
      StrSkips(c);
      StoppedNames(c, n - 1);
    }
  }

  lemma {:induction false} QidsCut(c: Reader, qids: seq<QidVal>, cut: seq<Byte>)
    requires forall i :: 0 <= i < |qids| ==> FitsQid(qids[i])
    requires Left(c, cut) && cut <= Flat(AllQidChunks(qids))
    ensures Lands(GetQids(c, |qids|).1, AllQidChunks(qids), cut) && Stopped(GetQids(c, |qids|).1)
    decreases |qids|
  {
    if qids != [] {
      var q, rest := qids[0], qids[1..];
      var c1, enc := GetQid(c).1, Flat(QidChunks(q));
      EncQidsCons(qids);
      if |cut| <= |enc| {
        QidCut(c, q, cut);
        LandsShort(c1, QidChunks(q), AllQidChunks(rest), cut);
        StoppedQids(c1, |rest|);
      } else {
        assert enc <= cut;
        PastLeaves(c, enc, cut);
        QidAhead(c, q);
        assert cut[|enc|..] <= Flat(AllQidChunks(rest));
        QidsCut(c1, rest, cut[|enc|..]);
        LandsLong(GetQids(c1, |rest|).1, QidChunks(q), AllQidChunks(rest), cut);
      }
    }
  }

  lemma {:induction false} StoppedQids(c: Reader, n: nat)
    requires Stopped(c)
    ensures GetQids(c, n).1 == c
  {
    if n > 0 {
      StoppedReads(c, 1);
      StoppedReads(c, 4);
      StoppedReads(c, 8);
      StoppedQids(c, n - 1);
    }
  }

  /** Names and qids, behind their count. */
  lemma {:induction false} ListCut(c: Reader, v: Value, cut: seq<Byte>)
    requires Left(c, cut) && Fits(v) && cut <= Enc(v) && (v.Names? || v.Qids?)
    ensures var g := GetField(c, FieldOf(v)); g.value.Some? && Lands(g.c, Pieces(v), cut) && Stopped(g.c)
  {
    var n, rest := if v.Names? then |v.names| else |v.qids|,
      if v.Names? then AllPieces(v.names) else AllQidChunks(v.qids);
    var c1 := Skip(c, 2);
    PowValues();
    PiecesFlat(v);
    FlatCons(LE(n, 2), rest);
    CountFirst(c, n, 2, rest, cut);
    if |cut| >= 2 {
      if v.Names? {
        AllPiecesFlat(v.names);
        NamesCut(c1, v.names, cut[2..]);
        AfterCount(GetNames(c1, n).1, n, 2, rest, cut);
      } else {
        QidsCut(c1, v.qids, cut[2..]);
        AfterCount(GetQids(c1, n).1, n, 2, rest, cut);
      }
    }
  }

  lemma {:induction false} FieldCut(c: Reader, v: Value, cut: seq<Byte>)
    requires Left(c, cut) && Fits(v) && cut <= Enc(v)
    ensures var g := GetField(c, FieldOf(v)); g.value.Some? && Lands(g.c, Pieces(v), cut) && Stopped(g.c)
  {
    PowValues();
    PiecesFlat(v);
    match v
    case U8(n) => FlatOne(LE(n, 1)); IntCut(c, n, 1, cut);
    case U16(n) => FlatOne(LE(n, 2)); IntCut(c, n, 2, cut);
    case U32(n) => FlatOne(LE(n, 4)); IntCut(c, n, 4, cut);
    case U64(n) => FlatOne(LE(n, 8)); IntCut(c, n, 8, cut);
    case Str(s) => FlatOne(LE(|s|, 2) + s); StrCut(c, s, cut);
    case Qid(q) => QidCut(c, q, cut);
    case Data(d) => FlatCons(LE(|d|, 4), [d]); FlatOne(d); DataCut(c, d, cut);
    case _ => ListCut(c, v, cut);
  }

  lemma {:induction false} StoppedFields(c: Reader, fields: seq<Field>)
    requires Stopped(c)
    ensures var g := GetAll(c, fields); g.value.Some? && g.c == c
  {
    if !c.over {
      BlankFields(c, fields);
    } else if fields != [] {
      forall k: nat ensures Skip(c, k) == c && (k > 0 ==> Int(c, k) == 0) { StoppedReads(c, k); }
      assert GetField(c, fields[0]).value.Some? && GetField(c, fields[0]).c == c;
      StoppedFields(c, fields[1..]);
    }
  }

  lemma {:induction false} FieldsCut(c: Reader, vals: seq<Value>, cut: seq<Byte>)
    requires Left(c, cut) && (forall i :: 0 <= i < |vals| ==> Fits(vals[i])) && cut <= EncAll(vals)
    ensures var g := GetAll(c, FieldsOf(vals)); g.value.Some? && Lands(g.c, AllPieces(vals), cut) && Stopped(g.c)
    decreases |vals|
  {
    if vals != [] {
      var v, rest := vals[0], vals[1..];
      EncAllCons(vals);
      PiecesFlat(v);
      AllPiecesFlat(rest);
      assert FieldsOf(vals)[1..] == FieldsOf(rest);
      var g := GetField(c, FieldOf(v));
      if |cut| <= |Enc(v)| {
        FieldCut(c, v, cut);
        LandsShort(g.c, Pieces(v), AllPieces(rest), cut);
        StoppedFields(g.c, FieldsOf(rest));
      } else {
        assert Enc(v) <= cut;
        PastLeaves(c, Enc(v), cut);
        FieldAhead(c, v);
        assert cut[|Enc(v)|..] <= EncAll(rest);
        FieldsCut(g.c, rest, cut[|Enc(v)|..]);
        LandsLong(GetAll(g.c, FieldsOf(rest)).c, Pieces(v), AllPieces(rest), cut);
      }
    }
  }

  // ---- messages cut short

  /** The pieces of a message behind its size. */
  function MessagePieces(typ: nat, tag: nat, vals: seq<Value>): seq<seq<Byte>> {
    [LE(typ, 1)] + ([LE(tag, 2)] + AllPieces(vals))
  }

  /** What is read behind the type. */
  lemma {:induction false} TagAndFieldsCut(c: Reader, tag: nat, vals: seq<Value>, missing: seq<Field>, cut: seq<Byte>)
    requires Left(c, cut) && tag < 0x1_0000 && (forall i :: 0 <= i < |vals| ==> Fits(vals[i]))
    requires cut <= LE(tag, 2) + EncAll(vals)
    ensures var g := GetAll(Skip(c, 2), FieldsOf(vals) + missing);
      g.value.Some? && Lands(g.c, [LE(tag, 2)] + AllPieces(vals), cut)
  {
    var c1, pieces := Skip(c, 2), AllPieces(vals);
    PowValues();
    AllPiecesFlat(vals);
    CountFirst(c, tag, 2, pieces, cut);
    if |cut| < 2 {
      StoppedFields(c1, FieldsOf(vals) + missing);
    } else {
      FieldsCut(c1, vals, cut[2..]);
      var g := GetAll(c1, FieldsOf(vals));
      GetAllConcat(c1, FieldsOf(vals), missing, g.value.value, g.c);
      StoppedFields(g.c, missing);
      AfterCount(g.c, tag, 2, pieces, cut);
    }
  }

  /** A message cut short, with its size corrected to what is left of it and anything behind it in the buffer, is
      accepted just when the type is there and the cut falls between two pieces. */
  lemma CutExactly(typ: nat, tag: nat, vals: seq<Value>, missing: seq<Field>, cut: seq<Byte>, tail: seq<Byte>,
                   dotu: bool)
    requires 0 < typ < 0x100 && tag < 0x1_0000 && |cut| + 4 < WildSize
    requires Layout(typ, dotu) == Some(FieldsOf(vals) + missing) && forall i :: 0 <= i < |vals| ==> Fits(vals[i])
    requires cut <= LE(typ, 1) + (LE(tag, 2) + EncAll(vals))
    ensures var pkt, pieces := LE(|cut| + 4, 4) + (cut + tail), MessagePieces(typ, tag, vals);
      && UnLE(pkt[..4]) == |cut| + 4 <= |pkt|
      && (Parse(pkt, dotu).Some? <==> cut != [] && exists k :: 0 <= k <= |pieces| && cut == Flat(pieces[..k]))
  {
    BetweenMeans(cut, MessagePieces(typ, tag, vals));
    ParseCut(cut, tail, dotu);
    if cut == [] {
      NoType(dotu);
    } else {
      TypeCut(typ, tag, vals, missing, cut, dotu);
    }
  }

  lemma NoType(dotu: bool)
    ensures Layout(Int(Reader([], 0, false), 1), dotu).None?
  {
    assert Layout(0, dotu).None?;
  }

  lemma {:induction false} TypeCut(typ: nat, tag: nat, vals: seq<Value>, missing: seq<Field>, cut: seq<Byte>,
                                   dotu: bool)
    requires 0 < typ < 0x100 && tag < 0x1_0000 && (forall i :: 0 <= i < |vals| ==> Fits(vals[i])) && cut != []
    requires Layout(typ, dotu) == Some(FieldsOf(vals) + missing) && cut <= LE(typ, 1) + (LE(tag, 2) + EncAll(vals))
    ensures var c := Reader(cut, 0, false);
      ParseFields(|cut| + 4, Int(c, 1), Int(Skip(c, 1), 2), Layout(Int(c, 1), dotu), Skip(Skip(c, 1), 2)).Some?
      <==> Between(cut, MessagePieces(typ, tag, vals))
  {
    var c, rest := Reader(cut, 0, false), [LE(tag, 2)] + AllPieces(vals);
    AllPiecesFlat(vals);
    FlatCons(LE(tag, 2), AllPieces(vals));
    PowValues();
    CountFirst(c, typ, 1, rest, cut);
    var g := GetAll(Skip(Skip(c, 1), 2), FieldsOf(vals) + missing);
    TagAndFieldsCut(Skip(c, 1), tag, vals, missing, cut[1..]);
    AfterCount(g.c, typ, 1, rest, cut);
  }

  lemma ParseCut(cut: seq<Byte>, tail: seq<Byte>, dotu: bool)
    requires |cut| + 4 < WildSize
    ensures var pkt, c := LE(|cut| + 4, 4) + (cut + tail), Reader(cut, 0, false);
      && UnLE(pkt[..4]) == |cut| + 4 <= |pkt|
      && Parse(pkt, dotu) ==
         ParseFields(|cut| + 4, Int(c, 1), Int(Skip(c, 1), 2), Layout(Int(c, 1), dotu), Skip(Skip(c, 1), 2))
  {
    SizeFirst(cut, tail);
  }

  lemma Slices(a: seq<Byte>, b: seq<Byte>, c: seq<Byte>)
    ensures (a + (b + c))[..|a|] == a && (a + (b + c))[|a|..|a| + |b|] == b
  {
  }

  lemma {:induction false} SizeFirst(cut: seq<Byte>, tail: seq<Byte>)
    requires |cut| + 4 < WildSize
    ensures var pkt := LE(|cut| + 4, 4) + (cut + tail);
      UnLE(pkt[..4]) == |cut| + 4 && pkt[4..|cut| + 4] == cut
  {
    Slices(LE(|cut| + 4, 4), cut, tail);
    PowFour(|cut| + 4);
  }

  lemma {:induction false} PowFour(n: nat)
    requires n < WildSize
    ensures UnLE(LE(n, 4)) == n
  {
    PowValues();
    UnLEOfLE(n, 4);
  }
}
