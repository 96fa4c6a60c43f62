/** The checkpoint of a connection's fids to bytes, and the restore of them (libufs/ufs.c, with the cursor of
    libufs/ufsimpl.h). */
module Checkpoint {
  import opened Bytes
  import opened Cbuf
  import opened Wire
  import opened Codec
  import opened Packets
  import P = FidPool

  const Ftxattr := 0x100

  /** The first number that is no C int. */
  const IntEnd := 0x8000_0000

  datatype Head = Head(msize: nat, dotu: nat, dotl: nat)

  /** What a checkpoint records of a fid. */
  datatype FidRec = FidRec(fid: nat, omode: nat, typ: nat, diroffset: nat, uid: nat, aux: P.Aux)

  predicate HasXattr(typ: nat) { typ / Ftxattr % 2 == 1 }

  ghost predicate FitsHead(h: Head) { h.msize < 0x1_0000_0000 && h.dotu < 0x100 && h.dotl < 0x100 }

  /** Names are not empty when present, and a value is present just on the fids that read or write one. */
  ghost predicate FitsRec(r: FidRec) {
    && r.fid < 0x1_0000_0000 && r.omode < 0x1_0000 && r.typ < 0x1_0000 && r.diroffset < 0x1_0000_0000
    && r.uid < 0x1_0000_0000 && |r.aux.path| < 0x1_0000 && r.aux.omode < 0x1_0000_0000
    && r.aux.xattrflags < 0x1_0000_0000
    && (r.aux.xattrname.Some? ==> 0 < |r.aux.xattrname.value| < 0x1_0000)
    && (r.aux.xattr.Some? <==> HasXattr(r.typ)) && (r.aux.xattr.Some? ==> |r.aux.xattr.value| < IntEnd)
  }

  function Bytes0(o: Option<seq<Byte>>): seq<Byte> { if o.Some? then o.value else [] }

  function HeadValues(h: Head, n: nat): seq<Value> { [U32(h.msize), U8(h.dotu), U8(h.dotl), U32(n)] }

  /** The fields of a record; the bytes of the value stand behind them. */
  function RecValues(r: FidRec): seq<Value> {
    [U32(r.fid), U16(r.omode), U16(r.typ), U32(r.diroffset), U32(r.uid)]
    + [Str(r.aux.path), U32(r.aux.omode), Str(Bytes0(r.aux.xattrname)), U32(r.aux.xattrflags),
       U64(|Bytes0(r.aux.xattr)|)]
  }

  const RecFields := [F16, F16, F32, F32] + [FStr, F32, FStr, F32, F64]

  function RecBytes(r: FidRec): seq<Byte> { EncAll(RecValues(r)) + Bytes0(r.aux.xattr) }

  function AllRecBytes(recs: seq<FidRec>): seq<Byte> {
    if recs == [] then [] else RecBytes(recs[0]) + AllRecBytes(recs[1..])
  }

  function Image(h: Head, recs: seq<FidRec>): seq<Byte> { EncAll(HeadValues(h, |recs|)) + AllRecBytes(recs) }

  // ---- reading an image

  /** The record of which the fields after the number are vals. */
  function RecOf(fid: nat, vals: seq<Value>, data: seq<Byte>): Option<FidRec> {
    if |vals| == 9 && vals[0].U16? && vals[1].U16? && vals[2].U32? && vals[3].U32? && vals[4].Str? && vals[5].U32?
       && vals[6].Str? && vals[7].U32? then
      Some(FidRec(fid, vals[0].n, vals[1].n, vals[2].n, vals[3].n,
                  P.Aux(vals[4].s, vals[5].n, if vals[6].s == [] then None else Some(vals[6].s), vals[7].n,
                        if HasXattr(vals[1].n) then Some(data) else None)))
    else None
  }

  /** One turn of the restore loop: no record when the cursor is marked behind the number, or a string is not there. */
  function GetRec(c: Reader): Got<FidRec> {
    var fid, c1 := Int(c, 4), Skip(c, 4);
    if c1.over then Got(None, c1) else GetRest(c1, fid)
  }

  /** The fields behind the number; no record for a value whose size is no C int. */
  function GetRest(c: Reader, fid: nat): Got<FidRec> {
    var g := GetAll(c, RecFields);
    if g.value.None? || |g.value.value| != 9 || !g.value.value[8].U64? then Got(None, g.c)
    else
      var size := g.value.value[8].n;
      if size >= IntEnd then Got(None, g.c)
      else Got(RecOf(fid, g.value.value, Bytes0(Take(g.c, size))), Skip(g.c, size))
  }

  function GetRecs(c: Reader, n: nat): Got<seq<FidRec>>
    decreases n
  {
    if n == 0 then Got(Some([]), c)
    else
      var g := GetRec(c);
      if g.value.None? then Got(None, g.c)
      else
        var rest := GetRecs(g.c, n - 1);
        if rest.value.None? then rest else Got(Some([g.value.value] + rest.value.value), rest.c)
  }

  function GetHead(c: Reader): (Head, nat, Reader) {
    var c1 := Skip(c, 4);
    var c2 := Skip(c1, 1);
    var c3 := Skip(c2, 1);
    (Head(Int(c, 4), Int(c1, 1), Int(c2, 1)), Int(c3, 4), Skip(c3, 4))
  }

  /** ufs_restore up to the point where it reopens the files. An image with anything left is refused; one that ends
      early is refused just when it ends inside one of the pieces it was put in. A count that is no C int asks malloc
      for more than there is, and nothing is restored. */
  function Restored(bytes: seq<Byte>): Option<(Head, seq<FidRec>)> {
    var (h, n, c) := GetHead(Reader(bytes, 0, false));
    if n >= IntEnd then None else RestoredFrom(h, n, c)
  }

  function RestoredFrom(h: Head, n: nat, c: Reader): Option<(Head, seq<FidRec>)> {
    var recs := Whole(GetRecs(c, n));
    if recs.None? then None else Some((h, recs.value))
  }

  function Whole(g: Got<seq<FidRec>>): Option<seq<FidRec>> { if g.c.over || g.c.p < |g.c.s| then None else g.value }

  lemma RecFits(r: FidRec)
    requires FitsRec(r)
    ensures forall i :: 0 <= i < |RecValues(r)| ==> Fits(RecValues(r)[i])
  {
  }

  lemma RecLayout(r: FidRec)
    ensures FieldsOf(RecValues(r)[1..]) == RecFields
  {
  }

  lemma RecAgain(r: FidRec)
    requires FitsRec(r)
    ensures RecOf(r.fid, RecValues(r)[1..], Bytes0(r.aux.xattr)) == Some(r)
  {
  }

  /** A record reads back, and the cursor moves behind it. */
  lemma RecAhead(c: Reader, r: FidRec)
    requires FitsRec(r) && Ahead(c, RecBytes(r))
    ensures GetRec(c) == Got(Some(r), Past(c, RecBytes(r)))
  {
    var rest, data := RecValues(r)[1..], Bytes0(r.aux.xattr);
    RecFits(r);
    RecLayout(r);
    RecAgain(r);
    var number, fields := LE(r.fid, 4), EncAll(rest);
    RecParts(r);
    AheadSplit(c, number, fields + data);
    PowValues();
    IntAhead(c, r.fid, 4);
    var c1 := Past(c, number);
    AheadSplit(c1, fields, data);
    AllAhead(c1, rest);
    DataThere(Past(c1, fields), data);
    GetRecIs(c, r.fid, rest, data, c1, Past(c1, fields));
  }

  lemma RecParts(r: FidRec)
    ensures RecBytes(r) == LE(r.fid, 4) + (EncAll(RecValues(r)[1..]) + Bytes0(r.aux.xattr))
  {
    EncAllCons(RecValues(r));
    FlatOne(LE(r.fid, 4));
  }

  lemma {:induction false} GetRecIs(c: Reader, fid: nat, vals: seq<Value>, data: seq<Byte>, c1: Reader, c2: Reader)
    requires Int(c, 4) == fid && Skip(c, 4) == c1 && !c1.over && GetAll(c1, RecFields) == Got(Some(vals), c2)
    requires |vals| == 9 && vals[8] == U64(|data|) && |data| < IntEnd && Take(c2, |data|) == Some(data)
    ensures GetRec(c) == Got(RecOf(fid, vals, data), Skip(c2, |data|))
  {
  }

  lemma DataThere(c: Reader, data: seq<Byte>)
    requires Ahead(c, data)
    ensures Take(c, |data|) == Some(data) && Skip(c, |data|) == Past(c, data)
  {
  }

  lemma {:induction false} GetRecsCons(c: Reader, r: FidRec, recs: seq<FidRec>, c1: Reader, c2: Reader)
    requires GetRec(c) == Got(Some(r), c1) && GetRecs(c1, |recs|) == Got(Some(recs), c2)
    ensures GetRecs(c, |recs| + 1) == Got(Some([r] + recs), c2)
  {
  }

  ghost predicate FitsRecs(recs: seq<FidRec>) { recs == [] || (FitsRec(recs[0]) && FitsRecs(recs[1..])) }

  lemma {:induction false} RecsAhead(c: Reader, recs: seq<FidRec>)
    requires FitsRecs(recs) && Ahead(c, AllRecBytes(recs))
    ensures GetRecs(c, |recs|) == Got(Some(recs), Past(c, AllRecBytes(recs)))
    decreases |recs|
  {
    if recs != [] {
      var r, rest := recs[0], recs[1..];
      var c1 := Past(c, RecBytes(r));
      assert recs == [r] + rest;
      AheadSplit(c, RecBytes(r), AllRecBytes(rest));
      RecAhead(c, r);
      RecsAhead(c1, rest);
      GetRecsCons(c, r, rest, c1, Past(c, RecBytes(r) + AllRecBytes(rest)));
    }
  }

  lemma HeadAhead(c: Reader, h: Head, n: nat, rest: seq<Byte>)
    requires FitsHead(h) && n < 0x1_0000_0000 && Ahead(c, EncAll(HeadValues(h, n)) + rest)
    ensures var (h', n', c') := GetHead(c);
      h' == h && n' == n && Ahead(c', rest) && Past(c', rest) == Past(c, EncAll(HeadValues(h, n)) + rest)
  {
    HeadBytes(h, n);
    var a, b, d, e := LE(h.msize, 4), LE(h.dotu, 1), LE(h.dotl, 1), LE(n, 4);
    assert EncAll(HeadValues(h, n)) + rest == a + (b + (d + (e + rest)));
    PowValues();
    AheadSplit(c, a, b + (d + (e + rest)));
    IntAhead(c, h.msize, 4);
    var c1 := Past(c, a);
    AheadSplit(c1, b, d + (e + rest));
    IntAhead(c1, h.dotu, 1);
    var c2 := Past(c1, b);
    AheadSplit(c2, d, e + rest);
    IntAhead(c2, h.dotl, 1);
    var c3 := Past(c2, d);
    AheadSplit(c3, e, rest);
    IntAhead(c3, n, 4);
  }

  lemma WholeAhead(image: seq<Byte>)
    ensures Ahead(Reader(image, 0, false), image)
  {
    assert image[0..|image|] == image;
  }

  /** Restore reads from an image exactly what the checkpoint put there. */
  lemma {:induction false} ImageReadsBack(h: Head, recs: seq<FidRec>)
    requires FitsHead(h) && |recs| < IntEnd && FitsRecs(recs)
    ensures Restored(Image(h, recs)) == Some((h, recs))
  {
    var c := Reader(Image(h, recs), 0, false);
    WholeAhead(Image(h, recs));
    HeadAhead(c, h, |recs|, AllRecBytes(recs));
    RecsAhead(GetHead(c).2, recs);
  }

  /** An image with anything behind it is refused. */
  lemma {:induction false} ExtraIsRefused(h: Head, recs: seq<FidRec>, tail: seq<Byte>)
    requires FitsHead(h) && |recs| < IntEnd && FitsRecs(recs) && tail != []
    ensures Restored(Image(h, recs) + tail) == None
  {
    var s := Image(h, recs) + tail;
    var c := Reader(s, 0, false);
    assert s[0..|Image(h, recs)|] == Image(h, recs);
    HeadAhead(c, h, |recs|, AllRecBytes(recs));
    RecsAhead(GetHead(c).2, recs);
  }

  lemma {:induction false} HeadBytes(h: Head, n: nat)
    ensures EncAll(HeadValues(h, n)) == LE(h.msize, 4) + (LE(h.dotu, 1) + (LE(h.dotl, 1) + LE(n, 4)))
  {
    var v := HeadValues(h, n);
    EncAllCons(v);
    EncAllCons(v[1..]);
    EncAllCons(v[1..][1..]);
    EncAllCons(v[1..][1..][1..]);
    assert v[1..] == [U8(h.dotu), U8(h.dotl), U32(n)] && v[1..][1..] == [U8(h.dotl), U32(n)]
      && v[1..][1..][1..] == [U32(n)];
    assert [U32(n)][1..] == [] && EncAll([]) == [] && LE(n, 4) + [] == LE(n, 4);
    FlatOne(LE(h.msize, 4));
    FlatOne(LE(h.dotu, 1));
    FlatOne(LE(h.dotl, 1));
    FlatOne(LE(n, 4));
  }

  // ---- the order of the records

  function Hash(key: nat): nat { key % P.HtableSize }

  /** The chains after the items have been created one by one, each at the head of its chain. */
  function Pushed<T>(chains: seq<seq<T>>, items: seq<T>, keys: seq<nat>): (r: seq<seq<T>>)
    requires |chains| == P.HtableSize && |items| == |keys|
    ensures |r| == P.HtableSize
    decreases |items|
  {
    if items == [] then chains
    else Pushed(chains[Hash(keys[0]) := [items[0]] + chains[Hash(keys[0])]], items[1..], keys[1..])
  }

  function NoChains<T>(): (r: seq<seq<T>>)
    ensures |r| == P.HtableSize && forall b :: 0 <= b < P.HtableSize ==> r[b] == []
  {
    seq(P.HtableSize, _ => [])
  }

  function Keys(recs: seq<FidRec>): (r: seq<nat>)
    ensures |r| == |recs| && forall i :: 0 <= i < |recs| ==> r[i] == recs[i].fid
  {
    seq(|recs|, i requires 0 <= i < |recs| => recs[i].fid)
  }

  /** The records a checkpoint writes after a restore of these. */
  function Cycled(recs: seq<FidRec>): seq<FidRec> { P.Listing(Pushed(NoChains(), recs, Keys(recs))) }

  function Reverse<T>(s: seq<T>): (r: seq<T>)
    ensures |r| == |s|
  {
    if s == [] then [] else Reverse(s[1..]) + [s[0]]
  }

  /** Each chain holds records of its own bucket. */
  ghost predicate Bucketed(chains: seq<seq<FidRec>>) {
    |chains| <= P.HtableSize
    && forall b, r :: 0 <= b < |chains| && r in chains[b] ==> Hash(r.fid) == b
  }

  /** A chain whose records all go to bucket b comes out reversed, in front of what was there. */
  lemma {:induction false} PushedChain(chains: seq<seq<FidRec>>, group: seq<FidRec>, b: nat)
    requires |chains| == P.HtableSize && b < P.HtableSize && forall r :: r in group ==> Hash(r.fid) == b
    ensures Pushed(chains, group, Keys(group)) == chains[b := Reverse(group) + chains[b]]
    decreases |group|
  {
    if group == [] {
      assert [] + chains[b] == chains[b] && chains[b := chains[b]] == chains;
    } else {
      var r := group[0];
      assert r in group && Keys(group)[0] == r.fid && Keys(group)[1..] == Keys(group[1..]);
      var next := chains[b := [r] + chains[b]];
      PushedChain(next, group[1..], b);
      assert Reverse(group[1..]) + ([r] + chains[b]) == Reverse(group) + chains[b];
      assert next[b := Reverse(group) + chains[b]] == chains[b := Reverse(group) + chains[b]];
    }
  }

  lemma {:induction false} PushedConcat<T>(chains: seq<seq<T>>, a: seq<T>, ka: seq<nat>, b: seq<T>, kb: seq<nat>)
    requires |chains| == P.HtableSize && |a| == |ka| && |b| == |kb|
    ensures Pushed(chains, a + b, ka + kb) == Pushed(Pushed(chains, a, ka), b, kb)
    decreases |a|
  {
    if a == [] {
      assert a + b == b && ka + kb == kb;
    } else {
      assert (a + b)[1..] == a[1..] + b && (ka + kb)[1..] == ka[1..] + kb;
      PushedConcat(chains[Hash(ka[0]) := [a[0]] + chains[Hash(ka[0])]], a[1..], ka[1..], b, kb);
    }
  }

  /** The chains reversed, and empty ones for the rest of the table. */
  function Turned(chains: seq<seq<FidRec>>): (r: seq<seq<FidRec>>)
    requires |chains| <= P.HtableSize
    ensures |r| == P.HtableSize
    ensures forall b :: 0 <= b < P.HtableSize ==> r[b] == if b < |chains| then Reverse(chains[b]) else []
  {
    seq(P.HtableSize, b requires 0 <= b < P.HtableSize => if b < |chains| then Reverse(chains[b]) else [])
  }

  lemma KeysConcat(a: seq<FidRec>, b: seq<FidRec>)
    ensures Keys(a + b) == Keys(a) + Keys(b)
  {
  }

  lemma TurnedNext(chains: seq<seq<FidRec>>)
    requires 0 < |chains| <= P.HtableSize
    ensures var n := |chains| - 1;
      Turned(chains) == Turned(chains[..n])[n := Reverse(chains[n]) + Turned(chains[..n])[n]]
  {
    var n := |chains| - 1;
    assert Reverse(chains[n]) + [] == Reverse(chains[n]);
  }

  lemma {:induction false} PushedListing(chains: seq<seq<FidRec>>)
    requires Bucketed(chains)
    ensures var l := P.Listing(chains); Pushed(NoChains(), l, Keys(l)) == Turned(chains)
    decreases |chains|
  {
    if chains != [] {
      var n := |chains| - 1;
      var pre, last := chains[..n], chains[n];
      PushedListing(pre);
      var l := P.Listing(pre);
      KeysConcat(l, last);
      PushedConcat(NoChains<FidRec>(), l, Keys(l), last, Keys(last));
      PushedChain(Turned(pre), last, n);
      TurnedNext(chains);
    } else {
      assert Turned(chains) == NoChains<FidRec>();
    }
  }

  lemma {:induction false} ReverseMembers<T>(s: seq<T>)
    ensures forall x :: x in Reverse(s) <==> x in s
  {
    if s != [] {
      ReverseMembers(s[1..]);
      assert s == [s[0]] + s[1..];
    }
  }

  lemma {:induction false} ReverseConcat<T>(a: seq<T>, x: T)
    ensures Reverse(a + [x]) == [x] + Reverse(a)
  {
    if a == [] {
      assert a + [x] == [x] && [x][1..] == [];
    } else {
      assert (a + [x])[1..] == a[1..] + [x];
      ReverseConcat(a[1..], x);
    }
  }

  lemma {:induction false} ReverseTwice<T>(s: seq<T>)
    ensures Reverse(Reverse(s)) == s
  {
    if s != [] {
      ReverseTwice(s[1..]);
      ReverseConcat(Reverse(s[1..]), s[0]);
    }
  }

  /** One restore and checkpoint reverses each bucket's group of records. */
  lemma {:induction false} CycleReverses(chains: seq<seq<FidRec>>)
    requires Bucketed(chains) && |chains| == P.HtableSize
    ensures Cycled(P.Listing(chains)) == P.Listing(Turned(chains))
  {
    PushedListing(chains);
  }

  /** Two give the records back in their order, and so the same bytes. */
  lemma {:induction false} TwoCycles(h: Head, chains: seq<seq<FidRec>>)
    requires Bucketed(chains) && |chains| == P.HtableSize
    ensures var recs := P.Listing(chains);
      Cycled(Cycled(recs)) == recs && Image(h, Cycled(Cycled(recs))) == Image(h, recs)
  {
    CycleReverses(chains);
    forall b, r | 0 <= b < P.HtableSize && r in Turned(chains)[b] ensures Hash(r.fid) == b
    { ReverseMembers(chains[b]); }
    CycleReverses(Turned(chains));
    forall b | 0 <= b < P.HtableSize ensures Turned(Turned(chains))[b] == chains[b] { ReverseTwice(chains[b]); }
    assert Turned(Turned(chains)) == chains;
  }

  // ---- the code

  function Recorded(f: P.Npfid): FidRec
    reads f`omode, f`typ, f`diroffset, f`uid, f`aux
  {
    FidRec(f.fid, f.omode, f.typ, f.diroffset, f.uid, f.aux)
  }

  function AllRecorded(fids: seq<P.Npfid>): (r: seq<FidRec>)
    reads (set f | f in fids)`omode, (set f | f in fids)`typ, (set f | f in fids)`diroffset
    reads (set f | f in fids)`uid, (set f | f in fids)`aux
    ensures |r| == |fids|
  {
    if fids == [] then [] else [Recorded(fids[0])] + AllRecorded(fids[1..])
  }

  /** The bytes of a fid, field by field. */
  ghost function FidBytes(f: P.Npfid): seq<Byte>
    reads f`omode, f`typ, f`diroffset, f`uid, f`aux
  {
    var name, value := Bytes0(f.aux.xattrname), Bytes0(f.aux.xattr);
    Flat([LE(f.fid, 4), LE(f.omode, 2), LE(f.typ, 2), LE(f.diroffset, 4)]
         + [LE(f.uid, 4), LE(|f.aux.path|, 2) + f.aux.path, LE(f.aux.omode, 4), LE(|name|, 2) + name]
         + [LE(f.aux.xattrflags, 4), LE(|value|, 8)]) + value
  }

  lemma RecordedBytes(f: P.Npfid)
    ensures RecBytes(Recorded(f)) == FidBytes(f)
  {
    RecPieces(Recorded(f));
  }

  /** The pieces a record is put in. */
  lemma {:induction false} RecPieces(r: FidRec)
    ensures var name, value := Bytes0(r.aux.xattrname), Bytes0(r.aux.xattr);
      AllChunks(RecValues(r)) ==
        [LE(r.fid, 4), LE(r.omode, 2), LE(r.typ, 2), LE(r.diroffset, 4)]
        + [LE(r.uid, 4), LE(|r.aux.path|, 2) + r.aux.path, LE(r.aux.omode, 4), LE(|name|, 2) + name]
        + [LE(r.aux.xattrflags, 4), LE(|value|, 8)]
  {
    var name, size := Bytes0(r.aux.xattrname), |Bytes0(r.aux.xattr)|;
    var a := [U32(r.fid), U16(r.omode), U16(r.typ), U32(r.diroffset)];
    var b := [U32(r.uid), Str(r.aux.path), U32(r.aux.omode), Str(name)];
    var c := [U32(r.aux.xattrflags), U64(size)];
    assert RecValues(r) == a + b + c;
    AllChunksConcat(a, b);
    AllChunksConcat(a + b, c);
    FirstPieces(r);
    SecondPieces(r, name);
    TwoChunks(U32(r.aux.xattrflags), U64(size));
  }

  lemma FirstPieces(r: FidRec)
    ensures AllChunks([U32(r.fid), U16(r.omode), U16(r.typ), U32(r.diroffset)]) ==
      [LE(r.fid, 4), LE(r.omode, 2), LE(r.typ, 2), LE(r.diroffset, 4)]
  {
    FourChunks(U32(r.fid), U16(r.omode), U16(r.typ), U32(r.diroffset));
  }

  lemma {:induction false} SecondPieces(r: FidRec, name: seq<Byte>)
    ensures AllChunks([U32(r.uid), Str(r.aux.path), U32(r.aux.omode), Str(name)]) ==
      [LE(r.uid, 4), LE(|r.aux.path|, 2) + r.aux.path, LE(r.aux.omode, 4), LE(|name|, 2) + name]
  {
    FourChunks(U32(r.uid), Str(r.aux.path), U32(r.aux.omode), Str(name));
    FourPieces(LE(r.uid, 4), LE(|r.aux.path|, 2) + r.aux.path, LE(r.aux.omode, 4), LE(|name|, 2) + name);
  }

  lemma FourPieces(a: seq<Byte>, b: seq<Byte>, c: seq<Byte>, d: seq<Byte>)
    ensures [a] + [b] + [c] + [d] == [a, b, c, d]
  {
  }

  /** The bytes of a checkpoint: the head, and each fid behind it. */
  lemma {:induction false} ImageBytes(h: Head, fids: seq<P.Npfid>)
    ensures Image(h, AllRecorded(fids)) ==
      LE(h.msize, 4) + (LE(h.dotu, 1) + (LE(h.dotl, 1) + LE(|fids|, 4))) + AllFidBytes(fids)
  {
    HeadBytes(h, |fids|);
    FidsBytes(fids);
  }

  ghost function AllFidBytes(fids: seq<P.Npfid>): seq<Byte>
    reads (set f | f in fids)`omode, (set f | f in fids)`typ, (set f | f in fids)`diroffset
    reads (set f | f in fids)`uid, (set f | f in fids)`aux
  {
    if fids == [] then [] else FidBytes(fids[0]) + AllFidBytes(fids[1..])
  }

  lemma {:induction false} FidsBytes(fids: seq<P.Npfid>)
    ensures AllRecBytes(AllRecorded(fids)) == AllFidBytes(fids)
  {
    if fids != [] {
      RecordedBytes(fids[0]);
      FidsBytes(fids[1..]);
      assert AllRecorded(fids)[1..] == AllRecorded(fids[1..]);
    }
  }

  /** The records can be written, and the length of their image is a C int. */
  ghost predicate FitsImage(h: Head, recs: seq<FidRec>) { FitsHead(h) && FitsRecs(recs) && |Image(h, recs)| < IntEnd }

  lemma {:induction false} FewRecs(recs: seq<FidRec>)
    requires FitsRecs(recs)
    ensures |recs| <= |AllRecBytes(recs)|
  {
    if recs != [] {
      RecSize(recs[0]);
      FewRecs(recs[1..]);
    }
  }

  /** The first loop of ufs_checkpoint: the size of the image. */
  method SizeOf(recs: seq<FidRec>, ghost h: Head) returns (sz: nat)
    requires FitsImage(h, recs)
    ensures sz == |Image(h, recs)| < IntEnd
  {
    sz := 4 + 1 + 1 + 4;
    var fidsz := 4 + 2 + 2 + 4 + 4;
    fidsz := fidsz + 2 + 4 + 2 + 4 + 8;
    HeadBytes(h, |recs|);
    for i := 0 to |recs|
      invariant FitsRecs(recs[i..]) && sz + |AllRecBytes(recs[i..])| == |Image(h, recs)|
    {
      var r := recs[i];
      assert recs[i..][1..] == recs[i + 1..];
      RecSize(r);
      sz := sz + fidsz + |r.aux.path|;
      sz := sz + if r.aux.xattrname.Some? then |r.aux.xattrname.value| else 0;
      sz := sz + |Bytes0(r.aux.xattr)|;
    }
  }

  lemma RecSize(r: FidRec)
    requires FitsRec(r)
    ensures |RecBytes(r)| == 36 + |r.aux.path| + |Bytes0(r.aux.xattrname)| + |Bytes0(r.aux.xattr)|
  {
    var vals := RecValues(r);
    RecFits(r);
    EncAllLength(vals);
    LenUpTo8(vals[..5]);
    LenUpTo8(vals[5..]);
    assert vals == vals[..5] + vals[5..];
    LenAllConcat(vals[..5], vals[5..]);
  }

  /** One turn of the loop that fills the image. */
  method PutRec(buf: Cbuf, r: FidRec)
    requires buf.Valid() && FitsRec(r) && !buf.Written().over
    requires |buf.Written().out| + |RecBytes(r)| <= buf.ep - buf.sp
    modifies buf`p, buf.data
    ensures buf.Valid() && buf.Written() == old(buf.Written()).(out := old(buf.Written().out) + RecBytes(r))
  {
    ghost var w := buf.Written();
    RecFits(r);
    PutAllFits(w, AllChunks(RecValues(r)));
    PutValues(buf, RecValues(r));
    buf.PutBytes(Bytes0(r.aux.xattr));
    assert (w.out + EncAll(RecValues(r))) + Bytes0(r.aux.xattr) == w.out + RecBytes(r);
  }

  /** The image of the records. */
  method WriteImage(h: Head, recs: seq<FidRec>) returns (data: array<Byte>)
    requires FitsImage(h, recs)
    ensures fresh(data) && data[..] == Image(h, recs)
  {
    FewRecs(recs);
    var sz := SizeOf(recs, h);
    data := new Byte[sz];
    var buf := new Cbuf(data, 0, sz);
    PutHead(buf, h, |recs|);
    PutRecs(buf, h, recs);
    assert data[0..buf.p] == data[..];
  }

  method PutRecs(buf: Cbuf, ghost h: Head, recs: seq<FidRec>)
    requires buf.Valid() && FitsRecs(recs) && buf.ep - buf.sp == |Image(h, recs)|
    requires buf.Written() == Writer(EncAll(HeadValues(h, |recs|)), |Image(h, recs)|, false)
    modifies buf`p, buf.data
    ensures buf.Valid() && buf.Written() == Writer(Image(h, recs), |Image(h, recs)|, false)
  {
    assert recs[0..] == recs;
    ghost var image := Image(h, recs);
    for i := 0 to |recs|
      invariant buf.Valid() && FitsRecs(recs[i..])
      invariant buf.Written() == Writer(buf.Written().out, |image|, false)
      invariant buf.Written().out + AllRecBytes(recs[i..]) == image
    {
      ghost var out := buf.Written().out;
      assert recs[i..][1..] == recs[i + 1..];
      PutRec(buf, recs[i]);
      Regroup(out, RecBytes(recs[i]), AllRecBytes(recs[i + 1..]));
    }
    assert buf.Written().out == image by { assert buf.Written().out + [] == buf.Written().out; }
  }

  lemma Regroup(a: seq<Byte>, b: seq<Byte>, c: seq<Byte>)
    ensures (a + b) + c == a + (b + c)
  {
  }

  method PutHead(buf: Cbuf, h: Head, n: nat)
    requires buf.Valid() && FitsHead(h) && n < 0x1_0000_0000 && buf.Written().out == [] && !buf.Written().over
    requires |EncAll(HeadValues(h, n))| <= buf.ep - buf.sp
    modifies buf`p, buf.data
    ensures buf.Valid() && buf.Written() == old(buf.Written()).(out := EncAll(HeadValues(h, n)))
  {
    ghost var w := buf.Written();
    PutAllFits(w, AllChunks(HeadValues(h, n)));
    PutValues(buf, HeadValues(h, n));
    assert [] + EncAll(HeadValues(h, n)) == EncAll(HeadValues(h, n));
  }

  /** What the pool means, in values. */
  ghost predicate CheckpointReady(pool: P.Pool, h: Head)
    reads pool, pool.htable, pool.fids, set f | f in P.Listing(pool.chains) :: f
  {
    && pool.Valid() && FitsHead(h) && |Image(h, AllRecorded(P.Listing(pool.chains)))| < IntEnd
    && (forall f :: f in pool.fids ==> f.refcount > 0 && FitsRec(Recorded(f)))
  }

  lemma {:induction false} AllFit(fids: seq<P.Npfid>)
    requires forall f :: f in fids ==> FitsRec(Recorded(f))
    ensures FitsRecs(AllRecorded(fids))
  {
    if fids != [] {
      assert fids[0] in fids && forall f :: f in fids[1..] ==> f in fids;
      AllFit(fids[1..]);
    }
  }

  /** np_conn_list_fids. */
  method ListFids(pool: P.Pool) returns (fids: seq<P.Npfid>)
    requires pool.Valid()
    modifies pool.fids`refcount
    ensures pool.Valid() && fids == P.Listing(pool.chains) && P.Distinct(fids) && |fids| == |pool.table|
    ensures forall f :: f in fids <==> f in pool.fids
    ensures forall f :: f in pool.fids ==> f.refcount == old(f.refcount) + 1
  {
    pool.ValidMeans();
    P.ListingEnumerates(pool.chains, pool.table, pool.fids);
    var nfids := pool.Count();
    fids := pool.List(nfids);
    P.DistinctIndices(fids);
    forall f | f in pool.fids ensures multiset(fids)[f] == 1 { OnceInDistinct(fids, f); }
  }

  lemma {:induction false} OnceInDistinct(s: seq<P.Npfid>, f: P.Npfid)
    requires P.Distinct(s)
    ensures multiset(s)[f] == if f in s then 1 else 0
  {
    if s != [] {
      OnceInDistinct(s[1..], f);
      assert s == [s[0]] + s[1..];
    }
  }

  /** ufs_checkpoint: the image of the fids in the order of the hash chains; it leaves the pool as it was, with every
      reference count. */
  method Checkpoint(pool: P.Pool, h: Head) returns (data: array<Byte>)
    requires CheckpointReady(pool, h)
    modifies pool, pool.htable, pool.fids`refcount, pool.fids`next, pool.fids`prev
    ensures data[..] == Image(h, old(AllRecorded(P.Listing(pool.chains))))
    ensures pool.Valid() && pool.table == old(pool.table) && pool.fids == old(pool.fids)
    ensures pool.chains == old(pool.chains)
    ensures forall f :: f in pool.fids ==> f.refcount == old(f.refcount)
  {
    var fids := ListFids(pool);
    AllFit(fids);
    data := WriteImage(h, AllRecorded(fids));
    Release(pool, fids);
  }

  /** The last loop: every listed fid gives back the reference the listing took. */
  method Release(pool: P.Pool, fids: seq<P.Npfid>)
    requires pool.Valid() && P.Distinct(fids) && (forall f :: f in fids ==> f in pool.fids && f.refcount > 1)
    modifies pool, pool.htable, pool.fids`next, pool.fids`prev, pool.fids`refcount
    ensures pool.Valid() && pool.table == old(pool.table) && pool.fids == old(pool.fids)
    ensures pool.chains == old(pool.chains)
    ensures forall f :: f in pool.fids ==> f.refcount == old(f.refcount) - if f in fids then 1 else 0
  {
    P.DistinctIndices(fids);
    for i := 0 to |fids|
      invariant pool.Valid() && pool.table == old(pool.table) && pool.fids == old(pool.fids)
      invariant pool.chains == old(pool.chains)
      invariant forall k :: 0 <= k < |fids| ==> fids[k].refcount == old(fids[k].refcount) - if k < i then 1 else 0
      invariant forall f :: f in pool.fids && f !in fids ==> f.refcount == old(f.refcount)
    {
      pool.Decref(fids[i]);
    }
  }

  // ---- ufs_restore

  ghost predicate AllDiffer(keys: seq<nat>) { forall i, j :: 0 <= i < j < |keys| ==> keys[i] != keys[j] }

  /** f is new, at the head of its chain, without references, and stands for r; the other fids are as they were. */
  twostate predicate Added(pool: P.Pool, new f: P.Npfid, r: FidRec)
    requires |old(pool.chains)| == P.HtableSize
    reads pool, f, pool.fids
  {
    && f !in old(pool.fids) && f.fid == r.fid && Recorded(f) == r && f.refcount == 0
    && pool.fids == old(pool.fids) + {f} && pool.table == old(pool.table)[r.fid := f]
    && pool.chains == old(pool.chains)[Hash(r.fid) := [f] + old(pool.chains)[Hash(r.fid)]]
    && forall g :: g in old(pool.fids) ==> Recorded(g) == old(Recorded(g)) && g.refcount == old(g.refcount)
  }

  /** f stands for r, under its number: the fid that was there, or a new one without references. The other fids are as
      they were, and no count has changed. */
  twostate predicate Put(pool: P.Pool, new f: P.Npfid, r: FidRec)
    reads pool, f, pool.fids
  {
    && f.fid == r.fid && Recorded(f) == r
    && pool.table == old(pool.table)[r.fid := f] && pool.fids == old(pool.fids) + {f}
    && (if r.fid in old(pool.table) then f == old(pool.table)[r.fid] && f in old(pool.fids)
        else f !in old(pool.fids) && f.refcount == 0)
    && (forall g :: g in old(pool.fids) ==> g.refcount == old(g.refcount))
    && forall g :: g in old(pool.fids) && g != f ==> Recorded(g) == old(Recorded(g))
  }

  /** The last record with the number. */
  function LastOf(recs: seq<FidRec>, n: nat): Option<FidRec> {
    if recs == [] then None
    else if recs[|recs| - 1].fid == n then Some(recs[|recs| - 1])
    else LastOf(recs[..|recs| - 1], n)
  }

  /** The fids made are in the table under the records' numbers. */
  ghost predicate Placed(table: map<nat, P.Npfid>, made: seq<P.Npfid>, recs: seq<FidRec>) {
    |made| == |recs| && forall i :: 0 <= i < |recs| ==> recs[i].fid in table && made[i] == table[recs[i].fid]
  }

  /** The pool holds one fid for each number among the records, with the fields of the last record that has it. */
  ghost predicate Laid(pool: P.Pool, made: seq<P.Npfid>, recs: seq<FidRec>)
    reads pool, pool.fids
  {
    Placed(pool.table, made, recs) && forall n :: n in pool.table ==> Latest(pool, recs, n)
  }

  /** The fid has the fields of the last record with its number. */
  ghost predicate Latest(pool: P.Pool, recs: seq<FidRec>, n: nat)
    reads pool, pool.fids
  {
    && n in pool.table && pool.table[n] in pool.fids && pool.table[n].fid == n
    && LastOf(recs, n) == Some(Recorded(pool.table[n]))
  }

  ghost predicate NoReferences(pool: P.Pool)
    reads pool, pool.fids
  {
    forall f :: f in pool.fids ==> f.refcount == 0
  }

  /** The pool as the loop has made it. */
  ghost predicate Unset(pool: P.Pool, made: seq<P.Npfid>, recs: seq<FidRec>)
    reads pool, pool.fids, made
  {
    (AllDiffer(Keys(recs)) ==> Made(pool, made, recs, 0)) && Laid(pool, made, recs) && NoReferences(pool)
  }

  /** And as it is set up. */
  ghost predicate Set(pool: P.Pool, made: seq<P.Npfid>, recs: seq<FidRec>)
    reads pool, pool.fids, made
  {
    (AllDiffer(Keys(recs)) ==> Made(pool, made, recs, 1)) && Laid(pool, made, recs) && Counted(pool, recs)
  }

  /** A pool with what was made in it so far. */
  datatype Laying = Laying(pool: P.Pool, made: seq<P.Npfid>, recs: seq<FidRec>)

  twostate lemma LaidNext(l: Laying, new f: P.Npfid)
    requires old(Laid(l.pool, l.made, l.recs)) && Put(l.pool, f, Recorded(f))
    ensures Laid(l.pool, l.made + [f], l.recs + [Recorded(f)])
  {
    PlacedNext(old(l.pool.table), l.made, l.recs, f, Recorded(f));
    forall n | n in l.pool.table ensures Latest(l.pool, l.recs + [Recorded(f)], n) {
      LastOfNext(l.recs, Recorded(f), n);
      assert n != f.fid ==> old(Latest(l.pool, l.recs, n));
    }
  }

  lemma {:induction false} LastOfNext(recs: seq<FidRec>, r: FidRec, n: nat)
    ensures LastOf(recs + [r], n) == if r.fid == n then Some(r) else LastOf(recs, n)
  {
    assert (recs + [r])[..|recs|] == recs;
  }

  lemma PlacedNext(table: map<nat, P.Npfid>, made: seq<P.Npfid>, recs: seq<FidRec>, f: P.Npfid, r: FidRec)
    requires Placed(table, made, recs) && (r.fid in table ==> f == table[r.fid])
    ensures Placed(table[r.fid := f], made + [f], recs + [r])
  {
    assert (recs + [r])[|recs|] == r && (made + [f])[|made|] == f;
  }

  /** The fields behind the number. */
  method ReadRec(buf: Cbuf, fid: nat) returns (r: Option<FidRec>)
    requires buf.Valid() && !buf.Reading().over
    modifies buf`p
    ensures buf.Valid() && Got(r, buf.Reading()) == GetRest(old(buf.Reading()), fid) && (r.Some? ==> r.value.fid == fid)
  {
    var vals := ReadFields(buf, RecFields);
    if vals.None? || |vals.value| != 9 || !vals.value[8].U64? || vals.value[8].n >= IntEnd { return None; }
    var p := buf.GetBytes(vals.value[8].n);
    return RecOf(fid, vals.value, Bytes0(p));
  }

  method FillIn(buf: Cbuf, pool: P.Pool, f: P.Npfid) returns (r: Option<FidRec>)
    requires buf.Valid() && !buf.Reading().over && pool.Valid() && f in pool.fids
    modifies buf`p, f`omode, f`typ, f`diroffset, f`uid, f`aux
    ensures buf.Valid() && pool.Valid() && Got(r, buf.Reading()) == GetRest(old(buf.Reading()), f.fid)
    ensures r.Some? ==> Recorded(f) == r.value
  {
    r := ReadRec(buf, f.fid);
    if r.None? { return; }
    pool.SetState(f, r.value.omode, r.value.typ, r.value.diroffset, r.value.uid, r.value.aux);
  }

  /** One turn of the loop of ufs_restore: the fid is created once its number is read, and then filled in. */
  method RestoreOne(buf: Cbuf, pool: P.Pool) returns (f: P.Npfid?, r: Option<FidRec>)
    requires buf.Valid() && pool.Valid()
    modifies buf`p, pool, pool.htable, pool.fids
    ensures buf.Valid() && pool.Valid() && Got(r, buf.Reading()) == GetRec(old(buf.Reading()))
    ensures r.Some? ==> f != null && f in pool.fids && f.fid == r.value.fid && Put(pool, f, r.value)
    ensures r.Some? && r.value.fid !in old(pool.table) ==> fresh(f) && Added(pool, f, r.value)
    ensures fresh(pool.fids - old(pool.fids)) && old(pool.fids) <= pool.fids
  {
    var fidno := buf.GetInt(4);
    var over := buf.CheckOverflow();
    if over { return null, None; }
    f, r := RestoreRest(buf, pool, fidno);
  }

  method RestoreRest(buf: Cbuf, pool: P.Pool, fidno: nat) returns (f: P.Npfid, r: Option<FidRec>)
    requires buf.Valid() && !buf.Reading().over && pool.Valid()
    modifies buf`p, pool, pool.htable, pool.fids
    ensures buf.Valid() && pool.Valid() && Got(r, buf.Reading()) == GetRest(old(buf.Reading()), fidno)
    ensures f in pool.fids && f.fid == fidno && (r.Some? ==> Recorded(f) == r.value && Put(pool, f, r.value))
    ensures r.Some? && fidno !in old(pool.table) ==> fresh(f) && Added(pool, f, r.value)
    ensures fresh(pool.fids - old(pool.fids)) && old(pool.fids) <= pool.fids
  {
    f := pool.Create(fidno, P.NoAux);
    r := FillIn(buf, pool, f);
  }

  /** The pool holds just the fids made, one for each record, created in the order of the records. */
  ghost predicate Made(pool: P.Pool, made: seq<P.Npfid>, recs: seq<FidRec>, refs: nat)
    reads pool, made
  {
    && |made| == |recs| && AllRecorded(made) == recs
    && pool.chains == Pushed(NoChains(), made, Keys(recs))
    && pool.fids == (set f | f in made) && pool.table.Keys == (set r | r in recs :: r.fid)
    && forall f :: f in made ==> f.refcount == refs
  }

  lemma {:induction false} RecordedConcat(a: seq<P.Npfid>, b: seq<P.Npfid>)
    ensures AllRecorded(a + b) == AllRecorded(a) + AllRecorded(b)
  {
    if a == [] {
      assert a + b == b;
    } else {
      assert (a + b)[1..] == a[1..] + b;
      RecordedConcat(a[1..], b);
    }
  }

  lemma {:induction false} PushedNext(made: seq<P.Npfid>, keys: seq<nat>, f: P.Npfid, key: nat)
    requires |made| == |keys|
    ensures var p := Pushed(NoChains(), made, keys);
      Pushed(NoChains(), made + [f], keys + [key]) == p[Hash(key) := [f] + p[Hash(key)]]
  {
    PushedConcat(NoChains<P.Npfid>(), made, keys, [f], [key]);
    assert [f][1..] == [] && [key][1..] == [];
  }

  lemma {:induction false} GetRecsNext(c: Reader, i: nat, recs: seq<FidRec>, here: Reader)
    requires GetRecs(c, i) == Got(Some(recs), here)
    ensures GetRecs(c, i + 1) ==
      var g := GetRec(here); Got(if g.value.None? then None else Some(recs + [g.value.value]), g.c)
    decreases i
  {
    var g := GetRec(here);
    if i == 0 {
      assert g.value.Some? ==> GetRecs(g.c, 0) == Got(Some([]), g.c);
      assert g.value.Some? ==> [g.value.value] + [] == [g.value.value] == [] + [g.value.value];
    } else {
      var first := GetRec(c);
      GetRecsNext(first.c, i - 1, recs[1..], here);
      assert g.value.Some? ==> [first.value.value] + (recs[1..] + [g.value.value]) == recs + [g.value.value];
    }
  }

  lemma {:induction false} GetRecsStops(c: Reader, i: nat, n: nat)
    requires i <= n && GetRecs(c, i).value.None?
    ensures GetRecs(c, n).value.None?
    decreases i
  {
    if i > 0 && GetRec(c).value.Some? { GetRecsStops(GetRec(c).c, i - 1, n - 1); }
  }

  lemma KeysNext(recs: seq<FidRec>, r: FidRec)
    ensures Keys(recs + [r]) == Keys(recs) + [r.fid]
    ensures AllDiffer(Keys(recs + [r])) ==> AllDiffer(Keys(recs)) && r.fid !in (set x | x in recs :: x.fid)
  {
    assert Keys(recs + [r]) == Keys(recs) + [r.fid];
    if AllDiffer(Keys(recs + [r])) {
      forall i, j | 0 <= i < j < |recs| ensures Keys(recs)[i] != Keys(recs)[j] {
        assert Keys(recs + [r])[i] != Keys(recs + [r])[j];
      }
      forall i | 0 <= i < |recs| ensures recs[i].fid != r.fid
      { assert Keys(recs + [r])[i] != Keys(recs + [r])[|recs|]; }
    }
  }

  /** The loop has read these records from c on, and made these fids of them; of records that have different numbers,
      just these. */
  ghost predicate Restoring(buf: Cbuf, pool: P.Pool, c: Reader, made: seq<P.Npfid>, recs: seq<FidRec>)
    reads buf, buf.data, pool, pool.htable, pool.fids, made
  {
    && buf.Valid() && pool.Valid() && |pool.chains| == P.HtableSize
    && GetRecs(c, |recs|) == Got(Some(recs), buf.Reading())
    && Unset(pool, made, recs)
  }

  lemma {:induction false} MadeNext(made: seq<P.Npfid>, recs: seq<FidRec>, f: P.Npfid, r: FidRec)
    requires AllRecorded(made) == recs && Recorded(f) == r
    ensures AllRecorded(made + [f]) == recs + [r] && Keys(recs + [r]) == Keys(recs) + [r.fid]
    ensures Pushed(NoChains(), made + [f], Keys(recs + [r])) ==
      var p := Pushed(NoChains(), made, Keys(recs)); p[Hash(r.fid) := [f] + p[Hash(r.fid)]]
  {
    KeysNext(recs, r);
    PushedNext(made, Keys(recs), f, r.fid);
    RecordedConcat(made, [f]);
    assert AllRecorded([f]) == [r] by { assert [f][1..] == []; }
  }

  method RestoreMade(buf: Cbuf, pool: P.Pool, made: seq<P.Npfid>, ghost recs: seq<FidRec>)
    returns (made': seq<P.Npfid>, r: Option<FidRec>)
    requires buf.Valid() && pool.Valid() && |pool.chains| == P.HtableSize
    requires Unset(pool, made, recs)
    modifies buf`p, pool, pool.htable, pool.fids
    ensures buf.Valid() && pool.Valid() && Got(r, buf.Reading()) == GetRec(old(buf.Reading()))
    ensures r.Some? ==> Unset(pool, made', recs + [r.value])
    ensures fresh(pool.fids - old(pool.fids)) && old(pool.fids) <= pool.fids && |pool.chains| == P.HtableSize
  {
    var f;
    f, r := RestoreOne(buf, pool);
    made' := made;
    if r.Some? {
      LaidNext(Laying(pool, made, recs), f);
      NowMade(Laying(pool, made, recs), f);
      made' := made + [f];
    }
  }

  twostate lemma NowMade(l: Laying, new f: P.Npfid)
    requires |old(l.pool.chains)| == P.HtableSize
    requires old(AllDiffer(Keys(l.recs)) ==> Made(l.pool, l.made, l.recs, 0))
    requires f.fid !in old(l.pool.table) ==> Added(l.pool, f, Recorded(f))
    ensures var recs := l.recs + [Recorded(f)]; AllDiffer(Keys(recs)) ==> Made(l.pool, l.made + [f], recs, 0)
  {
    KeysNext(l.recs, Recorded(f));
    if AllDiffer(Keys(l.recs + [Recorded(f)])) {
      assert AllRecorded(l.made) == l.recs;
      MadeNext(l.made, l.recs, f, Recorded(f));
    }
  }

  method RestoreNext(buf: Cbuf, pool: P.Pool, ghost c: Reader, made: seq<P.Npfid>, ghost recs: seq<FidRec>)
    returns (ok: bool, made': seq<P.Npfid>, ghost recs': seq<FidRec>)
    requires Restoring(buf, pool, c, made, recs)
    modifies buf`p, pool, pool.htable, pool.fids
    ensures fresh(pool.fids - old(pool.fids)) && buf.Valid() && pool.Valid()
    ensures !ok ==> GetRecs(c, |recs| + 1).value.None?
    ensures ok ==> |recs'| == |recs| + 1 && Restoring(buf, pool, c, made', recs')
  {
    ghost var at := buf.Reading();
    var r;
    made', r := RestoreMade(buf, pool, made, recs);
    NextRead(c, recs, at, r, buf.Reading());
    if r.None? { return false, made, recs; }
    ok, recs' := true, recs + [r.value];
    StillRestoring(buf, pool, c, made', recs');
  }

  lemma {:induction false} NextRead(c: Reader, recs: seq<FidRec>, at: Reader, r: Option<FidRec>, after: Reader)
    requires GetRecs(c, |recs|) == Got(Some(recs), at) && GetRec(at) == Got(r, after)
    ensures r.None? ==> GetRecs(c, |recs| + 1).value.None?
    ensures r.Some? ==> GetRecs(c, |recs + [r.value]|) == Got(Some(recs + [r.value]), after)
  {
    GetRecsNext(c, |recs|, recs, at);
  }

  lemma {:induction false} StillRestoring(buf: Cbuf, pool: P.Pool, c: Reader, made: seq<P.Npfid>, recs: seq<FidRec>)
    requires buf.Valid() && pool.Valid() && |pool.chains| == P.HtableSize && Unset(pool, made, recs)
    requires GetRecs(c, |recs|) == Got(Some(recs), buf.Reading())
    ensures Restoring(buf, pool, c, made, recs)
  {
  }

  /** restore_setup_fids, as far as references go. */
  method SetUp(pool: P.Pool, fids: seq<P.Npfid>)
    requires pool.Valid() && forall f :: f in fids ==> f in pool.fids
    modifies pool.fids`refcount
    ensures pool.Valid() && forall f :: f in pool.fids ==> f.refcount == old(f.refcount) + multiset(fids)[f]
  {
    for i := 0 to |fids|
      invariant pool.Valid() && forall f :: f in pool.fids ==> f.refcount == old(f.refcount) + multiset(fids[..i])[f]
    {
      assert fids[..i + 1] == fids[..i] + [fids[i]];
      pool.Incref(fids[i]);
    }
    assert fids[..|fids|] == fids;
  }

  lemma {:induction false} MadeDistinct(made: seq<P.Npfid>, recs: seq<FidRec>)
    requires AllRecorded(made) == recs && AllDiffer(Keys(recs))
    ensures P.Distinct(made)
  {
    P.DistinctIndices(made);
    forall i, j | 0 <= i < j < |made| ensures made[i] != made[j] {
      RecordedAt(made, i);
      RecordedAt(made, j);
      assert Keys(recs)[i] != Keys(recs)[j];
    }
  }

  lemma {:induction false} RecordedAt(made: seq<P.Npfid>, i: nat)
    requires i < |made|
    ensures AllRecorded(made)[i] == Recorded(made[i])
  {
    if i > 0 { RecordedAt(made[1..], i - 1); }
  }

  /** The loop of ufs_restore over the records; ok unless it meets the end of the buffer. */
  method RestoreAll(buf: Cbuf, pool: P.Pool, nfids: nat) returns (ok: bool, fids: seq<P.Npfid>, ghost recs: seq<FidRec>)
    requires buf.Valid() && pool.Valid() && pool.chains == NoChains<P.Npfid>() && pool.fids == {} && pool.table == map[]
    modifies buf`p, pool, pool.htable
    ensures buf.Valid() && pool.Valid() && fresh(pool.fids)
    ensures if ok then GetRecs(old(buf.Reading()), nfids) == Got(Some(recs), buf.Reading())
            else GetRecs(old(buf.Reading()), nfids).value.None?
    ensures ok ==> Unset(pool, fids, recs)
  {
    ghost var c := buf.Reading();
    ok, fids, recs := true, [], [];
    for i := 0 to nfids
      invariant Restoring(buf, pool, c, fids, recs) && |recs| == i && fresh(pool.fids)
    {
      ok, fids, recs := RestoreNext(buf, pool, c, fids, recs);
      if !ok {
        GetRecsStops(c, i + 1, nfids);
        return;
      }
    }
    ok := true;
  }

  method ReadHead(buf: Cbuf) returns (h: Head, n: nat)
    requires buf.Valid()
    modifies buf`p
    ensures buf.Valid() && (h, n, buf.Reading()) == GetHead(old(buf.Reading()))
  {
    var msize := buf.GetInt(4);
    var dotu := buf.GetInt(1);
    var dotl := buf.GetInt(1);
    n := buf.GetInt(4);
    h := Head(msize, dotu, dotl);
  }

  /** The tests behind the loop: nothing missing, nothing left. */
  method AtTheEnd(buf: Cbuf) returns (ok: bool)
    requires buf.Valid()
    modifies buf`p
    ensures ok <==> !old(buf.Reading()).over && old(buf.Reading()).p >= |old(buf.Reading()).s|
  {
    var over := buf.CheckOverflow();
    if over { return false; }
    var extra := buf.CheckSize(1);
    return !extra;
  }

  /** Each fid has as many references as records have its number. */
  ghost predicate Counted(pool: P.Pool, recs: seq<FidRec>)
    reads pool, pool.fids
  {
    forall n :: n in pool.table && pool.table[n] in pool.fids ==> pool.table[n].refcount == multiset(Keys(recs))[n]
  }

  lemma {:induction false} AsManyFids(table: map<nat, P.Npfid>, made: seq<P.Npfid>, recs: seq<FidRec>, n: nat)
    requires |made| == |recs| && n in table
    requires forall i :: 0 <= i < |recs| ==> recs[i].fid in table && made[i] == table[recs[i].fid]
    requires forall k :: k in table && k != n ==> table[k] != table[n]
    ensures multiset(made)[table[n]] == multiset(Keys(recs))[n]
  {
    if recs != [] {
      AsManyFids(table, made[1..], recs[1..], n);
      assert made == [made[0]] + made[1..] && Keys(recs) == [recs[0].fid] + Keys(recs[1..]);
    }
  }

  /** Only the counts have changed, each by how often the fid was made. */
  twostate predicate Incremented(l: Laying)
    reads l.pool, l.pool.fids
  {
    && l.pool.table == old(l.pool.table) && l.pool.fids == old(l.pool.fids) && l.pool.chains == old(l.pool.chains)
    && forall f :: f in l.pool.fids ==>
         Recorded(f) == old(Recorded(f)) && f.refcount == old(f.refcount) + multiset(l.made)[f]
  }

  twostate lemma NowCounted(l: Laying)
    requires old(Laid(l.pool, l.made, l.recs)) && old(NoReferences(l.pool)) && Incremented(l)
    ensures Laid(l.pool, l.made, l.recs) && Counted(l.pool, l.recs)
  {
    forall n | n in l.pool.table ensures Latest(l.pool, l.recs, n) { assert old(Latest(l.pool, l.recs, n)); }
    forall n | n in l.pool.table ensures l.pool.table[n].refcount == multiset(Keys(l.recs))[n] {
      AsManyFids(l.pool.table, l.made, l.recs, n);
    }
  }

  twostate lemma NowOnce(l: Laying)
    requires old(AllDiffer(Keys(l.recs)) ==> Made(l.pool, l.made, l.recs, 0)) && Incremented(l)
    ensures AllDiffer(Keys(l.recs)) ==> Made(l.pool, l.made, l.recs, 1)
  {
    if AllDiffer(Keys(l.recs)) {
      MadeDistinct(l.made, l.recs);
      forall f | f in l.made ensures multiset(l.made)[f] == 1 { OnceInDistinct(l.made, f); }
    }
  }

  method SetUpMade(pool: P.Pool, fids: seq<P.Npfid>, ghost recs: seq<FidRec>)
    requires pool.Valid() && Unset(pool, fids, recs)
    modifies pool.fids`refcount
    ensures pool.Valid() && Set(pool, fids, recs)
  {
    ghost var l := Laying(pool, fids, recs);
    SetUp(pool, fids);
    NowCounted(l);
    NowOnce(l);
  }

  /** ufs_restore behind the head of the image. */
  method RestoreFrom(buf: Cbuf, pool: P.Pool, nfids: nat)
    returns (ok: bool, fids: seq<P.Npfid>, ghost recs: seq<FidRec>)
    requires buf.Valid() && pool.Valid() && pool.chains == NoChains<P.Npfid>() && pool.fids == {} && pool.table == map[]
    modifies buf`p, pool, pool.htable
    ensures pool.Valid() && fresh(pool.fids) && (ok ==> Set(pool, fids, recs))
    ensures Whole(GetRecs(old(buf.Reading()), nfids)) == if ok then Some(recs) else None
  {
    ok, fids, recs := RestoreAll(buf, pool, nfids);
    if !ok { return; }
    ok := AtTheEnd(buf);
    if !ok { return; }
    SetUpMade(pool, fids, recs);
  }

  /** ufs_restore into an empty pool: it takes just the images that are read to their last byte, and then the pool
      holds the records, each fid with one reference, created in their order. Of records with the same number, there is
      one fid, with the fields of the last and a reference for each. */
  method Restore(data: array<Byte>, pool: P.Pool) returns (h: Option<Head>, fids: seq<P.Npfid>, ghost recs: seq<FidRec>)
    requires pool.Valid() && pool.chains == NoChains<P.Npfid>() && pool.fids == {} && pool.table == map[]
    modifies pool, pool.htable
    ensures pool.Valid() && fresh(pool.fids)
    ensures Restored(data[..]) == if h.Some? then Some((h.value, recs)) else None
    ensures h.Some? && AllDiffer(Keys(recs)) ==> Made(pool, fids, recs, 1)
    ensures h.Some? ==> Laid(pool, fids, recs) && Counted(pool, recs)
  {
    var buf := new Cbuf(data, 0, data.Length);
    ghost var bytes := data[..];
    assert buf.Reading() == Reader(bytes, 0, false) by { assert data[0..data.Length] == bytes; }
    var head, nfids := ReadHead(buf);
    if nfids >= IntEnd { return None, [], []; }
    var ok;
    ok, fids, recs := RestoreFrom(buf, pool, nfids);
    assert data[..] == bytes;
    h := if ok then Some(head) else None;
  }

  // ---- checkpoint after restore

  ghost predicate SameRecords(nodes: seq<seq<P.Npfid>>, chains: seq<seq<FidRec>>)
    reads set b, f | 0 <= b < |nodes| && f in nodes[b] :: f
  {
    |nodes| == |chains| && forall b :: 0 <= b < |nodes| ==> AllRecorded(nodes[b]) == chains[b]
  }

  lemma {:induction false} PushedRecords(nodes: seq<seq<P.Npfid>>, chains: seq<seq<FidRec>>, made: seq<P.Npfid>,
                                         keys: seq<nat>)
    requires |nodes| == P.HtableSize && SameRecords(nodes, chains) && |made| == |keys|
    ensures SameRecords(Pushed(nodes, made, keys), Pushed(chains, AllRecorded(made), keys))
    decreases |made|
  {
    if made != [] {
      var b := Hash(keys[0]);
      var f, r := made[0], Recorded(made[0]);
      RecordedConcat([f], nodes[b]);
      assert AllRecorded([f]) == [r] by { assert [f][1..] == []; }
      PushedRecords(nodes[b := [f] + nodes[b]], chains[b := [r] + chains[b]], made[1..], keys[1..]);
    }
  }

  lemma {:induction false} ListingRecords(nodes: seq<seq<P.Npfid>>, chains: seq<seq<FidRec>>)
    requires SameRecords(nodes, chains)
    ensures AllRecorded(P.Listing(nodes)) == P.Listing(chains)
    decreases |nodes|
  {
    if nodes != [] {
      var n := |nodes| - 1;
      ListingRecords(nodes[..n], chains[..n]);
      RecordedConcat(P.Listing(nodes[..n]), nodes[n]);
    }
  }

  /** A checkpoint of a restored pool lists the records in their cycled order. */
  lemma RestoredListing(pool: P.Pool, fids: seq<P.Npfid>, recs: seq<FidRec>)
    requires Made(pool, fids, recs, 1)
    ensures AllRecorded(P.Listing(pool.chains)) == Cycled(recs)
  {
    PushedRecords(NoChains<P.Npfid>(), NoChains<FidRec>(), fids, Keys(recs));
    ListingRecords(pool.chains, Pushed(NoChains(), recs, Keys(recs)));
  }

  /** The restored pool has the same map of fids, each with one reference. */
  lemma RestoredMap(pool: P.Pool, fids: seq<P.Npfid>, recs: seq<FidRec>, r: FidRec)
    requires pool.Valid() && Made(pool, fids, recs, 1) && r in recs
    ensures r.fid in pool.table && Recorded(pool.table[r.fid]) == r && pool.table[r.fid].refcount == 1
    ensures forall n :: n in pool.table ==> exists q :: q in recs && q.fid == n
  {
    var i :| 0 <= i < |recs| && recs[i] == r;
    RecordedAt(fids, i);
    assert fids[i] in fids;
    pool.InTable(fids[i]);
    forall n | n in pool.table ensures exists q :: q in recs && q.fid == n { assert n in pool.table.Keys; }
  }

  lemma {:induction false} LastOfMeans(recs: seq<FidRec>, n: nat)
    ensures match LastOf(recs, n)
      case None => forall r :: r in recs ==> r.fid != n
      case Some(r) =>
        && r.fid == n
        && exists i :: 0 <= i < |recs| && recs[i] == r && forall j :: i < j < |recs| ==> recs[j].fid != n
  {
    if recs != [] {
      var m := |recs| - 1;
      if recs[m].fid != n {
        LastOfMeans(recs[..m], n);
        if LastOf(recs, n).Some? {
          var i :| 0 <= i < m && recs[..m][i] == LastOf(recs, n).value
            && forall j :: i < j < m ==> recs[..m][j].fid != n;
          assert recs[i] == LastOf(recs, n).value && forall j :: i < j < m ==> recs[j].fid == recs[..m][j].fid;
        }
      }
    }
  }

  /** Whatever numbers the records have, the restored pool has one fid for each of them: with the fields of the last
      record of that number, and with as many references as there are such records, all but one of which no client ever
      gives back. */
  lemma {:induction false} RestoredRepeated(pool: P.Pool, fids: seq<P.Npfid>, recs: seq<FidRec>, n: nat)
    requires pool.Valid() && Set(pool, fids, recs)
    ensures n in pool.table <==> exists r :: r in recs && r.fid == n
    ensures n in pool.table ==>
      LastOf(recs, n) == Some(Recorded(pool.table[n])) && pool.table[n].refcount == multiset(Keys(recs))[n]
    ensures forall f :: f in pool.fids ==> f.fid in pool.table && pool.table[f.fid] == f
  {
    LastOfMeans(recs, n);
    assert n in pool.table ==> Latest(pool, recs, n);
    forall f | f in pool.fids ensures f.fid in pool.table && pool.table[f.fid] == f { pool.InTable(f); }
  }

  ghost function RecordedChains(nodes: seq<seq<P.Npfid>>): (r: seq<seq<FidRec>>)
    reads set b, f | 0 <= b < |nodes| && f in nodes[b] :: f
    ensures |r| == |nodes| && forall b :: 0 <= b < |nodes| ==> r[b] == AllRecorded(nodes[b])
  {
    if nodes == [] then [] else RecordedChains(nodes[..|nodes| - 1]) + [AllRecorded(nodes[|nodes| - 1])]
  }

  lemma {:induction false} RecordedMember(nodes: seq<P.Npfid>, r: FidRec)
    requires r in AllRecorded(nodes)
    ensures exists f :: f in nodes && Recorded(f) == r
  {
    if r == Recorded(nodes[0]) {
      assert nodes[0] in nodes;
    } else {
      RecordedMember(nodes[1..], r);
    }
  }

  /** The records of a pool's checkpoint have different numbers, and two cycles of restore and checkpoint give them,
      and so the image, back as they were. */
  lemma PoolCycles(pool: P.Pool, h: Head)
    requires pool.Valid()
    ensures var recs := AllRecorded(P.Listing(pool.chains));
      AllDiffer(Keys(recs)) && Cycled(Cycled(recs)) == recs && Image(h, Cycled(Cycled(recs))) == Image(h, recs)
  {
    pool.ValidMeans();
    var chains := RecordedChains(pool.chains);
    ListingRecords(pool.chains, chains);
    forall b, r: FidRec | 0 <= b < P.HtableSize && r in chains[b] ensures Hash(r.fid) == b
    { RecordedMember(pool.chains[b], r); }
    TwoCycles(h, chains);
    ListingDiffers(pool);
  }

  lemma ListingDiffers(pool: P.Pool)
    requires pool.Valid()
    ensures AllDiffer(Keys(AllRecorded(P.Listing(pool.chains))))
  {
    pool.ValidMeans();
    P.ListingEnumerates(pool.chains, pool.table, pool.fids);
    var all := P.Listing(pool.chains);
    P.DistinctIndices(all);
    forall i, j | 0 <= i < j < |all| ensures Keys(AllRecorded(all))[i] != Keys(AllRecorded(all))[j] {
      RecordedAt(all, i);
      RecordedAt(all, j);
      assert all[i] in all && all[j] in all;
      pool.InTable(all[i]);
      pool.InTable(all[j]);
    }
  }

  lemma {:induction false} FitsAt(recs: seq<FidRec>, i: nat)
    requires FitsRecs(recs) && i < |recs|
    ensures FitsRec(recs[i])
  {
    if i > 0 { FitsAt(recs[1..], i - 1); }
  }

  lemma {:induction false} FitAfter(made: seq<P.Npfid>, recs: seq<FidRec>)
    requires AllRecorded(made) == recs && FitsRecs(recs)
    ensures forall f :: f in made ==> FitsRec(Recorded(f))
  {
    forall f | f in made ensures FitsRec(Recorded(f)) {
      var i :| 0 <= i < |made| && made[i] == f;
      RecordedAt(made, i);
      FitsAt(recs, i);
    }
  }

  lemma {:induction false} AllBytesConcat(a: seq<FidRec>, b: seq<FidRec>)
    ensures AllRecBytes(a + b) == AllRecBytes(a) + AllRecBytes(b)
  {
    if a == [] {
      assert a + b == b;
    } else {
      assert (a + b)[1..] == a[1..] + b;
      AllBytesConcat(a[1..], b);
      Regroup(RecBytes(a[0]), AllRecBytes(a[1..]), AllRecBytes(b));
    }
  }

  lemma {:induction false} ListingBytes(chains: seq<seq<FidRec>>)
    requires chains != []
    ensures var n := |chains| - 1;
      |AllRecBytes(P.Listing(chains))| == |AllRecBytes(P.Listing(chains[..n]))| + |AllRecBytes(chains[n])|
    ensures |P.Listing(chains)| == |P.Listing(chains[..|chains| - 1])| + |chains[|chains| - 1]|
  {
    AllBytesConcat(P.Listing(chains[..|chains| - 1]), chains[|chains| - 1]);
  }

  lemma {:induction false} OneMoreBytes(chains: seq<seq<FidRec>>, b: nat, r: FidRec)
    requires b < |chains|
    ensures var more := chains[b := [r] + chains[b]];
      && |AllRecBytes(P.Listing(more))| == |AllRecBytes(P.Listing(chains))| + |RecBytes(r)|
      && |P.Listing(more)| == |P.Listing(chains)| + 1
  {
    var n, more := |chains| - 1, chains[b := [r] + chains[b]];
    ListingBytes(chains);
    ListingBytes(more);
    if b < n {
      assert more[..n] == chains[..n][b := [r] + chains[..n][b]];
      OneMoreBytes(chains[..n], b, r);
    } else {
      assert more[..n] == chains[..n] && ([r] + chains[n])[1..] == chains[n];
    }
  }

  lemma {:induction false} PushedBytes(chains: seq<seq<FidRec>>, recs: seq<FidRec>, keys: seq<nat>)
    requires |chains| == P.HtableSize && |recs| == |keys|
    ensures var l := P.Listing(Pushed(chains, recs, keys));
      && |AllRecBytes(l)| == |AllRecBytes(P.Listing(chains))| + |AllRecBytes(recs)|
      && |l| == |P.Listing(chains)| + |recs|
    decreases |recs|
  {
    if recs != [] {
      var b := Hash(keys[0]);
      OneMoreBytes(chains, b, recs[0]);
      PushedBytes(chains[b := [recs[0]] + chains[b]], recs[1..], keys[1..]);
    }
  }

  lemma {:induction false} NothingListed(chains: seq<seq<FidRec>>)
    requires forall b :: 0 <= b < |chains| ==> chains[b] == []
    ensures P.Listing(chains) == []
  {
    if chains != [] { NothingListed(chains[..|chains| - 1]); }
  }

  /** The image after a cycle is as long as the one before. */
  lemma {:induction false} CycledLength(h: Head, recs: seq<FidRec>)
    ensures |Image(h, Cycled(recs))| == |Image(h, recs)|
  {
    PushedBytes(NoChains(), recs, Keys(recs));
    NothingListed(NoChains());
  }

  /** A restored pool can be checkpointed, and what that writes can be restored. */
  lemma {:induction false} ReadyAgain(pool: P.Pool, fids: seq<P.Npfid>, h: Head, recs: seq<FidRec>)
    requires pool.Valid() && Made(pool, fids, recs, 1) && FitsImage(h, recs)
    ensures CheckpointReady(pool, h) && AllRecorded(P.Listing(pool.chains)) == Cycled(recs)
    ensures FitsImage(h, Cycled(recs)) && AllDiffer(Keys(Cycled(recs)))
  {
    RestoredListing(pool, fids, recs);
    CycledLength(h, recs);
    FitAfter(fids, recs);
    pool.ValidMeans();
    P.ListingEnumerates(pool.chains, pool.table, pool.fids);
    AllFit(P.Listing(pool.chains));
    ListingDiffers(pool);
  }

  method RestoreNew(data: array<Byte>, ghost h: Head, ghost recs: seq<FidRec>) returns (pool: P.Pool, head: Head)
    requires data[..] == Image(h, recs) && FitsImage(h, recs) && AllDiffer(Keys(recs))
    ensures fresh(pool) && fresh(pool.htable) && fresh(pool.fids) && head == h
    ensures CheckpointReady(pool, h) && AllRecorded(P.Listing(pool.chains)) == Cycled(recs)
    ensures FitsImage(h, Cycled(recs)) && AllDiffer(Keys(Cycled(recs)))
  {
    pool := new P.Pool();
    FewRecs(recs);
    ImageReadsBack(h, recs);
    var restored, fids;
    ghost var got;
    restored, fids, got := Restore(data, pool);
    head := restored.value;
    ReadyAgain(pool, fids, h, recs);
  }

  /** A server takes over the fids from an image, and makes one of its own. */
  method TakeOver(data: array<Byte>, ghost h: Head, ghost recs: seq<FidRec>) returns (again: array<Byte>)
    requires data[..] == Image(h, recs) && FitsImage(h, recs) && AllDiffer(Keys(recs))
    ensures again[..] == Image(h, Cycled(recs))
    ensures FitsImage(h, Cycled(recs)) && AllDiffer(Keys(Cycled(recs)))
  {
    var pool, head := RestoreNew(data, h, recs);
    again := Checkpoint(pool, head);
  }

  /** A checkpoint taken over twice comes back byte for byte. */
  method CheckpointCycles(pool: P.Pool, h: Head) returns (first: array<Byte>, second: array<Byte>, third: array<Byte>)
    requires CheckpointReady(pool, h)
    modifies pool, pool.htable, pool.fids`refcount, pool.fids`next, pool.fids`prev
    ensures first[..] == Image(h, old(AllRecorded(P.Listing(pool.chains))))
    ensures second[..] == Image(h, Cycled(old(AllRecorded(P.Listing(pool.chains)))))
    ensures third[..] == first[..]
  {
    ghost var recs := AllRecorded(P.Listing(pool.chains));
    PoolCycles(pool, h);
    ListingFits(pool, h);
    first := Checkpoint(pool, h);
    ghost var bytes := first[..];
    second := TakeOver(first, h, recs);
    third := TakeOver(second, h, Cycled(recs));
  }

  lemma {:induction false} ListingFits(pool: P.Pool, h: Head)
    requires CheckpointReady(pool, h)
    ensures FitsImage(h, AllRecorded(P.Listing(pool.chains)))
  {
    pool.ValidMeans();
    P.ListingEnumerates(pool.chains, pool.table, pool.fids);
    AllFit(P.Listing(pool.chains));
  }
}
