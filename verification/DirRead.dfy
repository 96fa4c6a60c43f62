/** Directory listings: np_serialize_stat and np_deserialize_stat of libnpfs/np.c, and the resumable reads of
    npfile_read (libnpfs/file.c) at the offsets np_read and np_respond keep. */
module DirRead {
  import opened Bytes
  import opened Cbuf
  import opened Wire
  import opened Codec
  import opened Packets

  const IoHdrSz := 24
  const Onotopen := 0xFFFF
  const Owrite := 1

  ghost predicate FitsWstat(w: Wstat, dotu: bool) {
    forall i :: 0 <= i < |WstatValues(w, dotu)| ==> Fits(WstatValues(w, dotu)[i])
  }

  /** A stat record whole. */
  function Record(w: Wstat, dotu: bool): seq<Byte> { EncAll(WstatValues(w, dotu)) }

  lemma RecordLength(w: Wstat, dotu: bool)
    requires FitsWstat(w, dotu)
    ensures |Record(w, dotu)| == 2 + SizeWstat(w, dotu)
  {
    WstatLength(w, dotu);
    EncAllLength(WstatValues(w, dotu));
  }

  /** np_serialize_stat on buflen bytes; nothing when it returns 0. */
  function Serialized(w: Wstat, buflen: nat, dotu: bool): seq<Byte> {
    if SizeWstat(w, dotu) > buflen then []
    else
      var r := PutAll(Writer([], buflen, false), AllChunks(WstatValues(w, dotu)));
      if r.over then [] else r.out
  }

  /** The record of 9P2000 ends in a string; when that is empty and just its count is missing, nothing marks it. */
  predicate CutsRecord(w: Wstat, buflen: nat, dotu: bool) { !dotu && w.muid == [] && buflen == SizeWstat(w, dotu) }

  lemma {:induction false} PutValuesPrefix(cap: nat, vals: seq<Value>, rest: seq<Value>)
    requires (forall i :: 0 <= i < |vals| ==> Fits(vals[i])) && LenAll(vals) <= cap
    ensures |EncAll(vals)| == LenAll(vals)
    ensures PutAll(Writer([], cap, false), AllChunks(vals + rest)) ==
      PutAll(Writer(EncAll(vals), cap, false), AllChunks(rest))
  {
    EncAllLength(vals);
    AllChunksConcat(vals, rest);
    PutAllConcat(Writer([], cap, false), AllChunks(vals), AllChunks(rest));
    PutAllFits(Writer([], cap, false), AllChunks(vals));
    assert [] + EncAll(vals) == EncAll(vals);
  }

  /** The last value of a record, and the piece it is put in. */
  lemma LastValue(w: Wstat, dotu: bool)
    requires FitsWstat(w, dotu)
    ensures var vals := WstatValues(w, dotu);
      var last := vals[|vals| - 1];
      && vals == vals[..|vals| - 1] + [last] && LenAll(vals[..|vals| - 1]) + Len(last) == 2 + SizeWstat(w, dotu)
      && AllChunks([last]) == [if dotu then LE(w.nmuid, 4) else LE(|w.muid|, 2) + w.muid]
      && Len(last) == if dotu then 4 else 2 + |w.muid|
  {
    var vals := WstatValues(w, dotu);
    var init, last := vals[..|vals| - 1], vals[|vals| - 1];
    assert last == if dotu then U32(w.nmuid) else Str(w.muid);
    WstatLength(w, dotu);
    LenAllConcat(init, [last]);
    LenUpTo8([last]);
    assert [last][1..] == [] && vals == init + [last];
  }

  /** np_serialize_stat writes the whole record when there is room for it and nothing otherwise, but for one case, in
      which it writes the record without its last two bytes. */
  lemma SerializedExactly(w: Wstat, buflen: nat, dotu: bool)
    requires FitsWstat(w, dotu)
    ensures Serialized(w, buflen, dotu) ==
      if |Record(w, dotu)| <= buflen then Record(w, dotu)
      else if CutsRecord(w, buflen, dotu) then Record(w, dotu)[..buflen]
      else []
  {
    RecordLength(w, dotu);
    var vals := WstatValues(w, dotu);
    if |Record(w, dotu)| <= buflen {
      WstatLength(w, dotu);
      assert vals + [] == vals;
      PutValuesPrefix(buflen, vals, []);
    } else if SizeWstat(w, dotu) <= buflen {
      LastDoesNotFit(w, buflen, dotu);
    }
  }

  lemma LastDoesNotFit(w: Wstat, buflen: nat, dotu: bool)
    requires FitsWstat(w, dotu) && SizeWstat(w, dotu) <= buflen < 2 + SizeWstat(w, dotu)
    ensures |Record(w, dotu)| == 2 + SizeWstat(w, dotu)
    ensures Serialized(w, buflen, dotu) == if CutsRecord(w, buflen, dotu) then Record(w, dotu)[..buflen] else []
  {
    RecordLength(w, dotu);
    LastValue(w, dotu);
    var vals := WstatValues(w, dotu);
    var init, last := vals[..|vals| - 1], vals[|vals| - 1];
    PutValuesPrefix(buflen, init, [last]);
    var head := EncAll(init);
    EncAllConcat(init, [last]);
    assert Record(w, dotu)[..|head|] == head;
    OneChunk(Writer(head, buflen, false), if dotu then LE(w.nmuid, 4) else LE(|w.muid|, 2) + w.muid);
  }

  lemma {:induction false} OneChunk(w: Writer, chunk: seq<Byte>)
    ensures PutAll(w, [chunk]) == Put(w, chunk)
  {
    assert [chunk][1..] == [];
  }

  lemma EncAllConcat(a: seq<Value>, b: seq<Value>)
    ensures EncAll(a + b) == EncAll(a) + EncAll(b)
  {
    AllChunksConcat(a, b);
    FlatConcat(AllChunks(a), AllChunks(b));
  }

  /** np_deserialize_stat: the fields, and how many bytes they took. */
  function Deserialized(bytes: seq<Byte>, dotu: bool): Option<(seq<Value>, nat)> {
    var g := GetAll(Reader(bytes, 0, false), StatLayout(dotu));
    if g.value.None? || g.c.over then None else Some((g.value.value, g.c.p))
  }

  /** A record reads back, whatever stands behind it. */
  lemma RecordReadsBack(w: Wstat, tail: seq<Byte>, dotu: bool)
    requires FitsWstat(w, dotu)
    ensures Deserialized(Record(w, dotu) + tail, dotu) == Some((WstatValues(w, dotu), |Record(w, dotu)|))
  {
    var s := Record(w, dotu) + tail;
    assert s[0..|Record(w, dotu)|] == Record(w, dotu);
    StatFields(w, dotu);
    AllAhead(Reader(s, 0, false), WstatValues(w, dotu));
  }

  /** What a cut record lacks is the count of its empty muid. */
  lemma CutEnd(w: Wstat)
    requires FitsWstat(w, false) && w.muid == []
    ensures |Record(w, false)| == SizeWstat(w, false) + 2
    ensures Record(w, false)[..SizeWstat(w, false)] + [0, 0] == Record(w, false)
  {
    RecordLength(w, false);
    LastValue(w, false);
    var vals := WstatValues(w, false);
    var init, last := vals[..|vals| - 1], vals[|vals| - 1];
    EncAllConcat(init, [last]);
    FlatOne(LE(0, 2) + w.muid);
    LEBytes(0);
    assert LE(0, 2) + w.muid == [0, 0];
  }

  // ---- reads of a directory that does not change

  /** An entry as the loop of npfile_read sees it: its record, and whether the record can be cut. */
  datatype Entry = Entry(record: seq<Byte>, cuttable: bool)

  function EntryOf(w: Wstat, dotu: bool): Entry { Entry(Record(w, dotu), !dotu && w.muid == []) }

  ghost predicate Proper(e: Entry) {
    |e.record| > 2 && (e.cuttable ==> e.record == e.record[..|e.record| - 2] + [0, 0])
  }

  ghost predicate AllProper(es: seq<Entry>) { es == [] || (Proper(es[0]) && AllProper(es[1..])) }

  lemma {:induction false} RestProper(es: seq<Entry>, k: nat)
    requires AllProper(es) && k <= |es|
    ensures AllProper(es[k..])
  {
    if k > 0 {
      RestProper(es[1..], k - 1);
      assert es[1..][k - 1..] == es[k..];
    } else {
      assert es[0..] == es;
    }
  }

  /** What np_serialize_stat writes of the entry into buflen bytes. */
  function Written(e: Entry, buflen: nat): seq<Byte> {
    if |e.record| <= buflen then e.record
    else if e.cuttable && buflen + 2 == |e.record| then e.record[..buflen]
    else []
  }

  lemma WrittenIsSerialized(w: Wstat, buflen: nat, dotu: bool)
    requires FitsWstat(w, dotu)
    ensures Written(EntryOf(w, dotu), buflen) == Serialized(w, buflen, dotu) && Proper(EntryOf(w, dotu))
  {
    RecordLength(w, dotu);
    SerializedExactly(w, buflen, dotu);
    if !dotu && w.muid == [] { CutEnd(w); }
  }

  function Records(es: seq<Entry>): seq<Byte> { if es == [] then [] else es[0].record + Records(es[1..]) }

  /** The loop of npfile_read with room bytes of the reply left, at the first of the entries: what it adds, and how
      many entries it gets past. */
  function ReadFrom(es: seq<Entry>, room: nat): (r: (seq<Byte>, nat))
    ensures r.1 <= |es|
    decreases |es|
  {
    if room == 0 || es == [] then ([], 0)
    else
      var r := Written(es[0], room - 1);
      if r == [] then ([], 0)
      else
        var (more, k) := ReadFrom(es[1..], room - |r|);
        (r + more, k + 1)
  }

  /** How many whole records leave at least one byte of the room: npfile_read never fills a reply. */
  function Holds(es: seq<Entry>, room: nat): (k: nat)
    ensures k <= |es|
  {
    if es != [] && |es[0].record| < room then 1 + Holds(es[1..], room - |es[0].record|) else 0
  }

  /** The room left behind the whole records is what np_serialize_stat mistakes for enough. */
  predicate Cuts(es: seq<Entry>, room: nat) {
    if es == [] then false
    else if |es[0].record| < room then Cuts(es[1..], room - |es[0].record|)
    else es[0].cuttable && room + 1 == |es[0].record|
  }

  lemma RecordsTake(es: seq<Entry>, k: nat)
    requires k < |es|
    ensures Records(es[..k + 1]) == es[0].record + Records(es[1..][..k])
  {
    assert es[..k + 1][1..] == es[1..][..k];
  }

  lemma RecordsOne(es: seq<Entry>)
    requires es != []
    ensures Records(es[..1]) == es[0].record
  {
    assert es[..1][1..] == [] && es[0].record + [] == es[0].record;
  }

  lemma Assoc(a: seq<Byte>, b: seq<Byte>, c: seq<Byte>)
    ensures (a + b) + c == a + (b + c)
  {
  }

  /** A read returns the whole records that fit; unless the next one is cut, and then that one too, but for its last
      two bytes. */
  lemma {:induction false} ReadExactly(es: seq<Entry>, room: nat)
    requires AllProper(es)
    ensures var r, k := ReadFrom(es, room), Holds(es, room);
      if Cuts(es, room)
      then k < |es| && r.1 == k + 1 && r.0 + [0, 0] == Records(es[..k + 1])
      else r == (Records(es[..k]), k)
    decreases |es|
  {
    if es != [] {
      var rest, size := es[1..], |es[0].record|;
      if size < room {
        ReadExactly(rest, room - size);
        var more, k := ReadFrom(rest, room - size).0, Holds(rest, room - size);
        if Cuts(rest, room - size) {
          RecordsTake(es, k + 1);
          Assoc(es[0].record, more, [0, 0]);
        } else {
          RecordsTake(es, k);
        }
      } else if Cuts(es, room) {
        ReadCut(es, room);
      }
    }
  }

  lemma {:induction false} ReadCut(es: seq<Entry>, room: nat)
    requires AllProper(es) && es != [] && es[0].cuttable && room + 1 == |es[0].record|
    ensures ReadFrom(es, room).1 == 1 && ReadFrom(es, room).0 + [0, 0] == Records(es[..1])
  {
    RecordsOne(es);
    NoRoom(es[1..]);
    assert es[0].record[..room - 1] + [] == es[0].record[..room - 1];
  }

  lemma {:induction false} NoRoom(es: seq<Entry>)
    requires AllProper(es)
    ensures ReadFrom(es, 1) == ([], 0)
  {
  }

  /** Without a cut, a read returns nothing only at the end or when the next record does not fit. */
  lemma {:induction false} ReadsNothing(es: seq<Entry>, room: nat)
    requires AllProper(es) && !Cuts(es, room)
    ensures ReadFrom(es, room).0 == [] <==> es == [] || |es[0].record| >= room
  {
    if es != [] { ReadExactly(es, room); }
  }

  /** A read takes as many entries as there is room for and never fills the reply: the records taken are shorter than
      the room, and with the one behind them they would not be. */
  lemma {:induction false} ReadsMost(es: seq<Entry>, room: nat)
    requires AllProper(es) && !Cuts(es, room)
    ensures var (bytes, k) := ReadFrom(es, room);
      && k <= |es| && bytes == Records(es[..k]) && (room > 0 ==> |bytes| < room)
      && (k < |es| ==> |Records(es[..k + 1])| >= room)
    decreases |es|
  {
    ReadExactly(es, room);
    if es != [] {
      RecordsOne(es);
      if |es[0].record| < room {
        var k := ReadFrom(es[1..], room - |es[0].record|).1;
        ReadsMost(es[1..], room - |es[0].record|);
        RecordsTake(es, k);
        if k + 1 < |es| { RecordsTake(es, k + 1); }
      }
    }
  }

  /** A cut happens just where the records up to one that can be cut are a byte longer than the room. */
  lemma {:induction false} CutsExactly(es: seq<Entry>, room: nat)
    requires AllProper(es)
    ensures Cuts(es, room) <==> exists k: nat :: CutAt(es, room, k)
    decreases |es|
  {
    if es != [] {
      RecordsOne(es);
      var size := |es[0].record|;
      assert CutAt(es, room, 0) <==> es[0].cuttable && room + 1 == size;
      if size < room {
        var rest, left := es[1..], room - size;
        CutsExactly(rest, left);
        if k: nat :| CutAt(rest, left, k) { CutLater(es, room, k + 1); }
      }
      if k: nat :| k > 0 && CutAt(es, room, k) { CutLater(es, room, k); }
    }
  }

  lemma {:induction false} CutLater(es: seq<Entry>, room: nat, k: nat)
    requires AllProper(es) && es != [] && k > 0
    ensures CutAt(es, room, k) <==> |es[0].record| < room && CutAt(es[1..], room - |es[0].record|, k - 1)
  {
    if k < |es| {
      RecordsTake(es, k);
      assert es[1..][..k][0] == es[1];
    }
  }

  ghost predicate CutAt(es: seq<Entry>, room: nat, k: nat) {
    k < |es| && es[k].cuttable && |Records(es[..k + 1])| == room + 1
  }

  // ---- a whole listing

  /** Reads one after the other, each with its own count. */
  function Reads(es: seq<Entry>, counts: seq<nat>): (r: (seq<Byte>, nat))
    ensures r.1 <= |es|
    decreases |counts|
  {
    if counts == [] then ([], 0)
    else
      var (bytes, k) := ReadFrom(es, counts[0]);
      var (more, l) := Reads(es[k..], counts[1..]);
      (bytes + more, k + l)
  }

  predicate NoneCut(es: seq<Entry>, counts: seq<nat>)
    decreases |counts|
  {
    counts == [] || (!Cuts(es, counts[0]) && NoneCut(es[ReadFrom(es, counts[0]).1..], counts[1..]))
  }

  lemma {:induction false} RecordsConcat(a: seq<Entry>, b: seq<Entry>)
    ensures Records(a + b) == Records(a) + Records(b)
  {
    if a == [] {
      assert a + b == b;
    } else {
      assert (a + b)[1..] == a[1..] + b;
      RecordsConcat(a[1..], b);
    }
  }

  lemma TakeMore<T>(s: seq<T>, k: nat, l: nat)
    requires k <= |s| && l <= |s| - k
    ensures s[..k] + s[k..][..l] == s[..k + l] && s[k..][l..] == s[k + l..]
  {
  }

  /** Bytes that are the whole just when nothing was cut off, and fewer otherwise. */
  ghost predicate CutsNone(bytes: seq<Byte>, whole: seq<Byte>, none: bool) {
    (none ==> bytes == whole) && (!none ==> |bytes| < |whole|)
  }

  lemma CutsNoneJoin(a: seq<Byte>, c: seq<Byte>, p: bool, b: seq<Byte>, d: seq<Byte>, q: bool)
    requires CutsNone(a, c, p) && CutsNone(b, d, q)
    ensures CutsNone(a + b, c + d, p && q)
  {
  }

  /** However the counts cut the listing up, the replies together are the records of the entries got past, in order,
      each once, just when no record is cut. */
  lemma {:induction false} ListedExactly(es: seq<Entry>, counts: seq<nat>)
    requires AllProper(es)
    ensures Reads(es, counts).0 == Records(es[..Reads(es, counts).1]) <==> NoneCut(es, counts)
  {
    ListedShortens(es, counts);
  }

  lemma {:induction false} ListedShortens(es: seq<Entry>, counts: seq<nat>)
    requires AllProper(es)
    ensures CutsNone(Reads(es, counts).0, Records(es[..Reads(es, counts).1]), NoneCut(es, counts))
    decreases |counts|
  {
    if counts != [] {
      var first := ReadFrom(es, counts[0]);
      var k := first.1;
      var last := Reads(es[k..], counts[1..]);
      ReadShortens(es, counts[0]);
      RestProper(es, k);
      ListedShortens(es[k..], counts[1..]);
      ReadsStart(es, counts);
      ListedJoin(es, counts, first, last);
    }
  }

  lemma {:induction false} ListedJoin(es: seq<Entry>, counts: seq<nat>, first: (seq<Byte>, nat),
                                      last: (seq<Byte>, nat))
    requires counts != [] && first == ReadFrom(es, counts[0]) && last.1 <= |es| - first.1
    requires CutsNone(first.0, Records(es[..first.1]), !Cuts(es, counts[0]))
    requires CutsNone(last.0, Records(es[first.1..][..last.1]), NoneCut(es[first.1..], counts[1..]))
    ensures CutsNone(first.0 + last.0, Records(es[..first.1 + last.1]), NoneCut(es, counts))
  {
    var k := first.1;
    RecordsJoin(es, k, last.1);
    CutsNoneJoin(first.0, Records(es[..k]), !Cuts(es, counts[0]),
                 last.0, Records(es[k..][..last.1]), NoneCut(es[k..], counts[1..]));
  }

  lemma {:induction false} ReadShortens(es: seq<Entry>, room: nat)
    requires AllProper(es)
    ensures var (bytes, k) := ReadFrom(es, room); CutsNone(bytes, Records(es[..k]), !Cuts(es, room))
  {
    var (bytes, k) := ReadFrom(es, room);
    ReadExactly(es, room);
    if Cuts(es, room) { assert |bytes + [0, 0]| == |Records(es[..k])|; }
  }

  lemma {:induction false} RecordsJoin(es: seq<Entry>, k: nat, l: nat)
    requires k <= |es| && l <= |es| - k
    ensures Records(es[..k + l]) == Records(es[..k]) + Records(es[k..][..l])
  {
    TakeMore(es, k, l);
    RecordsConcat(es[..k], es[k..][..l]);
  }

  /** One read behind the other. */
  function Joined(a: (seq<Byte>, nat), b: (seq<Byte>, nat)): (seq<Byte>, nat) { (a.0 + b.0, a.1 + b.1) }

  lemma JoinedAssoc(a: (seq<Byte>, nat), b: (seq<Byte>, nat), c: (seq<Byte>, nat))
    ensures Joined(Joined(a, b), c) == Joined(a, Joined(b, c))
  {
    Assoc(a.0, b.0, c.0);
  }

  lemma JoinedNone(a: (seq<Byte>, nat))
    ensures Joined(a, ([], 0)) == a && Joined(([], 0), a) == a
  {
    assert a.0 + [] == a.0 && [] + a.0 == a.0;
  }

  lemma {:induction false} ReadsStart(es: seq<Entry>, counts: seq<nat>)
    requires counts != []
    ensures Reads(es, counts) == Joined(ReadFrom(es, counts[0]), Reads(es[ReadFrom(es, counts[0]).1..], counts[1..]))
  {
  }

  /** One read more, of the entries the others have left. */
  lemma {:induction false} ReadsNext(es: seq<Entry>, counts: seq<nat>, count: nat, left: seq<Entry>)
    requires left == es[Reads(es, counts).1..]
    ensures Reads(es, counts + [count]) == Joined(Reads(es, counts), ReadFrom(left, count))
    decreases |counts|
  {
    ReadsStart(es, counts + [count]);
    if counts == [] {
      ReadsOne(es, count);
      assert left == es;
    } else {
      var first := ReadFrom(es, counts[0]);
      var rest := Reads(es[first.1..], counts[1..]);
      ReadsStart(es, counts);
      Drops(es, first.1, rest.1);
      ReadsNext(es[first.1..], counts[1..], count, left);
      NextCounts(counts, count);
      JoinedAssoc(first, rest, ReadFrom(left, count));
    }
  }

  lemma NextCounts(counts: seq<nat>, count: nat)
    requires counts != []
    ensures (counts + [count])[1..] == counts[1..] + [count] && (counts + [count])[0] == counts[0]
  {
  }

  lemma {:induction false} ReadsOne(es: seq<Entry>, count: nat)
    ensures Reads(es, [] + [count]) == Joined(Reads(es, []), ReadFrom(es, count)) && es[Reads(es, []).1..] == es
  {
    var first := ReadFrom(es, count);
    assert ([] + [count])[1..] == [] && ([] + [count])[0] == count;
    assert Reads(es[first.1..], []) == ([], 0);
    JoinedNone(first);
    ReadsStart(es, [] + [count]);
  }

  lemma Drops<T>(s: seq<T>, k: nat, l: nat)
    requires k <= |s| && l <= |s| - k
    ensures s[k..][l..] == s[k + l..]
  {
  }

  /** With counts that hold any one entry, as many reads as there are entries list the directory to its end. */
  lemma {:induction false} ListedWhole(es: seq<Entry>, counts: seq<nat>, most: nat)
    requires AllProper(es) && NoneCut(es, counts) && |counts| >= |es|
    requires (forall e :: e in es ==> |e.record| <= most) && forall c :: c in counts ==> most < c
    ensures Reads(es, counts) == (Records(es), |es|)
  {
    ListedExactly(es, counts);
    assert es[..|es|] == es;
    AllTaken(es, counts, most);
  }

  lemma {:induction false} AllTaken(es: seq<Entry>, counts: seq<nat>, most: nat)
    requires AllProper(es) && NoneCut(es, counts) && |counts| >= |es|
    requires (forall e :: e in es ==> |e.record| <= most) && forall c :: c in counts ==> most < c
    ensures Reads(es, counts).1 == |es|
    decreases |counts|
  {
    assert counts != [] ==> forall c :: c in counts[1..] ==> c in counts;
    if es != [] {
      var k := ReadFrom(es, counts[0]).1;
      assert es[0] in es && counts[0] in counts;
      ReadExactly(es, counts[0]);
      RestProper(es, k);
      AllTaken(es[k..], counts[1..], most);
    } else if counts != [] {
      AllTaken([], counts[1..], most);
    }
  }

  /** No record is ever cut under 9P2000.u, or when every entry has a muid. */
  lemma {:induction false} NeverCut(es: seq<Entry>, counts: seq<nat>)
    requires forall e :: e in es ==> !e.cuttable
    ensures NoneCut(es, counts)
    decreases |counts|
  {
    if counts != [] {
      NotCut(es, counts[0]);
      NeverCut(es[ReadFrom(es, counts[0]).1..], counts[1..]);
    }
  }

  lemma {:induction false} NotCut(es: seq<Entry>, room: nat)
    requires forall e :: e in es ==> !e.cuttable
    ensures !Cuts(es, room)
  {
    if es != [] {
      assert es[0] in es;
      if |es[0].record| < room { NotCut(es[1..], room - |es[0].record|); }
    }
  }

  /** An entry without a muid, and a Tread whose count is one less than its record. */
  lemma CutsHappen()
    ensures exists w, count :: FitsWstat(w, false) && Cuts([EntryOf(w, false)], count)
  {
    var w := Wstat(0, 0, QidVal(0, 0, 0), 0, 0, 0, 0, [], [], [], [], [], 0, 0, 0);
    RecordLength(w, false);
    assert Cuts([EntryOf(w, false)], 48);
  }

  function Entries(ws: seq<Wstat>, dotu: bool): (es: seq<Entry>)
    ensures |es| == |ws| && forall i :: 0 <= i < |ws| ==> es[i] == EntryOf(ws[i], dotu)
  {
    seq(|ws|, i requires 0 <= i < |ws| => EntryOf(ws[i], dotu))
  }

  /** What a client makes of the listing, with np_deserialize_stat over and over. */
  function Stats(bytes: seq<Byte>, dotu: bool): Option<seq<seq<Value>>>
    decreases |bytes|
  {
    if bytes == [] then Some([])
    else
      match Deserialized(bytes, dotu)
      case None => None
      case Some((vals, len)) =>
        if len == 0 || len > |bytes| then None
        else match Stats(bytes[len..], dotu)
          case None => None
          case Some(rest) => Some([vals] + rest)
  }

  function AllValues(ws: seq<Wstat>, dotu: bool): seq<seq<Value>> {
    if ws == [] then [] else [WstatValues(ws[0], dotu)] + AllValues(ws[1..], dotu)
  }

  /** The listing parses back to all entries, in order. */
  lemma {:induction false} ListingReadsBack(ws: seq<Wstat>, dotu: bool)
    requires forall i :: 0 <= i < |ws| ==> FitsWstat(ws[i], dotu)
    ensures Stats(Records(Entries(ws, dotu)), dotu) == Some(AllValues(ws, dotu))
  {
    if ws != [] {
      ListingReadsBack(ws[1..], dotu);
      assert Entries(ws, dotu)[1..] == Entries(ws[1..], dotu);
      StatsCons(ws[0], Records(Entries(ws[1..], dotu)), dotu);
    }
  }

  lemma {:induction false} StatsCons(w: Wstat, rest: seq<Byte>, dotu: bool)
    requires FitsWstat(w, dotu)
    ensures Stats(Record(w, dotu) + rest, dotu) ==
      if Stats(rest, dotu).None? then None else Some([WstatValues(w, dotu)] + Stats(rest, dotu).value)
  {
    RecordReadsBack(w, rest, dotu);
    RecordLength(w, dotu);
    Behind(Record(w, dotu), rest);
  }

  lemma Behind(a: seq<Byte>, b: seq<Byte>)
    ensures (a + b)[|a|..] == b
  {
  }

  /** What k turns of the loop have written, and the room they have left; None when it stops before. */
  function After(es: seq<Entry>, room: nat, k: nat): (r: Option<(seq<Byte>, nat)>)
    requires k <= |es|
    ensures r.Some? ==> |r.value.0| + r.value.1 == room
  {
    if k == 0 then Some(([], room))
    else
      match After(es, room, k - 1)
      case None => None
      case Some((bytes, left)) =>
        if left == 0 then None
        else
          var r := Written(es[k - 1], left - 1);
          if r == [] then None else Some((bytes + r, left - |r|))
  }

  lemma FirstOfRest<T>(s: seq<T>, k: nat)
    requires k < |s|
    ensures s[k..][0] == s[k] && s[k..][1..] == s[k + 1..]
  {
  }

  /** What k turns have written, with what the rest of the loop writes, is the whole read. */
  lemma {:induction false} AfterReads(es: seq<Entry>, room: nat, k: nat, bytes: seq<Byte>, left: nat)
    requires k <= |es| && After(es, room, k) == Some((bytes, left))
    ensures ReadFrom(es, room) == Joined((bytes, k), ReadFrom(es[k..], left))
    decreases k
  {
    if k == 0 {
      assert es[0..] == es;
      JoinedNone(ReadFrom(es, room));
    } else {
      var (before, room') := After(es, room, k - 1).value;
      var r := Written(es[k - 1], room' - 1);
      AfterReads(es, room, k - 1, before, room');
      OneWritten(es, k - 1, room');
      JoinedAssoc((before, k - 1), (r, 1), ReadFrom(es[k..], left));
    }
  }

  /** The loop writes one entry, and goes on. */
  lemma {:induction false} OneWritten(es: seq<Entry>, k: nat, left: nat)
    requires k < |es| && left > 0 && Written(es[k], left - 1) != []
    ensures var r := Written(es[k], left - 1);
      |r| <= left && ReadFrom(es[k..], left) == Joined((r, 1), ReadFrom(es[k + 1..], left - |r|))
  {
    FirstOfRest(es, k);
  }

  lemma AfterNext(es: seq<Entry>, room: nat, k: nat, bytes: seq<Byte>, left: nat)
    requires k < |es| && After(es, room, k) == Some((bytes, left)) && left > 0
    ensures var r := Written(es[k], left - 1);
      After(es, room, k + 1) == (if r == [] then None else Some((bytes + r, left - |r|)))
      && (r == [] ==> bytes + r == bytes)
  {
  }

  /** The loop has made k turns and stands at n. */
  ghost predicate Reached(es: seq<Entry>, room: nat, k: nat, bytes: seq<Byte>, n: nat) {
    k <= |es| && n <= room && After(es, room, k) == Some((bytes, room - n))
  }

  /** No room, no entry, or an entry that is not written. */
  ghost predicate Blocked(es: seq<Entry>, room: nat, k: nat, n: nat) {
    k >= |es| || n >= room || Written(es[k], room - n - 1) == []
  }

  lemma ReachedNext(es: seq<Entry>, room: nat, k: nat, bytes: seq<Byte>, n: nat, now: seq<Byte>, len: nat)
    requires Reached(es, room, k, bytes, n) && k < |es| && n < room
    requires now == bytes + Written(es[k], room - n - 1) && len == |Written(es[k], room - n - 1)|
    ensures len == 0 ==> Blocked(es, room, k, n) && now == bytes
    ensures len > 0 ==> Reached(es, room, k + 1, now, n + len)
  {
    AfterNext(es, room, k, bytes, room - n);
  }

  lemma {:induction false} LoopEnds(es: seq<Entry>, room: nat, k: nat, bytes: seq<Byte>, n: nat)
    requires Reached(es, room, k, bytes, n) && Blocked(es, room, k, n)
    ensures ReadFrom(es, room) == (bytes, k)
  {
    AfterReads(es, room, k, bytes, room - n);
    Stuck(es, k, room - n);
    assert bytes + [] == bytes;
  }

  lemma RestAt(es: seq<Entry>, from: nat, rest: seq<Entry>, k: nat)
    requires from <= |es| && rest == es[from..] && k < |rest|
    ensures from + k < |es| && rest[k] == es[from + k]
  {
  }

  lemma {:induction false} Stuck(es: seq<Entry>, k: nat, left: nat)
    requires k <= |es| && (k == |es| || left == 0 || Written(es[k], left - 1) == [])
    ensures ReadFrom(es[k..], left) == ([], 0)
  {
    if k < |es| { FirstOfRest(es, k); }
  }

  /** The entries of the directory, as the loop sees them. */
  ghost predicate Models(ws: seq<Wstat>, es: seq<Entry>, dotu: bool)
    decreases |ws|
  {
    && |ws| == |es|
    && (ws == [] || (FitsWstat(ws[0], dotu) && es[0] == EntryOf(ws[0], dotu) && Models(ws[1..], es[1..], dotu)))
  }

  lemma {:induction false} EntriesModel(ws: seq<Wstat>, dotu: bool)
    requires forall i :: 0 <= i < |ws| ==> FitsWstat(ws[i], dotu)
    ensures Models(ws, Entries(ws, dotu), dotu)
  {
    if ws != [] {
      EntriesModel(ws[1..], dotu);
      assert Entries(ws, dotu)[1..] == Entries(ws[1..], dotu);
    }
  }

  lemma {:induction false} ModelsAt(ws: seq<Wstat>, es: seq<Entry>, k: nat, dotu: bool)
    requires Models(ws, es, dotu) && k < |ws|
    ensures FitsWstat(ws[k], dotu) && es[k] == EntryOf(ws[k], dotu)
    decreases k
  {
    if k > 0 { ModelsAt(ws[1..], es[1..], k - 1, dotu); }
  }

  lemma {:induction false} ModelsProper(ws: seq<Wstat>, es: seq<Entry>, dotu: bool)
    requires Models(ws, es, dotu)
    ensures AllProper(es)
    decreases |ws|
  {
    if ws != [] {
      WrittenIsSerialized(ws[0], 0, dotu);
      ModelsProper(ws[1..], es[1..], dotu);
    }
  }

  /** A read that gets past an entry brings some bytes. */
  lemma {:induction false} ReadsSome(es: seq<Entry>, count: nat)
    requires AllProper(es)
    ensures ReadFrom(es, count).1 > 0 ==> ReadFrom(es, count).0 != []
  {
    var (bytes, k) := ReadFrom(es, count);
    ReadExactly(es, count);
    if Cuts(es, count) { assert |bytes + [0, 0]| == |Records(es[..k])|; }
    if k > 0 { FirstLonger(es, k); }
  }

  /** What a client has that has read with these counts, each at the offset behind what it had: the bytes, the entry to
      go on with and the offset that is kept. */
  ghost predicate Sofar(es: seq<Entry>, before: seq<nat>, bytes: seq<Byte>, at: nat, offset: nat) {
    (bytes, at) == Reads(es, before) && offset == |bytes| % OffsetEnd && (bytes == [] ==> at == 0)
  }

  lemma {:induction false} SofarNext(es: seq<Entry>, before: seq<nat>, count: nat, bytes: seq<Byte>, at: nat,
                                     more: seq<Byte>, next: nat, offset: nat)
    requires AllProper(es) && Sofar(es, before, bytes, at, |bytes|)
    requires more == ReadFrom(es[at..], count).0 && next == at + ReadFrom(es[at..], count).1
    requires offset == (|bytes| + |more|) % OffsetEnd
    ensures Sofar(es, before + [count], bytes + more, next, offset)
  {
    GotMore(es, before, count, bytes, at, more, next);
    SomethingRead(es, at, count, more, next);
    AnyRead(bytes, more, at, next);
    NowSofar(es, before + [count], bytes + more, next, offset);
  }

  lemma {:induction false} AnyRead(bytes: seq<Byte>, more: seq<Byte>, at: nat, next: nat)
    requires (bytes == [] ==> at == 0) && (next != at ==> more != [])
    ensures bytes + more == [] ==> next == 0
  {
  }

  lemma {:induction false} NowSofar(es: seq<Entry>, before: seq<nat>, bytes: seq<Byte>, at: nat, offset: nat)
    requires Reads(es, before) == (bytes, at) && offset == |bytes| % OffsetEnd && (bytes == [] ==> at == 0)
    ensures Sofar(es, before, bytes, at, offset)
  {
  }

  lemma {:induction false} GotMore(es: seq<Entry>, before: seq<nat>, count: nat, bytes: seq<Byte>, at: nat,
                                   more: seq<Byte>, next: nat)
    requires Reads(es, before) == (bytes, at)
    requires more == ReadFrom(es[at..], count).0 && next == at + ReadFrom(es[at..], count).1
    ensures Reads(es, before + [count]) == (bytes + more, next)
  {
    ReadsNext(es, before, count, es[at..]);
    assert Reads(es, before + [count]) == Joined((bytes, at), (more, next - at));
  }

  lemma {:induction false} SomethingRead(es: seq<Entry>, at: nat, count: nat, more: seq<Byte>, next: nat)
    requires AllProper(es) && at <= |es|
    requires more == ReadFrom(es[at..], count).0 && next == at + ReadFrom(es[at..], count).1
    ensures next != at ==> more != []
  {
    RestProper(es, at);
    ReadsSome(es[at..], count);
  }

  /** The first k reads began below the end of the offsets. */
  ghost predicate Below(es: seq<Entry>, counts: seq<nat>, k: nat)
    requires k <= |counts|
  {
    forall j :: 0 <= j < k ==> |Reads(es, counts[..j]).0| < OffsetEnd
  }

  lemma {:induction false} OneMoreBelow(es: seq<Entry>, counts: seq<nat>, k: nat, bytes: seq<Byte>)
    requires k < |counts| && Below(es, counts, k) && bytes == Reads(es, counts[..k]).0
    ensures |bytes| < OffsetEnd ==> Below(es, counts, k + 1)
  {
  }

  lemma TakeNext(counts: seq<nat>, k: nat)
    requires k < |counts|
    ensures counts[k] in counts && counts[..k] + [counts[k]] == counts[..k + 1]
  {
  }

  lemma {:induction false} FirstLonger(es: seq<Entry>, k: nat)
    requires AllProper(es) && 0 < k <= |es|
    ensures |Records(es[..k])| > 2
  {
    assert Records(es[..k]) == es[..k][0].record + Records(es[..k][1..]);
  }

  // ---- the code

  /** np_serialize_stat into buflen bytes of data, from n. */
  method SerializeStat(w: Wstat, data: array<Byte>, n: nat, buflen: nat, dotu: bool) returns (len: nat)
    requires FitsWstat(w, dotu) && n + buflen <= data.Length
    modifies data
    ensures len == |Serialized(w, buflen, dotu)| <= buflen
    ensures data[..n + len] == old(data[..n]) + Serialized(w, buflen, dotu)
  {
    if SizeWstat(w, dotu) > buflen { return 0; }
    var buf := new Cbuf(data, n, buflen);
    PutValues(buf, WstatValues(w, dotu));
    var over := buf.CheckOverflow();
    if over { return 0; }
    ghost var out := buf.Written().out;
    assert data[n..buf.p] == out && data[..n] == old(data[..n]);
    assert data[..buf.p] == data[..n] + data[n..buf.p];
    return buf.p - n;
  }

  /** np_deserialize_stat. */
  method DeserializeStat(data: array<Byte>, dotu: bool) returns (r: Option<(seq<Value>, nat)>)
    ensures r == Deserialized(data[..], dotu)
  {
    var buf := new Cbuf(data, 0, data.Length);
    assert data[0..data.Length] == data[..];
    var vals := ReadFields(buf, StatLayout(dotu));
    if vals.None? { return None; }
    var over := buf.CheckOverflow();
    if over { return None; }
    return Some((vals.value, buf.p));
  }

  /** Npfid.diroffset is an unsigned of 32 bits. */
  const OffsetEnd := 0x1_0000_0000

  /** An open fid of a directory that does not change. */
  class DirFid {
    const entries: seq<Wstat>
    const dotu: bool
    const msize: nat
    const omode: nat
    ghost const es: seq<Entry>
    var diroffset: nat
    /** The entry to resume at; past the last one for NULL. */
    var dirent: nat

    ghost predicate Valid()
      reads this
    {
      Models(entries, es, dotu) && AllProper(es) && dirent <= |es| && diroffset < OffsetEnd
    }

    constructor (entries: seq<Wstat>, dotu: bool, msize: nat, omode: nat)
      requires forall i :: 0 <= i < |entries| ==> FitsWstat(entries[i], dotu)
      ensures Valid() && dirent == 0 && diroffset == 0
      ensures this.msize == msize && this.omode == omode && es == Entries(entries, dotu)
    {
      this.entries, this.dotu, this.msize, this.omode, es := entries, dotu, msize, omode, Entries(entries, dotu);
      diroffset, dirent := 0, 0;
      new;
      EntriesModel(entries, dotu);
      ModelsProper(entries, es, dotu);
    }

    predicate Readable() { omode != Onotopen && omode % 4 != Owrite }

    /** Where a read at the offset begins. */
    function Begin(offset: nat): (from: nat)
      reads this
      ensures from <= dirent
    {
      if offset == 0 then 0 else dirent
    }

    /** np_read, npfile_read and the offset np_respond keeps. No reply for a count that the connection cannot carry, for
        a fid not open for reading, or at any offset but the running one, of which only 32 bits are kept. A read at
        offset 0 begins again. */
    method Tread(offset: nat, count: nat) returns (reply: Option<seq<Byte>>)
      requires Valid() && count < 0x8000_0000
      modifies this
      ensures Valid()
      ensures reply.None? <==> count + IoHdrSz > msize || !Readable() || offset != old(diroffset)
      ensures reply.None? ==> dirent == old(dirent) && diroffset == old(diroffset)
      ensures reply.Some? ==> reply.value == ReadFrom(es[old(Begin(offset))..], count).0
      ensures reply.Some? ==> dirent == old(Begin(offset)) + ReadFrom(es[old(Begin(offset))..], count).1
      ensures reply.Some? ==> diroffset == (offset + |reply.value|) % OffsetEnd
    {
      if count + IoHdrSz > msize { return None; }
      if omode == Onotopen || omode % 4 == Owrite { return None; }
      if offset != diroffset { return None; }
      var bytes := ReadOn(offset, count, es[Begin(offset)..]);
      reply := Some(bytes);
    }

    /** The read itself, at the running offset. */
    method ReadOn(offset: nat, count: nat, ghost rest: seq<Entry>) returns (bytes: seq<Byte>)
      requires Valid() && offset == diroffset && rest == es[Begin(offset)..]
      modifies this
      ensures Valid() && diroffset == (offset + |bytes|) % OffsetEnd
      ensures bytes == ReadFrom(rest, count).0 && dirent == old(Begin(offset)) + ReadFrom(rest, count).1
    {
      if offset == 0 { dirent := 0; }
      var cf;
      bytes, cf := Reply(dirent, count, rest);
      dirent := cf;
      diroffset := (offset + |bytes|) % OffsetEnd;
    }

    /** A client that reads on with these counts, each at the offset behind what it has: it is answered as long as that
        is below 2^32. */
    method TreadAll(counts: seq<nat>) returns (bytes: seq<Byte>, k: nat)
      requires Valid() && dirent == 0 && diroffset == 0 && Readable()
      requires forall c :: c in counts ==> c + IoHdrSz <= msize && c < 0x8000_0000
      modifies this
      ensures Valid() && k <= |counts| && (bytes, dirent) == Reads(es, counts[..k])
      ensures bytes == Records(es[..dirent]) <==> NoneCut(es, counts[..k])
      ensures Below(es, counts, k) && (k < |counts| ==> |bytes| >= OffsetEnd)
    {
      bytes, k := [], 0;
      while k < |counts|
        invariant Valid() && k <= |counts| && Sofar(es, counts[..k], bytes, dirent, diroffset) && Below(es, counts, k)
        decreases |counts| - k
      {
        TakeNext(counts, k);
        OneMoreBelow(es, counts, k, bytes);
        var reply := TreadOn(|bytes|, counts[k], bytes, counts[..k]);
        if reply.None? { break; }
        bytes, k := bytes + reply.value, k + 1;
      }
      ListedExactly(es, counts[..k]);
    }

    method TreadOn(offset: nat, count: nat, ghost bytes: seq<Byte>, ghost before: seq<nat>)
      returns (reply: Option<seq<Byte>>)
      requires Valid() && Readable() && count + IoHdrSz <= msize && count < 0x8000_0000
      requires offset == |bytes| && Sofar(es, before, bytes, dirent, diroffset)
      modifies this
      ensures Valid() && (reply.None? <==> offset >= OffsetEnd)
      ensures reply.None? ==> dirent == old(dirent)
      ensures reply.Some? ==> Sofar(es, before + [count], bytes + reply.value, dirent, diroffset)
    {
      ghost var at := dirent;
      assert Begin(offset) == dirent;
      reply := Tread(offset, count);
      if reply.Some? {
        SofarNext(es, before, count, bytes, at, reply.value, dirent, diroffset);
      }
    }

    method Reply(from: nat, count: nat, ghost rest: seq<Entry>) returns (bytes: seq<Byte>, cf: nat)
      requires Models(entries, es, dotu) && from <= |entries| && es[from..] == rest
      ensures from <= cf <= |entries| && ReadFrom(rest, count) == (bytes, cf - from)
    {
      var data := new Byte[count];
      var n;
      ghost var written, k;
      n, cf, written, k := FillReply(from, data, rest);
      bytes := data[..n];
      LoopEnds(rest, count, k, bytes, n);
    }

    method WriteEntry(cf: nat, data: array<Byte>, n: nat, buflen: nat, ghost sofar: seq<Byte>)
      returns (len: nat, ghost now: seq<Byte>)
      requires Models(entries, es, dotu) && cf < |entries| && n + buflen <= data.Length && data[..n] == sofar
      modifies data
      ensures len == |Written(es[cf], buflen)| <= buflen && data[..n + len] == now == sofar + Written(es[cf], buflen)
    {
      ModelsAt(entries, es, cf, dotu);
      WrittenIsSerialized(entries[cf], buflen, dotu);
      len := SerializeStat(entries[cf], data, n, buflen, dotu);
      now := data[..n + len];
    }

    /** One turn of the loop. */
    method FillOne(cf: nat, data: array<Byte>, n: nat, ghost rest: seq<Entry>, ghost k: nat, ghost sofar: seq<Byte>)
      returns (i: nat, ghost now: seq<Byte>)
      requires Models(entries, es, dotu) && k <= cf < |entries| && es[cf - k..] == rest
      requires n < data.Length && data[..n] == sofar && Reached(rest, data.Length, k, sofar, n)
      modifies data
      ensures n + i <= data.Length && data[..n + i] == now
      ensures i == 0 ==> Blocked(rest, data.Length, k, n) && now == sofar
      ensures i > 0 ==> Reached(rest, data.Length, k + 1, now, n + i)
    {
      RestAt(es, cf - k, rest, k);
      i, now := WriteEntry(cf, data, n, data.Length - n - 1, sofar);
      ReachedNext(rest, data.Length, k, sofar, n, now, i);
    }

    lemma {:induction false} EndBlocks(ws: seq<Wstat>, rest: seq<Entry>, from: nat, k: nat, room: nat, n: nat)
      requires Models(ws, es, dotu) && from + k <= |ws| && es[from..] == rest
      ensures n >= room || from + k >= |ws| ==> Blocked(rest, room, k, n)
    {
    }

    /** The loop of npfile_read, from entry from, and the number of its turns. */
    method FillReply(from: nat, data: array<Byte>, ghost rest: seq<Entry>)
      returns (n: nat, cf: nat, ghost bytes: seq<Byte>, ghost k: nat)
      requires Models(entries, es, dotu) && from <= |entries| && es[from..] == rest
      modifies data
      ensures from + k == cf <= |entries| && n <= data.Length && data[..n] == bytes
      ensures Reached(rest, data.Length, k, bytes, n) && Blocked(rest, data.Length, k, n)
    {
      n, cf, bytes, k := 0, from, [], 0;
      while n < data.Length && cf < |entries|
        invariant from + k == cf <= |entries| && n <= data.Length && data[..n] == bytes
        invariant Reached(rest, data.Length, k, bytes, n)
        decreases |entries| - cf
      {
        var i;
        i, bytes := FillOne(cf, data, n, rest, k, bytes);
        if i == 0 { return; }
        n, cf, k := n + i, cf + 1, k + 1;
      }
      EndBlocks(entries, rest, from, k, data.Length, n);
    }
  }
}
