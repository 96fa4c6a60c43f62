/** The messages of libnpfs/np.c in the words of their callers: which argument of a constructor np_deserialize puts into
    which field, and which bytes it travels in. */
module Calls {
  import opened Bytes
  import opened Cbuf
  import opened Wire
  import opened Codec
  import opened DirRead

  // ---- the named fields of what np_deserialize has read, by their places in the message

  function N(vals: seq<Value>, i: nat): nat {
    if i >= |vals| then 0
    else match vals[i] case U8(n) => n case U16(n) => n case U32(n) => n case U64(n) => n case _ => 0
  }

  function S(vals: seq<Value>, i: nat): seq<Byte> { if i < |vals| && vals[i].Str? then vals[i].s else [] }

  function D(vals: seq<Value>, i: nat): seq<Byte> { if i < |vals| && vals[i].Data? then vals[i].d else [] }

  function Q(vals: seq<Value>, i: nat): QidVal { if i < |vals| && vals[i].Qid? then vals[i].q else QidVal(0, 0, 0) }

  function NameList(vals: seq<Value>, i: nat): seq<Value> {
    if i < |vals| && vals[i].Names? then vals[i].names else []
  }

  function QidList(vals: seq<Value>, i: nat): seq<QidVal> { if i < |vals| && vals[i].Qids? then vals[i].qids else [] }

  /** What a field holds that is not on the wire without .u. */
  const Unsent := 0xFFFF_FFFF

  /** buf_get_stat; the record's own size is the i-th value. */
  function StatFrom(vals: seq<Value>, i: nat, dotu: bool): Wstat {
    Wstat(N(vals, i + 1), N(vals, i + 2), Q(vals, i + 3), N(vals, i + 4), N(vals, i + 5), N(vals, i + 6),
          N(vals, i + 7), S(vals, i + 8), S(vals, i + 9), S(vals, i + 10), S(vals, i + 11),
          if dotu then S(vals, i + 12) else [], if dotu then N(vals, i + 13) else 0,
          if dotu then N(vals, i + 14) else 0, if dotu then N(vals, i + 15) else 0)
  }

  function AttrsFrom(vals: seq<Value>, i: nat): Attrs {
    Attrs(N(vals, i), N(vals, i + 1), N(vals, i + 2), N(vals, i + 3), N(vals, i + 4), N(vals, i + 5), N(vals, i + 6),
          N(vals, i + 7), N(vals, i + 8), N(vals, i + 9), N(vals, i + 10), N(vals, i + 11), N(vals, i + 12),
          N(vals, i + 13), N(vals, i + 14), N(vals, i + 15), N(vals, i + 16), N(vals, i + 17))
  }

  function SessionOf(typ: nat, dotu: bool, v: seq<Value>): Option<SessionCall> {
    match typ
    case 100 => Some(Tversion(N(v, 0), S(v, 1)))
    case 101 => Some(Rversion(N(v, 0), S(v, 1)))
    case 102 => Some(Tauth(N(v, 0), S(v, 1), S(v, 2), if dotu then N(v, 3) else Unsent))
    case 103 => Some(Rauth(Q(v, 0)))
    case 104 => Some(Tattach(N(v, 0), N(v, 1), S(v, 2), S(v, 3), if dotu then N(v, 4) else Unsent))
    case 105 => Some(Rattach(Q(v, 0)))
    case 107 => Some(Rerror(S(v, 0), if dotu then N(v, 1) else Unsent))
    case 108 => Some(Tflush(N(v, 0)))
    case 109 => Some(Rflush)
    case _ => None
  }

  function PathOf(typ: nat, dotu: bool, v: seq<Value>): Option<PathCall> {
    match typ
    case 110 => Some(Twalk(N(v, 0), N(v, 1), NameList(v, 2)))
    case 111 => Some(Rwalk(QidList(v, 0)))
    case 112 => Some(Topen(N(v, 0), N(v, 1)))
    case 113 => Some(Ropen(Q(v, 0), N(v, 1)))
    case 114 => Some(Tcreate(N(v, 0), S(v, 1), N(v, 2), N(v, 3)))
    case 115 => Some(Rcreate(Q(v, 0), N(v, 1)))
    case _ => None
  }

  function IoOf(typ: nat, dotu: bool, v: seq<Value>): Option<IoCall> {
    match typ
    case 116 => Some(Tread(N(v, 0), N(v, 1), N(v, 2)))
    case 117 => Some(Rread(D(v, 0)))
    case 118 => Some(Twrite(N(v, 0), N(v, 1), D(v, 2)))
    case 119 => Some(Rwrite(N(v, 0)))
    case 120 => Some(Tclunk(N(v, 0)))
    case 121 => Some(Rclunk)
    case 122 => Some(Tremove(N(v, 0)))
    case 123 => Some(Rremove)
    case 124 => Some(Tstat(N(v, 0)))
    case _ => None
  }

  function RecordOf(typ: nat, dotu: bool, v: seq<Value>): Option<RecordCall> {
    match typ
    case 125 => Some(Rstat(StatFrom(v, 1, dotu)))
    case 126 => Some(Twstat(N(v, 0), StatFrom(v, 2, dotu)))
    case 127 => Some(Rwstat)
    case _ => None
  }

  function CreateOf(typ: nat, dotu: bool, v: seq<Value>): Option<CreateCall> {
    match typ
    case 7 => Some(Rlerror(N(v, 0)))
    case 8 => Some(Tstatfs(N(v, 0)))
    case 9 => Some(Rstatfs(N(v, 0), N(v, 1), N(v, 2), N(v, 3), N(v, 4), N(v, 5), N(v, 6), N(v, 7), N(v, 8)))
    case 12 => Some(Tlopen(N(v, 0), N(v, 1)))
    case 13 => Some(Rlopen(Q(v, 0), N(v, 1)))
    case 14 => Some(Tlcreate(N(v, 0), S(v, 1), N(v, 2), N(v, 3), N(v, 4)))
    case 15 => Some(Rlcreate(Q(v, 0), N(v, 1)))
    case 16 => Some(Tsymlink(N(v, 0), S(v, 1), S(v, 2), N(v, 3)))
    case 17 => Some(Rsymlink(Q(v, 0)))
    case 18 => Some(Tmknod(N(v, 0), S(v, 1), N(v, 2), N(v, 3), N(v, 4), N(v, 5)))
    case 19 => Some(Rmknod(Q(v, 0)))
    case _ => None
  }

  function AttrOf(typ: nat, dotu: bool, v: seq<Value>): Option<AttrCall> {
    match typ
    case 20 => Some(Trename(N(v, 0), N(v, 1), S(v, 2)))
    case 21 => Some(Rrename)
    case 22 => Some(Treadlink(N(v, 0)))
    case 23 => Some(Rreadlink(S(v, 0)))
    case 24 => Some(Tgetattr(N(v, 0), N(v, 1)))
    case 25 => Some(Rgetattr(N(v, 0), Q(v, 1), AttrsFrom(v, 2)))
    case 27 => Some(Rsetattr)
    case 30 => Some(Txattrwalk(N(v, 0), N(v, 1), S(v, 2)))
    case 31 => Some(Rxattrwalk(N(v, 0)))
    case 32 => Some(Txattrcreate(N(v, 0), S(v, 1), N(v, 2), N(v, 3)))
    case 33 => Some(Rxattrcreate)
    case _ => None
  }

  function LockOf(typ: nat, dotu: bool, v: seq<Value>): Option<LockCall> {
    match typ
    case 40 => Some(Treaddir(N(v, 0), N(v, 1), N(v, 2)))
    case 41 => Some(Rreaddir(D(v, 0)))
    case 50 => Some(Tfsync(N(v, 0)))
    case 51 => Some(Rfsync)
    case 52 => Some(Tlock(N(v, 0), N(v, 1), N(v, 2), N(v, 3), N(v, 4), N(v, 5), S(v, 6)))
    case 53 => Some(Rlock(N(v, 0)))
    case 54 => Some(Tgetlock(N(v, 0), N(v, 1), N(v, 2), N(v, 3), N(v, 4), S(v, 5)))
    case _ => None
  }

  function TreeOf(typ: nat, dotu: bool, v: seq<Value>): Option<TreeCall> {
    match typ
    case 70 => Some(Tlink(N(v, 0), N(v, 1), S(v, 2)))
    case 71 => Some(Rlink)
    case 72 => Some(Tmkdir(N(v, 0), S(v, 1), N(v, 2), N(v, 3)))
    case 73 => Some(Rmkdir(Q(v, 0)))
    case 74 => Some(Trenameat(N(v, 0), S(v, 1), N(v, 2), S(v, 3)))
    case 75 => Some(Rrenameat)
    case 76 => Some(Tunlinkat(N(v, 0), S(v, 1), N(v, 2)))
    case 77 => Some(Runlinkat)
    case _ => None
  }

  /** The call that np_deserialize makes of a message. */
  function CallOf(typ: nat, dotu: bool, vals: seq<Value>): Option<Call> {
    if typ < 20 then Lift(CreateOf(typ, dotu, vals), c => Create(c))
    else if typ < 34 then Lift(AttrOf(typ, dotu, vals), c => Attr(c))
    else if typ < 56 then Lift(LockOf(typ, dotu, vals), c => Lock(c))
    else if typ < 78 then Lift(TreeOf(typ, dotu, vals), c => Tree(c))
    else if typ < 110 then Lift(SessionOf(typ, dotu, vals), c => Session(c))
    else if typ < 116 then Lift(PathOf(typ, dotu, vals), c => Path(c))
    else if typ < 125 then Lift(IoOf(typ, dotu, vals), c => Io(c))
    else Lift(RecordOf(typ, dotu, vals), c => Record(c))
  }

  function Lift<T, U>(o: Option<T>, f: T -> U): Option<U> { if o.Some? then Some(f(o.value)) else None }

  // ---- which are the constructor's arguments

  /** What of a stat record is on the wire. */
  function SentStat(w: Wstat, dotu: bool): Wstat {
    if dotu then w else w.(extension := [], nuid := 0, ngid := 0, nmuid := 0)
  }

  /** What of the arguments is: without .u, no numeric user, no error number and no extension. */
  function Sent(m: Call, dotu: bool): Call {
    match m
    case Session(Tauth(afid, uname, aname, n)) => Session(Tauth(afid, uname, aname, if dotu then n else Unsent))
    case Session(Tattach(fid, afid, uname, aname, n)) =>
      Session(Tattach(fid, afid, uname, aname, if dotu then n else Unsent))
    case Session(Rerror(ename, ecode)) => Session(Rerror(ename, if dotu then ecode else Unsent))
    case Record(Rstat(w)) => Record(Rstat(SentStat(w, dotu)))
    case Record(Twstat(fid, w)) => Record(Twstat(fid, SentStat(w, dotu)))
    case _ => m
  }

  lemma SessionArguments(m: SessionCall, dotu: bool)
    ensures CallOf(BuildSession(m, dotu).typ, dotu, BuildSession(m, dotu).vals) == Some(Sent(Session(m), dotu))
  {
  }

  lemma PathArguments(m: PathCall, dotu: bool)
    ensures CallOf(BuildPath(m, dotu).typ, dotu, BuildPath(m, dotu).vals) == Some(Path(m))
  {
  }

  /** The extension that np_deserialize reads under .u is no argument of np_create_tcreate. */
  lemma TcreateArguments(m: PathCall, extension: Value)
    requires m.Tcreate?
    ensures CallOf(114, true, BuildPath(m, true).vals + [extension]) == Some(Path(m))
  {
  }

  lemma IoArguments(m: IoCall, dotu: bool)
    ensures CallOf(BuildIo(m, dotu).typ, dotu, BuildIo(m, dotu).vals) == Some(Io(m))
  {
  }

  lemma CreateArguments(m: CreateCall, dotu: bool)
    requires !m.Tlerror?
    ensures CallOf(BuildCreate(m, dotu).typ, dotu, BuildCreate(m, dotu).vals) == Some(Create(m))
  {
  }

  lemma GetattrArguments(before: seq<Value>, a: Attrs)
    ensures AttrsFrom(before + AttrValues(a), |before|) == a
  {
    var vals, all := AttrValues(a), before + AttrValues(a);
    assert forall k :: 0 <= k < |vals| ==> all[|before| + k] == vals[k];
  }

  lemma RgetattrArguments(mask: nat, qid: QidVal, a: Attrs, dotu: bool)
    ensures CallOf(25, dotu, [U64(mask), Qid(qid)] + AttrValues(a)) == Some(Attr(Rgetattr(mask, qid, a)))
  {
    GetattrArguments([U64(mask), Qid(qid)], a);
  }

  lemma AttrArguments(m: AttrCall, dotu: bool)
    requires !m.Tsetattr? && !m.Rgetattr?
    ensures CallOf(BuildAttr(m, dotu).typ, dotu, BuildAttr(m, dotu).vals) == Some(Attr(m))
  {
  }

  lemma LockArguments(m: LockCall, dotu: bool)
    requires !m.Rgetlock?
    ensures CallOf(BuildLock(m, dotu).typ, dotu, BuildLock(m, dotu).vals) == Some(Lock(m))
  {
  }

  lemma TreeArguments(m: TreeCall, dotu: bool)
    ensures CallOf(BuildTree(m, dotu).typ, dotu, BuildTree(m, dotu).vals) == Some(Tree(m))
  {
  }

  lemma Shifted(before: seq<Value>, vals: seq<Value>, k: nat)
    ensures N(before + vals, |before| + k) == N(vals, k) && S(before + vals, |before| + k) == S(vals, k)
    ensures Q(before + vals, |before| + k) == Q(vals, k)
  {
  }

  lemma StatShifted(before: seq<Value>, vals: seq<Value>, dotu: bool)
    ensures StatFrom(before + vals, |before|, dotu) == StatFrom(vals, 0, dotu)
  {
    forall k: nat { Shifted(before, vals, k); }
  }

  /** The fields of a stat record, read behind any other values. */
  lemma StatArguments(before: seq<Value>, w: Wstat, dotu: bool)
    ensures StatFrom(before + WstatValues(w, dotu), |before|, dotu) == SentStat(w, dotu)
  {
    StatShifted(before, WstatValues(w, dotu), dotu);
  }

  lemma RstatCall(vals: seq<Value>, w: Wstat, dotu: bool)
    requires StatFrom(vals, 1, dotu) == w
    ensures CallOf(125, dotu, vals) == Some(Record(Rstat(w)))
  {
  }

  lemma TwstatCall(vals: seq<Value>, fid: nat, w: Wstat, dotu: bool)
    requires N(vals, 0) == fid && StatFrom(vals, 2, dotu) == w
    ensures CallOf(126, dotu, vals) == Some(Record(Twstat(fid, w)))
  {
  }

  lemma RstatNamed(size: Value, w: Wstat, dotu: bool)
    ensures CallOf(125, dotu, [size] + WstatValues(w, dotu)) == Some(Record(Rstat(SentStat(w, dotu))))
  {
    StatArguments([size], w, dotu);
    RstatCall([size] + WstatValues(w, dotu), SentStat(w, dotu), dotu);
  }

  lemma TwstatNamed(fid: nat, size: Value, w: Wstat, dotu: bool)
    ensures CallOf(126, dotu, [U32(fid), size] + WstatValues(w, dotu)) == Some(Record(Twstat(fid, SentStat(w, dotu))))
  {
    StatArguments([U32(fid), size], w, dotu);
    TwstatCall([U32(fid), size] + WstatValues(w, dotu), fid, SentStat(w, dotu), dotu);
  }

  lemma RstatArguments(w: Wstat, dotu: bool)
    ensures var b := BuildRecord(Rstat(w), dotu);
      CallOf(b.typ, dotu, b.vals) == Some(Record(Rstat(SentStat(w, dotu))))
  {
    RstatNamed(U16((SizeWstat(w, dotu) + 2) % 0x1_0000), w, dotu);
  }

  lemma TwstatArguments(fid: nat, w: Wstat, dotu: bool)
    ensures var b := BuildRecord(Twstat(fid, w), dotu);
      CallOf(b.typ, dotu, b.vals) == Some(Record(Twstat(fid, SentStat(w, dotu))))
  {
    TwstatNamed(fid, U16((SizeWstat(w, dotu) + 2) % 0x1_0000), w, dotu);
  }

  /** The values a constructor puts are its arguments under their names, in all but the three of the list that the
      parser has no such names for. */
  lemma Arguments(m: Call, dotu: bool)
    requires !(m.Create? && m.c.Tlerror?) && !(m.Attr? && m.a.Tsetattr?) && !(m.Lock? && m.l.Rgetlock?)
    ensures CallOf(Build(m, dotu).typ, dotu, Build(m, dotu).vals) == Some(Sent(m, dotu))
  {
    match m {
      case Session(s) => SessionArguments(s, dotu);
      case Path(p) => PathArguments(p, dotu);
      case Io(i) => IoArguments(i, dotu);
      case Record(Rstat(w)) => RstatArguments(w, dotu);
      case Record(Twstat(fid, w)) => TwstatArguments(fid, w, dotu);
      case Record(Rwstat) =>
      case Create(c) => CreateArguments(c, dotu);
      case Attr(Rgetattr(mask, qid, a)) => RgetattrArguments(mask, qid, a, dotu);
      case Attr(a) => AttrArguments(a, dotu);
      case Lock(l) => LockArguments(l, dotu);
      case Tree(t) => TreeArguments(t, dotu);
    }
  }

  /** What a constructor is given, np_deserialize finds under the same names in the packet it made, as far as it is
      sent; but for the calls that do not read back. */
  lemma ArgumentsReadBack(m: Call, dotu: bool, junk: seq<Byte>)
    requires FitsCall(m, dotu) && !Refused(m) && |junk| == Build(m, dotu).size + 7 && !NotInverse(m, dotu)
    ensures var pkt := Created(m, dotu, junk);
      && pkt.Some? && |pkt.value| >= 4 && UnLE(pkt.value[..4]) == |pkt.value| && Parse(pkt.value, dotu).Some?
      && var call := Parse(pkt.value, dotu).value.call;
         CallOf(call.typ, dotu, call.vals) == Some(Sent(m, dotu))
  {
    RoundTripsExactly(m, dotu, junk);
    ExpectedArguments(m, dotu);
    Reads(Created(m, dotu, junk).value, Build(m, dotu), Expected(m, dotu), dotu);
  }

  lemma ExpectedArguments(m: Call, dotu: bool)
    requires !NotInverse(m, dotu)
    ensures CallOf(Build(m, dotu).typ, dotu, Expected(m, dotu)) == Some(Sent(m, dotu))
  {
    if ExtendedCreate(m, dotu) {
      TcreateArguments(m.p, Str([]));
    } else {
      Arguments(m, dotu);
      NothingAdded(Build(m, dotu).vals);
    }
  }

  lemma NothingAdded(vals: seq<Value>)
    ensures vals + [] == vals
  {
  }

  lemma Reads(pkt: seq<Byte>, b: Built, expected: seq<Value>, dotu: bool)
    requires ReadsAs(pkt, b, expected, dotu)
    ensures |pkt| >= 4 && UnLE(pkt[..4]) == |pkt| && Parse(pkt, dotu).Some?
    ensures Parse(pkt, dotu).value.call.typ == b.typ && Parse(pkt, dotu).value.call.vals == expected
  {
  }

  /** np_deserialize takes just the types that stand for a call, Tsetattr, and Rgetlock with a fid in front. */
  lemma TypesExactly(typ: nat, dotu: bool, vals: seq<Value>)
    ensures Layout(typ, dotu).Some? <==> CallOf(typ, dotu, vals).Some? || typ == 26 || typ == 55
  {
  }

  // ---- where they stand on the wire

  /** The header, and the body behind it. */
  lemma {:induction false} HeaderBytes(typ: nat, tag: nat, size: nat, body: seq<Byte>)
    requires typ < 0x100
    ensures var pkt := Packet(typ, tag, size, body);
      |pkt| == 7 + |body| && pkt[..4] == LE(size, 4) && pkt[4] == typ && pkt[5..7] == LE(tag, 2) && pkt[7..] == body
  {
    LEBytes(typ);
  }

  /** The bytes of np_create_twalk: the fid at 7, the new one at 11, the number of names at 15, the names behind it. */
  lemma {:induction false} TwalkBytes(fid: nat, newfid: nat, wnames: seq<Value>, dotu: bool, junk: seq<Byte>)
    requires FitsCall(Path(Twalk(fid, newfid, wnames)), dotu) && |wnames| <= Wire.MaxWelem
    requires |junk| == Build(Path(Twalk(fid, newfid, wnames)), dotu).size + 7
    ensures var p := Created(Path(Twalk(fid, newfid, wnames)), dotu, junk);
      && p.Some? && |p.value| == |junk| >= 17
      && p.value[..4] == LE(|junk|, 4) && p.value[4] == 110 && p.value[5..7] == [0xFF, 0xFF]
      && p.value[7..11] == LE(fid, 4) && p.value[11..15] == LE(newfid, 4) && p.value[15..17] == LE(|wnames|, 2)
      && p.value[17..] == NameBytes(wnames)
  {
    TwalkPacket(fid, newfid, wnames, dotu, junk);
    TwalkFits(fid, newfid, wnames, dotu);
    TwalkBody(fid, newfid, wnames);
    TagBytes(110, |junk|, EncAll([U32(fid), U32(newfid), Names(wnames)]));
    ThreeParts(Packet(110, NoTag, |junk|, EncAll([U32(fid), U32(newfid), Names(wnames)])),
               LE(fid, 4), LE(newfid, 4), LE(|wnames|, 2), NameBytes(wnames));
  }

  lemma {:induction false} TagBytes(typ: nat, size: nat, body: seq<Byte>)
    requires typ < 0x100
    ensures var pkt := Packet(typ, NoTag, size, body);
      |pkt| == 7 + |body| && pkt[..4] == LE(size, 4) && pkt[4] == typ && pkt[5..7] == [0xFF, 0xFF] && pkt[7..] == body
  {
    HeaderBytes(typ, NoTag, size, body);
    LEBytes(NoTag);
  }

  lemma TwalkPacket(fid: nat, newfid: nat, wnames: seq<Value>, dotu: bool, junk: seq<Byte>)
    requires FitsCall(Path(Twalk(fid, newfid, wnames)), dotu) && |wnames| <= Wire.MaxWelem
    requires |junk| == Build(Path(Twalk(fid, newfid, wnames)), dotu).size + 7
    ensures Created(Path(Twalk(fid, newfid, wnames)), dotu, junk) ==
      Some(Packet(110, NoTag, |junk|, EncAll([U32(fid), U32(newfid), Names(wnames)])))
    ensures |junk| == 7 + |EncAll([U32(fid), U32(newfid), Names(wnames)])|
  {
    TwalkFits(fid, newfid, wnames, dotu);
    Agrees(Path(Twalk(fid, newfid, wnames)), dotu);
    CreatedExactly(Path(Twalk(fid, newfid, wnames)), dotu, junk);
  }

  lemma TwalkFits(fid: nat, newfid: nat, wnames: seq<Value>, dotu: bool)
    requires FitsCall(Path(Twalk(fid, newfid, wnames)), dotu)
    ensures var b := Build(Path(Twalk(fid, newfid, wnames)), dotu);
      b.typ == 110 && b.vals == [U32(fid), U32(newfid), Names(wnames)]
    ensures forall i :: 0 <= i < |wnames| ==> wnames[i].Str?
  {
    assert Fits(Build(Path(Twalk(fid, newfid, wnames)), dotu).vals[2]);
  }

  /** Each name behind its length. */
  function NameBytes(names: seq<Value>): seq<Byte> {
    if names == [] then []
    else LE(|StrOf(names[0])|, 2) + StrOf(names[0]) + NameBytes(names[1..])
  }

  function StrOf(v: Value): seq<Byte> { if v.Str? then v.s else [] }

  lemma {:induction false} NamesPut(names: seq<Value>)
    requires forall i :: 0 <= i < |names| ==> names[i].Str?
    ensures EncAll(names) == NameBytes(names)
  {
    if names != [] {
      EncAllCons(names);
      FlatOne(LE(|names[0].s|, 2) + names[0].s);
      NamesPut(names[1..]);
    }
  }

  lemma {:induction false} TwalkBody(fid: nat, newfid: nat, wnames: seq<Value>)
    requires forall i :: 0 <= i < |wnames| ==> wnames[i].Str?
    ensures EncAll([U32(fid), U32(newfid), Names(wnames)]) ==
      LE(fid, 4) + (LE(newfid, 4) + (LE(|wnames|, 2) + NameBytes(wnames)))
  {
    var v := [U32(fid), U32(newfid), Names(wnames)];
    EncAllCons(v);
    EncAllCons(v[1..]);
    EncAllCons(v[1..][1..]);
    assert v[1..] == [U32(newfid), Names(wnames)] && v[1..][1..] == [Names(wnames)] && v[1..][1..][1..] == [];
    FlatOne(LE(fid, 4));
    FlatOne(LE(newfid, 4));
    var names := Chunks(Names(wnames));
    assert names[0] == LE(|wnames|, 2) && names[1..] == AllChunks(wnames);
    NamesPut(wnames);
    assert Enc(Names(wnames)) + [] == LE(|wnames|, 2) + NameBytes(wnames);
  }

  lemma ThreeParts(pkt: seq<Byte>, a: seq<Byte>, b: seq<Byte>, c: seq<Byte>, rest: seq<Byte>)
    requires |pkt| >= 7 && pkt[7..] == a + (b + (c + rest)) && |a| == |b| == 4 && |c| == 2
    ensures |pkt| >= 17 && pkt[7..11] == a && pkt[11..15] == b && pkt[15..17] == c && pkt[17..] == rest
  {
    var body := a + (b + (c + rest));
    assert body[..4] == a && body[4..8] == b && body[8..10] == c && body[10..] == rest;
    assert pkt[7..11] == body[..4] && pkt[11..15] == body[4..8] && pkt[15..17] == body[8..10];
    assert pkt[17..] == body[10..];
  }

  /** Two of the messages np_deserialize does not read back, by their bytes. */
  lemma {:induction false} TlerrorBytes(ecode: nat, dotu: bool, junk: seq<Byte>)
    requires FitsCall(Create(Tlerror(ecode)), dotu) && |junk| == 11
    ensures Created(Create(Tlerror(ecode)), dotu, junk) == Some(Packet(6, NoTag, 11, LE(ecode, 4)))
  {
    Agrees(Create(Tlerror(ecode)), dotu);
    CreatedExactly(Create(Tlerror(ecode)), dotu, junk);
    FlatOne(LE(ecode, 4));
    assert [U32(ecode)][1..] == [] && AllChunks([U32(ecode)]) == [LE(ecode, 4)];
  }

  lemma RgetlockBytes(m: LockCall, dotu: bool, junk: seq<Byte>)
    requires m.Rgetlock? && FitsCall(Lock(m), dotu) && |junk| == 30 + |m.clientid|
    ensures Created(Lock(m), dotu, junk) ==
      Some(Packet(55, NoTag, |junk|, Flat([LE(m.locktype, 1), LE(m.offset, 8), LE(m.length, 8), LE(m.procid, 4),
                                           LE(|m.clientid|, 2) + m.clientid])))
  {
    Agrees(Lock(m), dotu);
    CreatedExactly(Lock(m), dotu, junk);
    RgetlockChunks(m);
  }

  lemma RgetlockChunks(m: LockCall)
    requires m.Rgetlock?
    ensures AllChunks([U8(m.locktype), U64(m.offset), U64(m.length), U32(m.procid), Str(m.clientid)]) ==
      [LE(m.locktype, 1), LE(m.offset, 8), LE(m.length, 8), LE(m.procid, 4), LE(|m.clientid|, 2) + m.clientid]
  {
    FourChunks(U8(m.locktype), U64(m.offset), U64(m.length), U32(m.procid));
    AllChunksConcat([U8(m.locktype), U64(m.offset), U64(m.length), U32(m.procid)], [Str(m.clientid)]);
    assert [Str(m.clientid)][1..] == [];
    assert [U8(m.locktype), U64(m.offset), U64(m.length), U32(m.procid)] + [Str(m.clientid)] ==
      [U8(m.locktype), U64(m.offset), U64(m.length), U32(m.procid), Str(m.clientid)];
  }

  /** The bytes of a stat record, piece by piece. */
  lemma {:induction false} StatBytes(w: Wstat, dotu: bool)
    ensures DirRead.Record(w, dotu) ==
      Flat([LE(SizeWstat(w, dotu) % 0x1_0000, 2), LE(w.typ, 2), LE(w.dev, 4),
            LE(w.qid.typ, 1), LE(w.qid.version, 4), LE(w.qid.path, 8)]
           + [LE(w.mode, 4), LE(w.atime, 4), LE(w.mtime, 4), LE(w.length, 8)]
           + [LE(|w.name|, 2) + w.name, LE(|w.uid|, 2) + w.uid, LE(|w.gid|, 2) + w.gid, LE(|w.muid|, 2) + w.muid]
           + if dotu then [LE(|w.extension|, 2) + w.extension, LE(w.nuid, 4), LE(w.ngid, 4), LE(w.nmuid, 4)] else [])
  {
    var size := U16(SizeWstat(w, dotu) % 0x1_0000);
    var head := [size, U16(w.typ), U32(w.dev), Qid(w.qid)];
    var times := [U32(w.mode), U32(w.atime), U32(w.mtime), U64(w.length)];
    var names := [Str(w.name), Str(w.uid), Str(w.gid), Str(w.muid)];
    var more := if dotu then [Str(w.extension), U32(w.nuid), U32(w.ngid), U32(w.nmuid)] else [];
    assert WstatValues(w, dotu) == head + times + names + more;
    AllChunksConcat(head, times);
    AllChunksConcat(head + times, names);
    AllChunksConcat(head + times + names, more);
    StatChunks(w, size);
    if dotu { ExtensionChunks(w); }
  }

  lemma StatChunks(w: Wstat, size: Value)
    requires size.U16?
    ensures AllChunks([size, U16(w.typ), U32(w.dev), Qid(w.qid)]) ==
      [LE(size.n, 2), LE(w.typ, 2), LE(w.dev, 4), LE(w.qid.typ, 1), LE(w.qid.version, 4), LE(w.qid.path, 8)]
    ensures AllChunks([U32(w.mode), U32(w.atime), U32(w.mtime), U64(w.length)]) ==
      [LE(w.mode, 4), LE(w.atime, 4), LE(w.mtime, 4), LE(w.length, 8)]
    ensures AllChunks([Str(w.name), Str(w.uid), Str(w.gid), Str(w.muid)]) ==
      [LE(|w.name|, 2) + w.name, LE(|w.uid|, 2) + w.uid, LE(|w.gid|, 2) + w.gid, LE(|w.muid|, 2) + w.muid]
  {
    FourChunks(size, U16(w.typ), U32(w.dev), Qid(w.qid));
    FourChunks(U32(w.mode), U32(w.atime), U32(w.mtime), U64(w.length));
    FourChunks(Str(w.name), Str(w.uid), Str(w.gid), Str(w.muid));
  }

  lemma ExtensionChunks(w: Wstat)
    ensures AllChunks([Str(w.extension), U32(w.nuid), U32(w.ngid), U32(w.nmuid)]) ==
      [LE(|w.extension|, 2) + w.extension, LE(w.nuid, 4), LE(w.ngid, 4), LE(w.nmuid, 4)]
  {
    FourChunks(Str(w.extension), U32(w.nuid), U32(w.ngid), U32(w.nmuid));
  }

  /** np_deserialize_stat finds the fields of a record under their own names. */
  lemma StatReadsBack(w: Wstat, tail: seq<Byte>, dotu: bool)
    requires FitsWstat(w, dotu)
    ensures var r := Deserialized(DirRead.Record(w, dotu) + tail, dotu);
      && r.Some? && StatFrom(r.value.0, 0, dotu) == SentStat(w, dotu)
      && N(r.value.0, 0) == SizeWstat(w, dotu) % 0x1_0000 && r.value.1 == |DirRead.Record(w, dotu)|
  {
    RecordReadsBack(w, tail, dotu);
    StatArguments([], w, dotu);
    assert [] + WstatValues(w, dotu) == WstatValues(w, dotu);
  }
}
