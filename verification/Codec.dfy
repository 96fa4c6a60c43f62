/** The 9P messages of libnpfs/np.c: what each np_create_* constructor puts on the wire, and what
    np_deserialize makes of it. */
module Codec {
  import opened Bytes
  import opened Cbuf
  import opened Wire

  const NoTag := 0xFFFF

  /** From this size on, what is left behind the size field is a negative C int. */
  const WildSize := 0x8000_0004

  datatype Wstat = Wstat(typ: nat, dev: nat, qid: QidVal, mode: nat, atime: nat, mtime: nat, length: nat,
                         name: seq<Byte>, uid: seq<Byte>, gid: seq<Byte>, muid: seq<Byte>,
                         extension: seq<Byte>, nuid: nat, ngid: nat, nmuid: nat)

  datatype Attrs = Attrs(mode: nat, uid: nat, gid: nat, nlink: nat, rdev: nat, size: nat, blksize: nat, blocks: nat,
                         atimeSec: nat, atimeNsec: nat, mtimeSec: nat, mtimeNsec: nat,
                         ctimeSec: nat, ctimeNsec: nat, btimeSec: nat, btimeNsec: nat, gen: nat, dataVersion: nat)

  /** A call of one of the constructors, with its arguments; a NULL string is an empty one. */
  datatype Call =
    | Session(s: SessionCall)
    | Path(p: PathCall)
    | Io(i: IoCall)
    | Record(r: RecordCall)
    | Create(c: CreateCall)
    | Attr(a: AttrCall)
    | Lock(l: LockCall)
    | Tree(t: TreeCall)

  datatype SessionCall =
    | Tversion(msize: nat, version: seq<Byte>)
    | Rversion(msize: nat, version: seq<Byte>)
    | Tauth(afid: nat, uname: seq<Byte>, aname: seq<Byte>, nuname: nat)
    | Rauth(qid: QidVal)
    | Tattach(fid: nat, afid: nat, uname: seq<Byte>, aname: seq<Byte>, nuname: nat)
    | Rattach(qid: QidVal)
    | Rerror(ename: seq<Byte>, ecode: nat)
    | Tflush(oldtag: nat)
    | Rflush

  datatype PathCall =
    | Twalk(fid: nat, newfid: nat, wnames: seq<Value>)
    | Rwalk(wqids: seq<QidVal>)
    | Topen(fid: nat, mode: nat)
    | Ropen(qid: QidVal, iounit: nat)
    | Tcreate(fid: nat, name: seq<Byte>, perm: nat, mode: nat)
    | Rcreate(qid: QidVal, iounit: nat)

  datatype IoCall =
    | Tread(fid: nat, offset: nat, count: nat)
    | Rread(data: seq<Byte>)
    | Twrite(fid: nat, offset: nat, data: seq<Byte>)
    | Rwrite(count: nat)
    | Tclunk(fid: nat)
    | Rclunk
    | Tremove(fid: nat)
    | Rremove
    | Tstat(fid: nat)

  datatype RecordCall =
    | Rstat(wstat: Wstat)
    | Twstat(fid: nat, wstat: Wstat)
    | Rwstat

  datatype CreateCall =
    | Tlerror(ecode: nat)
    | Rlerror(ecode: nat)
    | Tstatfs(fid: nat)
    | Rstatfs(typ: nat, bsize: nat, blocks: nat, bfree: nat, bavail: nat,
              files: nat, ffree: nat, fsid: nat, namelen: nat)
    | Tlopen(fid: nat, flags: nat)
    | Rlopen(qid: QidVal, iounit: nat)
    | Tlcreate(fid: nat, name: seq<Byte>, flags: nat, mode: nat, gid: nat)
    | Rlcreate(qid: QidVal, iounit: nat)
    | Tsymlink(dfid: nat, name: seq<Byte>, symtgt: seq<Byte>, gid: nat)
    | Rsymlink(qid: QidVal)
    | Tmknod(dfid: nat, name: seq<Byte>, mode: nat, major: nat, minor: nat, gid: nat)
    | Rmknod(qid: QidVal)

  datatype AttrCall =
    | Trename(fid: nat, dfid: nat, name: seq<Byte>)
    | Rrename
    | Treadlink(fid: nat)
    | Rreadlink(target: seq<Byte>)
    | Tgetattr(fid: nat, mask: nat)
    | Rgetattr(mask: nat, qid: QidVal, attrs: Attrs)
    | Tsetattr(fid: nat, mask: nat, attrs: Attrs)
    | Rsetattr
    | Txattrwalk(fid: nat, newfid: nat, name: seq<Byte>)
    | Rxattrwalk(asize: nat)
    | Txattrcreate(fid: nat, name: seq<Byte>, asize: nat, flags: nat)
    | Rxattrcreate

  datatype LockCall =
    | Treaddir(fid: nat, offset: nat, count: nat)
    | Rreaddir(data: seq<Byte>)
    | Tfsync(fid: nat)
    | Rfsync
    | Tlock(fid: nat, locktype: nat, flags: nat, offset: nat, length: nat, procid: nat, clientid: seq<Byte>)
    | Rlock(status: nat)
    | Tgetlock(fid: nat, locktype: nat, offset: nat, length: nat, procid: nat, clientid: seq<Byte>)
    | Rgetlock(locktype: nat, offset: nat, length: nat, procid: nat, clientid: seq<Byte>)

  datatype TreeCall =
    | Tlink(dfid: nat, fid: nat, name: seq<Byte>)
    | Rlink
    | Tmkdir(dfid: nat, name: seq<Byte>, mode: nat, gid: nat)
    | Rmkdir(qid: QidVal)
    | Trenameat(odfid: nat, oname: seq<Byte>, ndfid: nat, nname: seq<Byte>)
    | Rrenameat
    | Tunlinkat(dfid: nat, name: seq<Byte>, flags: nat)
    | Runlinkat


  function SizeWstat(w: Wstat, dotu: bool): nat {
    2 + 4 + 13 + 4 + 4 + 4 + 8 + 8 + |w.name| + |w.uid| + |w.gid| + |w.muid|
    + if dotu then 4 + 4 + 4 + 2 + |w.extension| else 0
  }

  /** buf_put_wstat: what stands behind the record's own size field. */
  function WstatBody(w: Wstat, dotu: bool): seq<Value> {
    [U16(w.typ), U32(w.dev), Qid(w.qid), U32(w.mode), U32(w.atime), U32(w.mtime), U64(w.length)]
    + [Str(w.name), Str(w.uid), Str(w.gid), Str(w.muid)]
    + if dotu then [Str(w.extension), U32(w.nuid), U32(w.ngid), U32(w.nmuid)] else []
  }

  function WstatValues(w: Wstat, dotu: bool): seq<Value> {
    [U16(SizeWstat(w, dotu) % 0x1_0000)] + WstatBody(w, dotu)
  }

  function StatLayout(dotu: bool): seq<Field> {
    [F16, F16, F32, FQid, F32, F32, F32, F64] + [FStr, FStr, FStr, FStr] + if dotu then [FStr, F32, F32, F32] else []
  }

  function AttrValues(a: Attrs): seq<Value> {
    [U32(a.mode), U32(a.uid), U32(a.gid), U64(a.nlink), U64(a.rdev), U64(a.size), U64(a.blksize), U64(a.blocks)]
    + [U64(a.atimeSec), U64(a.atimeNsec), U64(a.mtimeSec), U64(a.mtimeNsec),
       U64(a.ctimeSec), U64(a.ctimeNsec), U64(a.btimeSec), U64(a.btimeNsec)]
    + [U64(a.gen), U64(a.dataVersion)]
  }

  function AttrLayout(): seq<Field> {
    [F32, F32, F32, F64, F64, F64, F64, F64] + [F64, F64, F64, F64, F64, F64, F64, F64] + [F64, F64]
  }

  function TotalLen(names: seq<Value>): nat {
    if names == [] then 0 else (if names[0].Str? then |names[0].s| else 0) + TotalLen(names[1..])
  }

  /** A constructor's work: the message type, the body size it computes and the values it puts. */
  datatype Built = Built(typ: nat, size: nat, vals: seq<Value>)

  function BuildSession(m: SessionCall, dotu: bool): Built {
    match m
    case Tversion(msize, version) => Built(100, 4 + 2 + |version|, [U32(msize), Str(version)])
    case Rversion(msize, version) => Built(101, 4 + 2 + |version|, [U32(msize), Str(version)])
    case Tauth(afid, uname, aname, nuname) =>
      Built(102, 4 + 2 + 2 + |uname| + |aname|,
            [U32(afid), Str(uname), Str(aname)] + (if dotu then [U32(nuname)] else []))
    case Rauth(qid) => Built(103, 13, [Qid(qid)])
    case Tattach(fid, afid, uname, aname, nuname) =>
      Built(104, 4 + 4 + 2 + 2 + |uname| + |aname| + (if dotu then 4 else 0),
            [U32(fid), U32(afid), Str(uname), Str(aname)] + (if dotu then [U32(nuname)] else []))
    case Rattach(qid) => Built(105, 13, [Qid(qid)])
    case Rerror(ename, ecode) =>
      Built(107, 2 + |ename| + (if dotu then 4 else 0), [Str(ename)] + (if dotu then [U32(ecode)] else []))
    case Tflush(oldtag) => Built(108, 2, [U16(oldtag)])
    case Rflush => Built(109, 0, [])
  }

  function BuildPath(m: PathCall, dotu: bool): Built {
    match m
    case Twalk(fid, newfid, wnames) =>
      Built(110, 4 + 4 + 2 + |wnames| * 2 + TotalLen(wnames), [U32(fid), U32(newfid), Names(wnames)])
    case Rwalk(wqids) => Built(111, 2 + |wqids| * 13, [Qids(wqids)])
    case Topen(fid, mode) => Built(112, 4 + 1, [U32(fid), U8(mode)])
    case Ropen(qid, iounit) => Built(113, 13 + 4, [Qid(qid), U32(iounit)])
    case Tcreate(fid, name, perm, mode) =>
      Built(114, 4 + 2 + |name| + 4 + 1, [U32(fid), Str(name), U32(perm), U8(mode)])
    case Rcreate(qid, iounit) => Built(115, 13 + 4, [Qid(qid), U32(iounit)])
  }

  function BuildIo(m: IoCall, dotu: bool): Built {
    match m
    case Tread(fid, offset, count) => Built(116, 4 + 8 + 4, [U32(fid), U64(offset), U32(count)])
    case Rread(data) => Built(117, 4 + |data|, [Data(data)])
    case Twrite(fid, offset, data) => Built(118, 4 + 8 + 4 + |data|, [U32(fid), U64(offset), Data(data)])
    case Rwrite(count) => Built(119, 4, [U32(count)])
    case Tclunk(fid) => Built(120, 4, [U32(fid)])
    case Rclunk => Built(121, 0, [])
    case Tremove(fid) => Built(122, 4, [U32(fid)])
    case Rremove => Built(123, 0, [])
    case Tstat(fid) => Built(124, 4, [U32(fid)])
  }

  function BuildRecord(m: RecordCall, dotu: bool): Built {
    match m
    case Rstat(wstat) =>
      Built(125, 2 + 2 + SizeWstat(wstat, dotu),
            [U16((SizeWstat(wstat, dotu) + 2) % 0x1_0000)] + WstatValues(wstat, dotu))
    case Twstat(fid, wstat) =>
      Built(126, 4 + 2 + 2 + SizeWstat(wstat, dotu),
            [U32(fid), U16((SizeWstat(wstat, dotu) + 2) % 0x1_0000)] + WstatValues(wstat, dotu))
    case Rwstat => Built(127, 0, [])
  }

  function BuildCreate(m: CreateCall, dotu: bool): Built {
    match m
    case Tlerror(ecode) => Built(6, 4, [U32(ecode)])
    case Rlerror(ecode) => Built(7, 4, [U32(ecode)])
    case Tstatfs(fid) => Built(8, 4, [U32(fid)])
    case Rstatfs(typ, bsize, blocks, bfree, bavail, files, ffree, fsid, namelen) =>
      Built(9, 4 + 8 + 8 + 8 + 8 + 8 + 8 + 8 + 4,
            [U32(typ), U32(bsize), U64(blocks), U64(bfree), U64(bavail),
             U64(files), U64(ffree), U64(fsid), U32(namelen)])
    case Tlopen(fid, flags) => Built(12, 4 + 4, [U32(fid), U32(flags)])
    case Rlopen(qid, iounit) => Built(13, 13 + 4, [Qid(qid), U32(iounit)])
    case Tlcreate(fid, name, flags, mode, gid) =>
      Built(14, 4 + 2 + |name| + 4 + 4 + 4, [U32(fid), Str(name), U32(flags), U32(mode), U32(gid)])
    case Rlcreate(qid, iounit) => Built(15, 13 + 4, [Qid(qid), U32(iounit)])
    case Tsymlink(dfid, name, symtgt, gid) =>
      Built(16, 4 + 2 + |name| + 2 + |symtgt| + 4, [U32(dfid), Str(name), Str(symtgt), U32(gid)])
    case Rsymlink(qid) => Built(17, 13, [Qid(qid)])
    case Tmknod(dfid, name, mode, major, minor, gid) =>
      Built(18, 4 + 2 + |name| + 4 + 4 + 4 + 4, [U32(dfid), Str(name), U32(mode), U32(major), U32(minor), U32(gid)])
    case Rmknod(qid) => Built(19, 13, [Qid(qid)])
  }

  function BuildAttr(m: AttrCall, dotu: bool): Built {
    match m
    case Trename(fid, dfid, name) => Built(20, 4 + 4 + 2 + |name|, [U32(fid), U32(dfid), Str(name)])
    case Rrename => Built(21, 0, [])
    case Treadlink(fid) => Built(22, 4, [U32(fid)])
    case Rreadlink(target) => Built(23, 2 + |target|, [Str(target)])
    case Tgetattr(fid, mask) => Built(24, 4 + 8, [U32(fid), U64(mask)])
    case Rgetattr(mask, qid, attrs) =>
      Built(25, 8 + 13 + 4 + 4 + 4 + 8 + 8 + 8 + 8 + 8 + 8 + 8 + 8 + 8 + 8 + 8 + 8 + 8 + 8 + 8,
            [U64(mask), Qid(qid)] + AttrValues(attrs))
    case Tsetattr(fid, mask, attrs) =>
      Built(26, 4 + 4 + 4 + 4 + 8 + 8 + 8 + 8,
            [U32(fid), U32(mask), U32(attrs.mode), U32(attrs.uid), U32(attrs.gid),
             U64(attrs.size), U64(attrs.atimeSec), U64(attrs.atimeNsec), U64(attrs.mtimeSec), U64(attrs.mtimeNsec)])
    case Rsetattr => Built(27, 0, [])
    case Txattrwalk(fid, newfid, name) => Built(30, 4 + 4 + 2 + |name|, [U32(fid), U32(newfid), Str(name)])
    case Rxattrwalk(asize) => Built(31, 8, [U64(asize)])
    case Txattrcreate(fid, name, asize, flags) =>
      Built(32, 4 + 2 + |name| + 8 + 4, [U32(fid), Str(name), U64(asize), U32(flags)])
    case Rxattrcreate => Built(33, 0, [])
  }

  function BuildLock(m: LockCall, dotu: bool): Built {
    match m
    case Treaddir(fid, offset, count) => Built(40, 4 + 8 + 4, [U32(fid), U64(offset), U32(count)])
    case Rreaddir(data) => Built(41, 4 + |data|, [Data(data)])
    case Tfsync(fid) => Built(50, 4, [U32(fid)])
    case Rfsync => Built(51, 0, [])
    case Tlock(fid, locktype, flags, offset, length, procid, clientid) =>
      Built(52, 4 + 1 + 4 + 8 + 8 + 4 + 2 + |clientid|,
            [U32(fid), U8(locktype), U32(flags), U64(offset), U64(length), U32(procid), Str(clientid)])
    case Rlock(status) => Built(53, 1, [U8(status)])
    case Tgetlock(fid, locktype, offset, length, procid, clientid) =>
      Built(54, 4 + 1 + 8 + 8 + 4 + 2 + |clientid|,
            [U32(fid), U8(locktype), U64(offset), U64(length), U32(procid), Str(clientid)])
    case Rgetlock(locktype, offset, length, procid, clientid) =>
      Built(55, 1 + 8 + 8 + 4 + 2 + |clientid|, [U8(locktype), U64(offset), U64(length), U32(procid), Str(clientid)])
  }

  function BuildTree(m: TreeCall, dotu: bool): Built {
    match m
    case Tlink(dfid, fid, name) => Built(70, 4 + 4 + 2 + |name|, [U32(dfid), U32(fid), Str(name)])
    case Rlink => Built(71, 0, [])
    case Tmkdir(dfid, name, mode, gid) =>
      Built(72, 4 + 2 + |name| + 4 + 4, [U32(dfid), Str(name), U32(mode), U32(gid)])
    case Rmkdir(qid) => Built(73, 13, [Qid(qid)])
    case Trenameat(odfid, oname, ndfid, nname) =>
      Built(74, 4 + 2 + |oname| + 4 + 2 + |nname|, [U32(odfid), Str(oname), U32(ndfid), Str(nname)])
    case Rrenameat => Built(75, 0, [])
    case Tunlinkat(dfid, name, flags) => Built(76, 4 + 2 + |name| + 4, [U32(dfid), Str(name), U32(flags)])
    case Runlinkat => Built(77, 0, [])
  }

  function Build(m: Call, dotu: bool): Built {
    match m
    case Session(s) => BuildSession(s, dotu)
    case Path(p) => BuildPath(p, dotu)
    case Io(i) => BuildIo(i, dotu)
    case Record(r) => BuildRecord(r, dotu)
    case Create(c) => BuildCreate(c, dotu)
    case Attr(a) => BuildAttr(a, dotu)
    case Lock(l) => BuildLock(l, dotu)
    case Tree(t) => BuildTree(t, dotu)
  }

  function LayoutSession(typ: nat, dotu: bool): Option<seq<Field>> {
    match typ
    case 100 => Some([F32, FStr])
    case 101 => Some([F32, FStr])
    case 102 => Some([F32, FStr, FStr] + (if dotu then [F32] else []))
    case 103 => Some([FQid])
    case 104 => Some([F32, F32, FStr, FStr] + (if dotu then [F32] else []))
    case 105 => Some([FQid])
    case 107 => Some([FStr] + (if dotu then [F32] else []))
    case 108 => Some([F16])
    case 109 => Some([])
    case _ => None
  }

  function LayoutPath(typ: nat, dotu: bool): Option<seq<Field>> {
    match typ
    case 110 => Some([F32, F32, FNames])
    case 111 => Some([FQids])
    case 112 => Some([F32, F8])
    case 113 => Some([FQid, F32])
    case 114 => Some([F32, FStr, F32, F8] + (if dotu then [FStr] else []))
    case 115 => Some([FQid, F32])
    case _ => None
  }

  function LayoutIo(typ: nat, dotu: bool): Option<seq<Field>> {
    match typ
    case 116 => Some([F32, F64, F32])
    case 117 => Some([FData])
    case 118 => Some([F32, F64, FData])
    case 119 => Some([F32])
    case 120 => Some([F32])
    case 121 => Some([])
    case 122 => Some([F32])
    case 123 => Some([])
    case 124 => Some([F32])
    case _ => None
  }

  function LayoutRecord(typ: nat, dotu: bool): Option<seq<Field>> {
    match typ
    case 125 => Some([F16] + StatLayout(dotu))
    case 126 => Some([F32, F16] + StatLayout(dotu))
    case 127 => Some([])
    case _ => None
  }

  function LayoutCreate(typ: nat, dotu: bool): Option<seq<Field>> {
    match typ
    case 7 => Some([F32])
    case 8 => Some([F32])
    case 9 => Some([F32, F32, F64, F64, F64, F64, F64, F64, F32])
    case 12 => Some([F32, F32])
    case 13 => Some([FQid, F32])
    case 14 => Some([F32, FStr, F32, F32, F32])
    case 15 => Some([FQid, F32])
    case 16 => Some([F32, FStr, FStr, F32])
    case 17 => Some([FQid])
    case 18 => Some([F32, FStr, F32, F32, F32, F32])
    case 19 => Some([FQid])
    case _ => None
  }

  function LayoutAttr(typ: nat, dotu: bool): Option<seq<Field>> {
    match typ
    case 20 => Some([F32, F32, FStr])
    case 21 => Some([])
    case 22 => Some([F32])
    case 23 => Some([FStr])
    case 24 => Some([F32, F64])
    case 25 => Some([F64, FQid] + AttrLayout())
    case 26 => Some([F32, F32, F32, F32, F32, F64, F64, F64, F64, F64])
    case 27 => Some([])
    case 30 => Some([F32, F32, FStr])
    case 31 => Some([F64])
    case 32 => Some([F32, FStr, F64, F32])
    case 33 => Some([])
    case _ => None
  }

  function LayoutLock(typ: nat, dotu: bool): Option<seq<Field>> {
    match typ
    case 40 => Some([F32, F64, F32])
    case 41 => Some([FData])
    case 50 => Some([F32])
    case 51 => Some([])
    case 52 => Some([F32, F8, F32, F64, F64, F32, FStr])
    case 53 => Some([F8])
    case 54 => Some([F32, F8, F64, F64, F32, FStr])
    case 55 => Some([F32, F8, F64, F64, F32, FStr])
    case _ => None
  }

  function LayoutTree(typ: nat, dotu: bool): Option<seq<Field>> {
    match typ
    case 70 => Some([F32, F32, FStr])
    case 71 => Some([])
    case 72 => Some([F32, FStr, F32, F32])
    case 73 => Some([FQid])
    case 74 => Some([F32, FStr, F32, FStr])
    case 75 => Some([])
    case 76 => Some([F32, FStr, F32])
    case 77 => Some([])
    case _ => None
  }

  /** The cases of np_deserialize, by message type. */
  function Layout(typ: nat, dotu: bool): Option<seq<Field>> {
    if typ < 20 then LayoutCreate(typ, dotu)
    else if typ < 34 then LayoutAttr(typ, dotu)
    else if typ < 56 then LayoutLock(typ, dotu)
    else if typ < 78 then LayoutTree(typ, dotu)
    else if typ < 110 then LayoutSession(typ, dotu)
    else if typ < 116 then LayoutPath(typ, dotu)
    else if typ < 125 then LayoutIo(typ, dotu)
    else if typ < 128 then LayoutRecord(typ, dotu)
    else None
  }

  /** The constructors of Twalk and Rwalk refuse more than MAXWELEM elements. */
  predicate Refused(m: Call) {
    match m
    case Path(Twalk(_, _, wnames)) => |wnames| > MaxWelem
    case Path(Rwalk(wqids)) => |wqids| > MaxWelem
    case _ => false
  }

  ghost predicate FitsCall(m: Call, dotu: bool) {
    && (forall i :: 0 <= i < |Build(m, dotu).vals| ==> Fits(Build(m, dotu).vals[i]))
    && Build(m, dotu).size + 7 < 0x8000_0000
  }

  function Header(size: nat, typ: nat, tag: nat): seq<seq<Byte>> { [LE(size, 4), LE(typ, 1), LE(tag, 2)] }

  /** What the constructor's cursor has written at the end. */
  function FilledBy(b: Built): (w: Writer)
    ensures |w.out| <= w.cap == b.size + 7
  {
    PutAll(PutAll(Writer([], b.size + 7, false), Header(b.size + 7, b.typ, NoTag)), AllChunks(b.vals))
  }

  function Filled(m: Call, dotu: bool): (w: Writer) { FilledBy(Build(m, dotu)) }

  /** The packet the constructor returns in memory that held junk, or None for NULL. */
  function Created(m: Call, dotu: bool, junk: seq<Byte>): Option<seq<Byte>>
    requires |junk| == Build(m, dotu).size + 7
  {
    var w := Filled(m, dotu);
    if Refused(m) || w.over then None else Some(w.out + junk[|w.out|..])
  }

  datatype Fcall = Fcall(size: nat, typ: nat, tag: nat, vals: seq<Value>)

  /** A message the parser accepts, and where its cursor stops. */
  datatype Parsed = Parsed(call: Fcall, rest: Reader)

  /** np_deserialize on a buffer that holds at least the message's size bytes. A size below 4, or one of WildSize or
      more, leaves the cursor with less than nothing, and the type reads as 0. */
  function Parse(pkt: seq<Byte>, dotu: bool): Option<Parsed>
    requires |pkt| >= 4 && UnLE(pkt[..4]) <= |pkt|
  {
    var size := UnLE(pkt[..4]);
    if size < 4 || size >= WildSize then None
    else
      var c := Reader(pkt[4..size], 0, false);
      var typ, c1 := Int(c, 1), Skip(c, 1);
      var tag, c2 := Int(c1, 2), Skip(c1, 2);
      ParseFields(size, typ, tag, Layout(typ, dotu), c2)
  }

  function ParseFields(size: nat, typ: nat, tag: nat, layout: Option<seq<Field>>, c: Reader): Option<Parsed> {
    match layout
    case None => None
    case Some(fields) =>
      var g := GetAll(c, fields);
      if g.value.None? || g.c.over then None else Some(Parsed(Fcall(size, typ, tag, g.value.value), g.c))
  }

  // ---- sizes

  function Len(v: Value): nat {
    match v
    case U8(_) => 1 case U16(_) => 2 case U32(_) => 4 case U64(_) => 8
    case Str(s) => 2 + |s|
    case Qid(_) => 13
    case Data(d) => 4 + |d|
    case Names(names) => 2 + 2 * |names| + TotalLen(names)
    case Qids(qids) => 2 + 13 * |qids|
    case Null(_) => 0 case NullData(_) => 0 case Wild(_) => 0
  }

  function LenAll(vals: seq<Value>): nat { if vals == [] then 0 else Len(vals[0]) + LenAll(vals[1..]) }

  lemma {:induction false} LenAllConcat(a: seq<Value>, b: seq<Value>)
    ensures LenAll(a + b) == LenAll(a) + LenAll(b)
  {
    if a == [] {
      assert a + b == b;
    } else {
      assert (a + b)[1..] == a[1..] + b;
      LenAllConcat(a[1..], b);
    }
  }

  function LenAt(vals: seq<Value>, i: nat): nat { if i < |vals| then Len(vals[i]) else 0 }

  lemma {:induction false} LenFrom(vals: seq<Value>, i: nat)
    requires i <= |vals|
    ensures LenAll(vals[i..]) == if i == |vals| then 0 else LenAt(vals, i) + LenAll(vals[i + 1..])
  {
    if i < |vals| { assert vals[i..][1..] == vals[i + 1..]; }
  }

  /** The bytes of up to 8 values. */
  function Sum8(vals: seq<Value>): nat {
    LenAt(vals, 0) + LenAt(vals, 1) + LenAt(vals, 2) + LenAt(vals, 3)
    + LenAt(vals, 4) + LenAt(vals, 5) + LenAt(vals, 6) + LenAt(vals, 7)
  }

  lemma {:induction false} LenUpTo8(vals: seq<Value>)
    requires |vals| <= 8
    ensures LenAll(vals) == Sum8(vals)
  {
    assert vals[0..] == vals;
    forall i | 0 <= i <= |vals| { LenFrom(vals, i); }
  }

  lemma {:induction false} EncLength(v: Value)
    requires Fits(v)
    ensures |Enc(v)| == Len(v)
  {
    match v
    case U8(n) => FlatOne(LE(n, 1));
    case U16(n) => FlatOne(LE(n, 2));
    case U32(n) => FlatOne(LE(n, 4));
    case U64(n) => FlatOne(LE(n, 8));
    case Str(s) => FlatOne(LE(|s|, 2) + s);
    case Qid(q) => QidLength(q);
    case Data(d) => FlatOne(d); assert Chunks(v)[1..] == [d];
    case Names(names) => assert Chunks(v)[1..] == AllChunks(names); NamesLength(names);
    case Qids(qids) => assert Chunks(v)[1..] == AllQidChunks(qids); QidsLength(qids);
  }

  lemma QidLength(q: QidVal)
    ensures |Flat(QidChunks(q))| == 13
  {
    var b, d := LE(q.version, 4), LE(q.path, 8);
    FlatOne(d);
    assert QidChunks(q)[1..] == [b, d] && [b, d][1..] == [d];
  }

  lemma {:induction false} NamesLength(names: seq<Value>)
    requires forall i :: 0 <= i < |names| ==> names[i].Str?
    ensures |EncAll(names)| == 2 * |names| + TotalLen(names)
  {
    if names != [] {
      EncAllCons(names);
      FlatOne(LE(|names[0].s|, 2) + names[0].s);
      NamesLength(names[1..]);
    }
  }

  lemma {:induction false} QidsLength(qids: seq<QidVal>)
    ensures |Flat(AllQidChunks(qids))| == 13 * |qids|
  {
    if qids != [] {
      EncQidsCons(qids);
      QidLength(qids[0]);
      QidsLength(qids[1..]);
    }
  }

  lemma {:induction false} EncAllLength(vals: seq<Value>)
    requires forall i :: 0 <= i < |vals| ==> Fits(vals[i])
    ensures |EncAll(vals)| == LenAll(vals)
  {
    if vals != [] {
      EncAllCons(vals);
      EncLength(vals[0]);
      EncAllLength(vals[1..]);
    }
  }

  lemma WstatLength(w: Wstat, dotu: bool)
    ensures LenAll(WstatBody(w, dotu)) == SizeWstat(w, dotu)
    ensures LenAll(WstatValues(w, dotu)) == 2 + SizeWstat(w, dotu)
  {
    var a := [U16(w.typ), U32(w.dev), Qid(w.qid), U32(w.mode), U32(w.atime), U32(w.mtime), U64(w.length)];
    var b := [Str(w.name), Str(w.uid), Str(w.gid), Str(w.muid)];
    var c := if dotu then [Str(w.extension), U32(w.nuid), U32(w.ngid), U32(w.nmuid)] else [];
    LenUpTo8(a);
    LenUpTo8(b);
    LenUpTo8(c);
    LenAllConcat(a, b);
    LenAllConcat(a + b, c);
    assert WstatValues(w, dotu)[1..] == WstatBody(w, dotu);
  }

  lemma AttrLength(a: Attrs)
    ensures LenAll(AttrValues(a)) == 132
  {
    var x := [U32(a.mode), U32(a.uid), U32(a.gid), U64(a.nlink), U64(a.rdev),
              U64(a.size), U64(a.blksize), U64(a.blocks)];
    var y := [U64(a.atimeSec), U64(a.atimeNsec), U64(a.mtimeSec), U64(a.mtimeNsec),
              U64(a.ctimeSec), U64(a.ctimeNsec), U64(a.btimeSec), U64(a.btimeNsec)];
    var z := [U64(a.gen), U64(a.dataVersion)];
    LenUpTo8(x);
    LenUpTo8(y);
    LenUpTo8(z);
    LenAllConcat(x, y);
    LenAllConcat(x + y, z);
  }

  // ---- each constructor against the parser

  /** The constructors whose size is not that of what they put. */
  predicate Missized(m: Call, dotu: bool) {
    (m.Attr? && m.a.Tsetattr?) || (m.Create? && m.c.Rstatfs?) || (m.Session? && m.s.Tauth? && dotu)
  }

  /** The messages np_deserialize does not read the way they were put: it has no case for Tlerror, it expects
      a fid at the start of Rgetlock, and under 9P2000.u an extension string at the end of Tcreate. */
  predicate ReadDifferently(m: Call, dotu: bool) {
    (m.Create? && m.c.Tlerror?) || (m.Lock? && m.l.Rgetlock?) || ExtendedCreate(m, dotu)
  }

  predicate ExtendedCreate(m: Call, dotu: bool) { m.Path? && m.p.Tcreate? && dotu }

  ghost predicate SizeAgrees(b: Built) { LenAll(b.vals) == b.size }

  ghost predicate LayoutAgrees(b: Built, dotu: bool) { Layout(b.typ, dotu) == Some(FieldsOf(b.vals)) }

  /** The same for messages of up to 8 values, without recursion. */
  ghost predicate SmallAgrees(m: Call, b: Built, layout: Option<seq<Field>>, dotu: bool) {
    && (!Missized(m, dotu) ==> |b.vals| <= 8 && Sum8(b.vals) == b.size)
    && (!ReadDifferently(m, dotu) ==> Matches(layout, b.vals))
  }

  ghost predicate Matches(fields: Option<seq<Field>>, vals: seq<Value>) {
    fields.Some? && |fields.value| == |vals| && forall i :: 0 <= i < |vals| ==> fields.value[i] == FieldOf(vals[i])
  }

  lemma MatchesMeans(fields: Option<seq<Field>>, vals: seq<Value>)
    requires Matches(fields, vals)
    ensures fields == Some(FieldsOf(vals))
  {
    assert fields.value == FieldsOf(vals);
  }

  lemma SessionAgrees(m: SessionCall, dotu: bool)
    ensures SmallAgrees(Session(m), BuildSession(m, dotu), LayoutSession(BuildSession(m, dotu).typ, dotu), dotu)
    ensures 100 <= BuildSession(m, dotu).typ < 110
  {
  }

  lemma PathAgrees(m: PathCall, dotu: bool)
    ensures SmallAgrees(Path(m), BuildPath(m, dotu), LayoutPath(BuildPath(m, dotu).typ, dotu), dotu)
    ensures 110 <= BuildPath(m, dotu).typ < 116
  {
  }

  lemma IoAgrees(m: IoCall, dotu: bool)
    ensures SmallAgrees(Io(m), BuildIo(m, dotu), LayoutIo(BuildIo(m, dotu).typ, dotu), dotu)
    ensures 116 <= BuildIo(m, dotu).typ < 125
  {
  }

  lemma CreateAgrees(m: CreateCall, dotu: bool)
    ensures SmallAgrees(Create(m), BuildCreate(m, dotu), LayoutCreate(BuildCreate(m, dotu).typ, dotu), dotu)
    ensures 6 <= BuildCreate(m, dotu).typ < 20
  {
  }

  lemma AttrAgrees(m: AttrCall, dotu: bool)
    requires !m.Rgetattr?
    ensures SmallAgrees(Attr(m), BuildAttr(m, dotu), LayoutAttr(BuildAttr(m, dotu).typ, dotu), dotu)
    ensures 20 <= BuildAttr(m, dotu).typ < 34
  {
  }

  lemma LockAgrees(m: LockCall, dotu: bool)
    ensures SmallAgrees(Lock(m), BuildLock(m, dotu), LayoutLock(BuildLock(m, dotu).typ, dotu), dotu)
    ensures 40 <= BuildLock(m, dotu).typ < 56
  {
  }

  lemma TreeAgrees(m: TreeCall, dotu: bool)
    ensures SmallAgrees(Tree(m), BuildTree(m, dotu), LayoutTree(BuildTree(m, dotu).typ, dotu), dotu)
    ensures 70 <= BuildTree(m, dotu).typ < 78
  {
  }

  lemma FieldsOfConcat(a: seq<Value>, b: seq<Value>)
    ensures FieldsOf(a + b) == FieldsOf(a) + FieldsOf(b)
  {
  }

  lemma StatFields(w: Wstat, dotu: bool)
    ensures FieldsOf(WstatValues(w, dotu)) == StatLayout(dotu)
  {
  }

  lemma RstatAgrees(w: Wstat, dotu: bool)
    ensures var b := Build(Record(Rstat(w)), dotu); SizeAgrees(b) && LayoutAgrees(b, dotu)
  {
    var head := [U16((SizeWstat(w, dotu) + 2) % 0x1_0000)];
    WstatLength(w, dotu);
    LenAllConcat(head, WstatValues(w, dotu));
    StatFields(w, dotu);
    assert FieldsOf(head) == [F16];
    FieldsOfConcat(head, WstatValues(w, dotu));
  }

  lemma TwstatAgrees(fid: nat, w: Wstat, dotu: bool)
    ensures var b := Build(Record(Twstat(fid, w)), dotu); SizeAgrees(b) && LayoutAgrees(b, dotu)
  {
    var head := [U32(fid), U16((SizeWstat(w, dotu) + 2) % 0x1_0000)];
    WstatLength(w, dotu);
    LenUpTo8(head);
    LenAllConcat(head, WstatValues(w, dotu));
    StatFields(w, dotu);
    assert FieldsOf(head) == [F32, F16];
    FieldsOfConcat(head, WstatValues(w, dotu));
  }

  lemma RgetattrAgrees(mask: nat, qid: QidVal, a: Attrs, dotu: bool)
    ensures var b := Build(Attr(Rgetattr(mask, qid, a)), dotu); SizeAgrees(b) && LayoutAgrees(b, dotu)
  {
    var head := [U64(mask), Qid(qid)];
    AttrLength(a);
    LenUpTo8(head);
    LenAllConcat(head, AttrValues(a));
    assert FieldsOf(head) == [F64, FQid];
    assert FieldsOf(AttrValues(a)) == AttrLayout();
    FieldsOfConcat(head, AttrValues(a));
  }

  /** Every other constructor asks for exactly the bytes it puts, and the parser has a case that takes them. */
  lemma Agrees(m: Call, dotu: bool)
    ensures !Missized(m, dotu) ==> SizeAgrees(Build(m, dotu))
    ensures !ReadDifferently(m, dotu) ==> LayoutAgrees(Build(m, dotu), dotu)
  {
    match m {
      case Session(s) => SessionAgrees(s, dotu);
      case Path(p) => PathAgrees(p, dotu);
      case Io(i) => IoAgrees(i, dotu);
      case Record(Rstat(w)) => RstatAgrees(w, dotu); return;
      case Record(Twstat(fid, w)) => TwstatAgrees(fid, w, dotu); return;
      case Record(Rwstat) =>
      case Create(c) => CreateAgrees(c, dotu);
      case Attr(Rgetattr(mask, qid, a)) => RgetattrAgrees(mask, qid, a, dotu); return;
      case Attr(a) => AttrAgrees(a, dotu);
      case Lock(l) => LockAgrees(l, dotu);
      case Tree(t) => TreeAgrees(t, dotu);
    }
    var b := Build(m, dotu);
    if !Missized(m, dotu) { LenUpTo8(b.vals); }
    if !ReadDifferently(m, dotu) { MatchesMeans(Layout(b.typ, dotu), b.vals); }
  }

  function Packet(typ: nat, tag: nat, size: nat, body: seq<Byte>): seq<Byte> {
    LE(size, 4) + (LE(typ, 1) + (LE(tag, 2) + body))
  }

  lemma PacketSplit(typ: nat, tag: nat, size: nat, body: seq<Byte>)
    ensures Packet(typ, tag, size, []) + body == Packet(typ, tag, size, body)
    ensures |Packet(typ, tag, size, [])| == 7
  {
  }

  /** Parsing gets past the header, whatever follows the message in the buffer. */
  lemma ParseHeader(typ: nat, tag: nat, body: seq<Byte>, tail: seq<Byte>, dotu: bool)
    requires typ < 0x100 && tag < 0x1_0000 && |body| + 7 < WildSize
    ensures var size := |body| + 7;
      var pkt := Packet(typ, tag, size, body) + tail;
      && UnLE(pkt[..4]) == size
      && Parse(pkt, dotu) == ParseFields(size, typ, tag, Layout(typ, dotu), BodyReader(typ, tag, body))
  {
    PowValues();
    var size := |body| + 7;
    var pkt := Packet(typ, tag, size, body) + tail;
    assert pkt[..4] == LE(size, 4);
    UnLEOfLE(size, 4);
    var s := LE(typ, 1) + (LE(tag, 2) + body);
    assert pkt[4..size] == s;
    var c := Reader(s, 0, false);
    assert Ahead(c, s) by { assert s[0..|s|] == s; }
    AheadSplit(c, LE(typ, 1), LE(tag, 2) + body);
    AheadSplit(Past(c, LE(typ, 1)), LE(tag, 2), body);
    IntAhead(c, typ, 1);
    IntAhead(Past(c, LE(typ, 1)), tag, 2);
  }

  function BodyReader(typ: nat, tag: nat, body: seq<Byte>): Reader {
    Reader(LE(typ, 1) + (LE(tag, 2) + body), 3, false)
  }

  lemma BodyAhead(typ: nat, tag: nat, body: seq<Byte>)
    ensures Ahead(BodyReader(typ, tag, body), body)
  {
    var s := LE(typ, 1) + (LE(tag, 2) + body);
    assert s[3..3 + |body|] == body;
  }

  /** What the parser makes of a field that is missing altogether. */
  function Blank(f: Field): Value {
    match f
    case F8 => U8(0) case F16 => U16(0) case F32 => U32(0) case F64 => U64(0)
    case FStr => Str([])
    case FQid => Qid(QidVal(0, 0, 0))
    case FData => Data([])
    case FNames => Names([])
    case FQids => Qids([])
  }

  function Blanks(fields: seq<Field>): (r: seq<Value>)
    ensures |r| == |fields|
  {
    if fields == [] then [] else [Blank(fields[0])] + Blanks(fields[1..])
  }

  ghost predicate AtEnd(c: Reader) { !c.over && c.p == |c.s| }

  lemma BlankField(c: Reader, f: Field)
    requires AtEnd(c)
    ensures GetField(c, f) == Got(Some(Blank(f)), c)
  {
    assert UnLE([]) == 0 && c.s[c.p..c.p] == [];
    forall k: nat | k > 0 ensures Int(c, k) == 0 && Skip(c, k) == c { }
  }

  lemma {:induction false} BlankFields(c: Reader, fields: seq<Field>)
    requires AtEnd(c)
    ensures GetAll(c, fields) == Got(Some(Blanks(fields)), c)
  {
    if fields != [] {
      BlankField(c, fields[0]);
      BlankFields(c, fields[1..]);
    }
  }

  /** A mark stays to the end of the message. */
  lemma {:induction false} MarkStays(c: Reader, fields: seq<Field>)
    requires c.over
    ensures GetAll(c, fields).c == c
  {
    if fields != [] {
      forall k: nat | k > 0 ensures Int(c, k) == 0 { }
      assert GetField(c, fields[0]).c == c;
      MarkStays(c, fields[1..]);
    }
  }

  lemma {:induction false} GetAllConcat(c: Reader, a: seq<Field>, b: seq<Field>, vals: seq<Value>, c1: Reader)
    requires GetAll(c, a) == Got(Some(vals), c1)
    ensures GetAll(c, a + b) ==
      var g := GetAll(c1, b); if g.value.None? then g else Got(Some(vals + g.value.value), g.c)
    decreases |a|
  {
    var g := GetAll(c1, b);
    if a == [] {
      assert a + b == b;
      assert g.value.Some? ==> [] + g.value.value == g.value.value;
    } else {
      assert (a + b)[1..] == a[1..] + b;
      var f := GetField(c, a[0]);
      GetAllConcat(f.c, a[1..], b, vals[1..], c1);
      assert g.value.Some? ==> [vals[0]] + (vals[1..] + g.value.value) == vals + g.value.value;
    }
  }

  /** A message that ends after some of its fields, whatever stands behind it in the buffer, is accepted under any
      tag: those fields read back, the rest are zero or empty, and the cursor stops at its end. */
  lemma {:induction false} CutBetweenFields(typ: nat, tag: nat, vals: seq<Value>, missing: seq<Field>,
                                            tail: seq<Byte>, dotu: bool)
    requires typ < 0x100 && tag < 0x1_0000 && |EncAll(vals)| + 7 < WildSize
    requires Layout(typ, dotu) == Some(FieldsOf(vals) + missing) && forall i :: 0 <= i < |vals| ==> Fits(vals[i])
    ensures var size := |EncAll(vals)| + 7;
      var pkt := Packet(typ, tag, size, EncAll(vals)) + tail;
      var r := BodyReader(typ, tag, EncAll(vals));
      && UnLE(pkt[..4]) == size
      && Parse(pkt, dotu) == Some(Parsed(Fcall(size, typ, tag, vals + Blanks(missing)), r.(p := |r.s|)))
  {
    var c := BodyReader(typ, tag, EncAll(vals));
    var end := Past(c, EncAll(vals));
    ParseHeader(typ, tag, EncAll(vals), tail, dotu);
    BodyAhead(typ, tag, EncAll(vals));
    AllAhead(c, vals);
    GetAllConcat(c, FieldsOf(vals), missing, vals, end);
    BlankFields(end, missing);
  }

  /** A whole message reads back. */
  lemma PacketReadsBack(typ: nat, tag: nat, vals: seq<Value>, tail: seq<Byte>, dotu: bool)
    requires typ < 0x100 && tag < 0x1_0000 && |EncAll(vals)| + 7 < WildSize
    requires Layout(typ, dotu) == Some(FieldsOf(vals)) && forall i :: 0 <= i < |vals| ==> Fits(vals[i])
    ensures var size := |EncAll(vals)| + 7;
      var pkt := Packet(typ, tag, size, EncAll(vals)) + tail;
      var r := BodyReader(typ, tag, EncAll(vals));
      UnLE(pkt[..4]) == size && Parse(pkt, dotu) == Some(Parsed(Fcall(size, typ, tag, vals), r.(p := |r.s|)))
  {
    assert FieldsOf(vals) + [] == FieldsOf(vals) && vals + Blanks([]) == vals;
    CutBetweenFields(typ, tag, vals, [], tail, dotu);
  }

  function Width(f: Field): nat {
    match f case F8 => 1 case F16 => 2 case F32 => 4 case F64 => 8 case _ => 0
  }

  lemma {:induction false} IntegerCutShort(c: Reader, f: Field, missing: seq<Field>)
    requires !c.over && c.p < |c.s| < c.p + Width(f)
    ensures GetAll(c, [f] + missing).c.over
  {
    var over := GetField(c, f).c;
    assert over == Skip(c, Width(f)) && over.over;
    MarkStays(over, missing);
    assert ([f] + missing)[1..] == missing;
  }

  /** One that ends inside an integer is refused. */
  lemma CutInsideInteger(typ: nat, tag: nat, vals: seq<Value>, cut: seq<Byte>, f: Field, missing: seq<Field>,
                         dotu: bool)
    requires typ < 0x100 && tag < 0x1_0000 && |EncAll(vals) + cut| + 7 < WildSize
    requires Layout(typ, dotu) == Some(FieldsOf(vals) + ([f] + missing))
    requires (forall i :: 0 <= i < |vals| ==> Fits(vals[i])) && 0 < |cut| < Width(f)
    ensures var body := EncAll(vals) + cut;
      var pkt := Packet(typ, tag, |body| + 7, body);
      UnLE(pkt[..4]) == |body| + 7 && Parse(pkt, dotu).None?
  {
    var body := EncAll(vals) + cut;
    Tailless(typ, tag, |body| + 7, body);
    ParseHeader(typ, tag, body, [], dotu);
    var c := BodyReader(typ, tag, body);
    var end := Past(c, EncAll(vals));
    BodyAhead(typ, tag, body);
    AheadSplit(c, EncAll(vals), cut);
    AllAhead(c, vals);
    IntegerCutShort(end, f, missing);
    GetAllConcat(c, FieldsOf(vals), [f] + missing, vals, end);
  }

  // ---- round trips

  lemma FilledHeader(m: Call, dotu: bool)
    ensures var b := Build(m, dotu);
      Filled(m, dotu) == PutAll(Writer(Packet(b.typ, NoTag, b.size + 7, []), b.size + 7, false), AllChunks(b.vals))
  {
    var b := Build(m, dotu);
    var h := Header(b.size + 7, b.typ, NoTag);
    assert h[1..] == [LE(b.typ, 1), LE(NoTag, 2)] && h[1..][1..] == [LE(NoTag, 2)];
    FlatOne(LE(NoTag, 2));
    assert Flat(h) == Packet(b.typ, NoTag, b.size + 7, []) by {
      assert LE(NoTag, 2) + [] == LE(NoTag, 2);
    }
    var w := Writer([], b.size + 7, false);
    PutAllFits(w, h);
    assert [] + Flat(h) == Flat(h);
  }

  lemma {:induction false} AllChunksConcat(a: seq<Value>, b: seq<Value>)
    ensures AllChunks(a + b) == AllChunks(a) + AllChunks(b)
  {
    if a == [] {
      assert a + b == b;
    } else {
      assert (a + b)[1..] == a[1..] + b;
      AllChunksConcat(a[1..], b);
    }
  }

  lemma {:induction false} TwoChunks(a: Value, b: Value)
    ensures AllChunks([a, b]) == Chunks(a) + Chunks(b)
  {
    assert [a, b][1..] == [b] && [b][1..] == [] && AllChunks([b]) == Chunks(b);
  }

  lemma {:induction false} FourChunks(a: Value, b: Value, c: Value, d: Value)
    ensures AllChunks([a, b, c, d]) == Chunks(a) + Chunks(b) + Chunks(c) + Chunks(d)
  {
    TwoChunks(a, b);
    TwoChunks(c, d);
    AllChunksConcat([a, b], [c, d]);
    assert [a, b] + [c, d] == [a, b, c, d];
  }

  /** The values that fit go to the packet; the rest meets a cursor that stands behind them. */
  lemma {:induction false} FilledPrefix(m: Call, dotu: bool, vals: seq<Value>, rest: seq<Value>)
    requires FitsCall(m, dotu) && Build(m, dotu).vals == vals + rest && LenAll(vals) <= Build(m, dotu).size
    ensures var b := Build(m, dotu);
      Filled(m, dotu) ==
        PutAll(Writer(Packet(b.typ, NoTag, b.size + 7, EncAll(vals)), b.size + 7, false), AllChunks(rest))
  {
    var b := Build(m, dotu);
    forall i | 0 <= i < |vals| ensures Fits(vals[i]) { assert vals[i] == b.vals[i]; }
    FilledHeader(m, dotu);
    EncAllLength(vals);
    AllChunksConcat(vals, rest);
    var h := Writer(Packet(b.typ, NoTag, b.size + 7, []), b.size + 7, false);
    PutAllFits(h, AllChunks(vals));
    PutAllConcat(h, AllChunks(vals), AllChunks(rest));
    PacketSplit(b.typ, NoTag, b.size + 7, EncAll(vals));
  }

  /** A constructor whose size is that of its values fills its memory exactly. */
  lemma CreatedExactly(m: Call, dotu: bool, junk: seq<Byte>)
    requires FitsCall(m, dotu) && !Refused(m) && |junk| == Build(m, dotu).size + 7 && SizeAgrees(Build(m, dotu))
    ensures var b := Build(m, dotu);
      |EncAll(b.vals)| == b.size && Created(m, dotu, junk) == Some(Packet(b.typ, NoTag, b.size + 7, EncAll(b.vals)))
  {
    var b := Build(m, dotu);
    EncAllLength(b.vals);
    assert b.vals + [] == b.vals;
    FilledPrefix(m, dotu, b.vals, []);
    FullPacket(b.typ, b.size, EncAll(b.vals), junk);
  }

  lemma FullPacket(typ: nat, size: nat, body: seq<Byte>, junk: seq<Byte>)
    requires |body| == size && |junk| == size + 7
    ensures var pkt := Packet(typ, NoTag, size + 7, body); |pkt| == |junk| && pkt + junk[|pkt|..] == pkt
  {
  }

  lemma Tailless(typ: nat, tag: nat, size: nat, body: seq<Byte>)
    ensures Packet(typ, tag, size, body) + [] == Packet(typ, tag, size, body)
  {
  }

  /** What a faithful parse of the call returns: its values, and under 9P2000.u the empty extension of Tcreate. */
  function Expected(m: Call, dotu: bool): seq<Value> {
    Build(m, dotu).vals + if ExtendedCreate(m, dotu) then [Str([])] else []
  }

  /** The parser returns every value and stops exactly at the end. */
  ghost predicate ReadsAs(pkt: seq<Byte>, b: Built, expected: seq<Value>, dotu: bool) {
    && |pkt| == b.size + 7 && UnLE(pkt[..4]) == b.size + 7
    && var p := Parse(pkt, dotu);
       p.Some? && p.value.call == Fcall(b.size + 7, b.typ, NoTag, expected) && p.value.rest.p == |p.value.rest.s|
  }

  /** The constructor succeeds, and its packet reads back. */
  ghost predicate RoundTrips(m: Call, dotu: bool, junk: seq<Byte>)
    requires |junk| == Build(m, dotu).size + 7
  {
    var pkt := Created(m, dotu, junk);
    pkt.Some? && ReadsAs(pkt.value, Build(m, dotu), Expected(m, dotu), dotu)
  }

  /** The constructors the parser does not undo. */
  predicate NotInverse(m: Call, dotu: bool) {
    match m
    case Session(Tauth(_, _, _, nuname)) => dotu && nuname != 0
    case Create(c) => c.Tlerror? || c.Rstatfs?
    case Attr(a) => a.Tsetattr?
    case Lock(l) => l.Rgetlock?
    case _ => false
  }

  ghost predicate Whole(b: Built) {
    && b.typ < 0x100 && b.size + 7 < 0x8000_0000 && |EncAll(b.vals)| == b.size
    && forall i :: 0 <= i < |b.vals| ==> Fits(b.vals[i])
  }

  lemma RegularReads(b: Built, dotu: bool)
    requires Whole(b) && LayoutAgrees(b, dotu)
    ensures ReadsAs(Packet(b.typ, NoTag, b.size + 7, EncAll(b.vals)), b, b.vals, dotu)
  {
    Tailless(b.typ, NoTag, b.size + 7, EncAll(b.vals));
    PacketReadsBack(b.typ, NoTag, b.vals, [], dotu);
  }

  lemma OneMoreReads(b: Built, f: Field, dotu: bool)
    requires Whole(b) && Layout(b.typ, dotu) == Some(FieldsOf(b.vals) + [f])
    ensures ReadsAs(Packet(b.typ, NoTag, b.size + 7, EncAll(b.vals)), b, b.vals + [Blank(f)], dotu)
  {
    Tailless(b.typ, NoTag, b.size + 7, EncAll(b.vals));
    CutBetweenFields(b.typ, NoTag, b.vals, [f], [], dotu);
    assert Blanks([f]) == [Blank(f)] by { assert [f][1..] == []; }
  }

  lemma {:induction false} GetAllCounts(c: Reader, fields: seq<Field>)
    ensures var g := GetAll(c, fields); g.value.Some? ==> |g.value.value| == |fields|
    decreases |fields|
  {
    if fields != [] { GetAllCounts(GetField(c, fields[0]).c, fields[1..]); }
  }

  /** A layout with another number of fields never yields the values. */
  lemma OtherCountMisreads(b: Built, fields: Option<seq<Field>>, dotu: bool)
    requires Whole(b) && fields == Layout(b.typ, dotu) && (fields.Some? ==> |fields.value| != |b.vals|)
    ensures !ReadsAs(Packet(b.typ, NoTag, b.size + 7, EncAll(b.vals)), b, b.vals, dotu)
  {
    Tailless(b.typ, NoTag, b.size + 7, EncAll(b.vals));
    ParseHeader(b.typ, NoTag, EncAll(b.vals), [], dotu);
    if fields.Some? { GetAllCounts(BodyReader(b.typ, NoTag, EncAll(b.vals)), fields.value); }
  }

  lemma RegularRoundTrips(m: Call, dotu: bool, junk: seq<Byte>)
    requires FitsCall(m, dotu) && !Refused(m) && |junk| == Build(m, dotu).size + 7
    requires !Missized(m, dotu) && !ReadDifferently(m, dotu)
    ensures RoundTrips(m, dotu, junk)
  {
    Agrees(m, dotu);
    CreatedExactly(m, dotu, junk);
    RegularReads(Build(m, dotu), dotu);
    assert Expected(m, dotu) == Build(m, dotu).vals;
  }

  lemma TcreateRoundTrips(fid: nat, name: seq<Byte>, perm: nat, mode: nat, junk: seq<Byte>)
    requires FitsCall(Path(Tcreate(fid, name, perm, mode)), true) && |junk| == 11 + |name| + 7
    ensures RoundTrips(Path(Tcreate(fid, name, perm, mode)), true, junk)
  {
    var m := Path(Tcreate(fid, name, perm, mode));
    var b := Build(m, true);
    Agrees(m, true);
    CreatedExactly(m, true, junk);
    assert Layout(114, true) == Some([F32, FStr, F32, F8] + [FStr]);
    assert FieldsOf(b.vals) == [F32, FStr, F32, F8];
    OneMoreReads(b, FStr, true);
  }

  /** Under 9P2000.u the packet of Tauth has no room left for n_uname, so it is not written... */
  lemma TauthFilled(afid: nat, uname: seq<Byte>, aname: seq<Byte>, nuname: nat)
    requires FitsCall(Session(Tauth(afid, uname, aname, nuname)), true)
    ensures var size := 8 + |uname| + |aname|;
      var enc := EncAll([U32(afid), Str(uname), Str(aname)]);
      && Whole(Built(102, size, [U32(afid), Str(uname), Str(aname)]))
      && Filled(Session(Tauth(afid, uname, aname, nuname)), true) ==
         Writer(Packet(102, NoTag, size + 7, enc), size + 7, false)
  {
    var m := Session(Tauth(afid, uname, aname, nuname));
    var vals, uid := [U32(afid), Str(uname), Str(aname)], U32(nuname);
    assert Fits(Build(m, true).vals[0]) && Fits(Build(m, true).vals[1]) && Fits(Build(m, true).vals[2]);
    LenUpTo8(vals);
    EncAllLength(vals);
    FilledPrefix(m, true, vals, [uid]);
    assert AllChunks([uid]) == [LE(nuname, 4)] by { assert [uid][1..] == []; }
    var size := 8 + |uname| + |aname|;
    PutAllFull(Writer(Packet(102, NoTag, size + 7, EncAll(vals)), size + 7, false), [LE(nuname, 4)]);
  }

  lemma TauthLayout(vals: seq<Value>)
    requires |vals| == 3 && vals[0].U32? && vals[1].Str? && vals[2].Str?
    ensures Layout(102, true) == Some(FieldsOf(vals) + [F32])
  {
    assert FieldsOf(vals) == [F32, FStr, FStr];
  }

  /** ...and reads as 0. */
  lemma TauthReadsZero(vals: seq<Value>, size: nat, nuname: nat)
    requires |vals| == 3 && vals[0].U32? && vals[1].Str? && vals[2].Str? && Whole(Built(102, size, vals))
    ensures var full := vals + [U32(nuname)];
      ReadsAs(Packet(102, NoTag, size + 7, EncAll(vals)), Built(102, size, full), full, true) <==> nuname == 0
  {
    TauthLayout(vals);
    OneMoreReads(Built(102, size, vals), F32, true);
    AppendInjective(vals, U32(nuname), U32(0));
  }

  lemma TauthCreated(afid: nat, uname: seq<Byte>, aname: seq<Byte>, nuname: nat, junk: seq<Byte>)
    requires FitsCall(Session(Tauth(afid, uname, aname, nuname)), true) && |junk| == 8 + |uname| + |aname| + 7
    ensures var m := Session(Tauth(afid, uname, aname, nuname));
      var vals := [U32(afid), Str(uname), Str(aname)];
      var size := 8 + |uname| + |aname|;
      && Whole(Built(102, size, vals))
      && Build(m, true) == Built(102, size, vals + [U32(nuname)])
      && Expected(m, true) == vals + [U32(nuname)]
      && Created(m, true, junk) == Some(Packet(102, NoTag, size + 7, EncAll(vals)))
  {
    TauthFilled(afid, uname, aname, nuname);
    FullPacket(102, 8 + |uname| + |aname|, EncAll([U32(afid), Str(uname), Str(aname)]), junk);
  }

  lemma TauthDropsUid(afid: nat, uname: seq<Byte>, aname: seq<Byte>, nuname: nat, junk: seq<Byte>)
    requires FitsCall(Session(Tauth(afid, uname, aname, nuname)), true) && |junk| == 8 + |uname| + |aname| + 7
    ensures RoundTrips(Session(Tauth(afid, uname, aname, nuname)), true, junk) <==> nuname == 0
  {
    TauthCreated(afid, uname, aname, nuname, junk);
    TauthReadsZero([U32(afid), Str(uname), Str(aname)], 8 + |uname| + |aname|, nuname);
  }

  lemma AppendInjective<T>(s: seq<T>, x: T, y: T)
    ensures s + [x] == s + [y] <==> x == y
  {
    assert (s + [x])[|s|] == x && (s + [y])[|s|] == y;
  }

  /** np_create_tsetattr asks for 12 bytes too few and always returns NULL. */
  lemma TsetattrOverflows(fid: nat, mask: nat, attrs: Attrs, dotu: bool)
    requires FitsCall(Attr(Tsetattr(fid, mask, attrs)), dotu)
    ensures Filled(Attr(Tsetattr(fid, mask, attrs)), dotu).over
  {
    var m := Attr(Tsetattr(fid, mask, attrs));
    var vals, rest := Build(m, dotu).vals[..8], Build(m, dotu).vals[8..];
    assert rest == [U64(attrs.mtimeSec), U64(attrs.mtimeNsec)];
    LenUpTo8(vals);
    EncAllLength(vals);
    FilledPrefix(m, dotu, vals, rest);
    var w := Writer(Packet(26, NoTag, 55, EncAll(vals)), 55, false);
    assert AllChunks(rest) == [LE(attrs.mtimeSec, 8)] + AllChunks(rest[1..]);
    assert AllChunks(rest)[1..] == AllChunks(rest[1..]);
    PutAllMarked(Put(w, LE(attrs.mtimeSec, 8)), AllChunks(rest[1..]));
  }

  /** np_create_rstatfs asks for 4 bytes too many and leaves them as they were... */
  lemma RstatfsFilled(m: Call, dotu: bool, junk: seq<Byte>)
    requires FitsCall(m, dotu) && m.Create? && m.c.Rstatfs? && |junk| == 71
    ensures var enc := EncAll(Build(m, dotu).vals);
      |enc| == 60 && Created(m, dotu, junk) == Some(Packet(9, NoTag, 71, enc + junk[67..]))
  {
    var b := Build(m, dotu);
    NineLen(b.vals);
    EncAllLength(b.vals);
    assert b.vals + [] == b.vals;
    FilledPrefix(m, dotu, b.vals, []);
    PacketExtends(9, 71, EncAll(b.vals), junk[67..]);
  }

  lemma {:induction false} NineLen(vals: seq<Value>)
    requires |vals| == 9
    ensures LenAll(vals) == Sum8(vals) + Len(vals[8])
  {
    LenUpTo8(vals[..8]);
    LenUpTo8(vals[8..]);
    assert vals == vals[..8] + vals[8..];
    LenAllConcat(vals[..8], vals[8..]);
  }

  lemma PacketExtends(typ: nat, size: nat, a: seq<Byte>, b: seq<Byte>)
    ensures Packet(typ, NoTag, size, a) + b == Packet(typ, NoTag, size, a + b)
    ensures |Packet(typ, NoTag, size, a)| == |a| + 7
  {
  }

  /** ...and the parser stops before them. */
  lemma RstatfsStopsShort(b: Built, more: seq<Byte>, dotu: bool)
    requires b.typ == 9 && b.size == 64 && |EncAll(b.vals)| == 60 && |more| == 4 && LayoutAgrees(b, dotu)
    requires forall i :: 0 <= i < |b.vals| ==> Fits(b.vals[i])
    ensures !ReadsAs(Packet(9, NoTag, 71, EncAll(b.vals) + more), b, b.vals, dotu)
  {
    var body := EncAll(b.vals) + more;
    Tailless(9, NoTag, 71, body);
    ParseHeader(9, NoTag, body, [], dotu);
    BodyAhead(9, NoTag, body);
    AheadSplit(BodyReader(9, NoTag, body), EncAll(b.vals), more);
    AllAhead(BodyReader(9, NoTag, body), b.vals);
  }

  /** The round trip holds of every call, except for exactly the calls listed in NotInverse. */
  lemma RoundTripsExactly(m: Call, dotu: bool, junk: seq<Byte>)
    requires FitsCall(m, dotu) && !Refused(m) && |junk| == Build(m, dotu).size + 7
    ensures RoundTrips(m, dotu, junk) <==> !NotInverse(m, dotu)
  {
    if m.Session? && m.s.Tauth? && dotu {
      TauthDropsUid(m.s.afid, m.s.uname, m.s.aname, m.s.nuname, junk);
    } else if m.Path? && m.p.Tcreate? && dotu {
      TcreateRoundTrips(m.p.fid, m.p.name, m.p.perm, m.p.mode, junk);
    } else if NotInverse(m, dotu) {
      NotInverseFails(m, dotu, junk);
    } else {
      RegularRoundTrips(m, dotu, junk);
    }
  }

  lemma NotInverseFails(m: Call, dotu: bool, junk: seq<Byte>)
    requires FitsCall(m, dotu) && |junk| == Build(m, dotu).size + 7 && NotInverse(m, dotu) && !m.Session?
    ensures !RoundTrips(m, dotu, junk)
  {
    var b := Build(m, dotu);
    assert Expected(m, dotu) == b.vals;
    Agrees(m, dotu);
    if m.Attr? {
      TsetattrOverflows(m.a.fid, m.a.mask, m.a.attrs, dotu);
    } else if m.Create? && m.c.Rstatfs? {
      RstatfsFilled(m, dotu, junk);
      RstatfsStopsShort(b, junk[67..], dotu);
    } else {
      CreatedExactly(m, dotu, junk);
      OtherCountMisreads(b, Layout(b.typ, dotu), dotu);
    }
  }
}
