/** Twalk on the fid table (np_walk in libnpfs/fcall.c). The file system behind it is an oracle: it answers
    the clone, and it answers each name with the type of the qid it walked to, or with nothing. */
module Walk {
  import opened Bytes
  import opened FidPool

  const MaxWelem := 16

  /** The Qtdir bit of a qid or fid type. */
  predicate IsDir(typ: nat) { typ / 0x80 % 2 == 1 }

  datatype Reply = Rwalk(qids: seq<nat>) | Failed

  /** How far a walk of n names gets from name i on: it stops at a name the file system refuses, and at a
      file that is not a directory with names still to come. */
  function Reached(answers: seq<Option<nat>>, i: nat, n: nat): (k: nat)
    requires i <= n <= |answers|
    ensures i <= k <= n
    ensures forall j :: i <= j < k ==> answers[j].Some?
    ensures forall j :: i <= j < k - 1 ==> IsDir(answers[j].value)
    decreases n - i
  {
    if i == n || answers[i].None? then i
    else if i + 1 < n && !IsDir(answers[i].value) then i + 1
    else Reached(answers, i + 1, n)
  }

  /** Walks stop for a reason: short of the last name, the next one was refused or the last qid is no directory. */
  lemma {:induction false} StopsForAReason(answers: seq<Option<nat>>, i: nat, n: nat)
    requires i <= n <= |answers|
    ensures var k := Reached(answers, i, n);
      k < n ==> answers[k].None? || (k > i && !IsDir(answers[k - 1].value))
    decreases n - i
  {
    if i < n && answers[i].Some? && !(i + 1 < n && !IsDir(answers[i].value)) {
      StopsForAReason(answers, i + 1, n);
    }
  }

  function Types(answers: seq<Option<nat>>, k: nat): (r: seq<nat>)
    requires k <= |answers| && forall j :: 0 <= j < k ==> answers[j].Some?
    ensures |r| == k
  {
    seq(k, j requires 0 <= j < k => answers[j].value)
  }

  function TypeAfter(typ: nat, answers: seq<Option<nat>>, k: nat): nat
    requires k <= |answers| && forall j :: 0 <= j < k ==> answers[j].Some?
  {
    if k == 0 then typ else answers[k - 1].value
  }

  /** The reply names the qids reached, in order; it fails only for a walk that does not get past its first name. */
  ghost predicate Replies(r: Reply, answers: seq<Option<nat>>, n: nat)
    requires n <= |answers|
  {
    var k := Reached(answers, 0, n);
    match r
    case Failed => k == 0 && n > 0
    case Rwalk(qids) => (k > 0 || n == 0) && |qids| == k && forall j :: 0 <= j < k ==> Some(qids[j]) == answers[j]
  }

  /** The type of a fid that has walked: that of the last qid reached, or its own from before. */
  ghost predicate Walked(typ: nat, before: nat, answers: seq<Option<nat>>, n: nat)
    requires n <= |answers|
  {
    var k := Reached(answers, 0, n);
    (k > 0 ==> Some(typ) == answers[k - 1]) && (k == 0 ==> typ == before)
  }

  lemma {:induction false} WalkMeans(typ: nat, answers: seq<Option<nat>>, n: nat)
    requires n <= |answers|
    ensures Replies(ReplyTo(answers, n), answers, n)
    ensures Walked(TypeAfter(typ, answers, Reached(answers, 0, n)), typ, answers, n)
  {
  }

  /** The loop of np_walk over the names. */
  method WalkNames(f: Npfid, n: nat, answers: seq<Option<nat>>) returns (i: nat, wqids: seq<nat>)
    requires n <= |answers|
    modifies f`typ
    ensures i == Reached(answers, 0, n) && wqids == Types(answers, i)
    ensures f.typ == TypeAfter(old(f.typ), answers, i)
  {
    i, wqids := 0, [];
    while i < n
      invariant i <= n && Reached(answers, 0, n) == Reached(answers, i, n)
      invariant forall j :: 0 <= j < i ==> answers[j].Some?
      invariant |wqids| == i && forall j :: 0 <= j < i ==> wqids[j] == answers[j].value
      invariant f.typ == TypeAfter(old(f.typ), answers, i)
    {
      if answers[i].None? { return; }
      wqids := wqids + [answers[i].value];
      f.typ := wqids[i];
      i := i + 1;
      if i < n && !IsDir(f.typ) { return; }
    }
  }

  method WalkHeld(pool: Pool, f: Npfid, n: nat, answers: seq<Option<nat>>) returns (i: nat, wqids: seq<nat>)
    requires pool.Valid() && f in pool.fids && n <= |answers|
    modifies f`typ
    ensures pool.Valid()
    ensures i == Reached(answers, 0, n) && wqids == Types(answers, i)
    ensures f.typ == TypeAfter(old(f.typ), answers, i)
  {
    pool.ValidMeans();
    i, wqids := WalkNames(f, n, answers);
  }

  /** The reply np_walk makes of a walk that reached k of n names. */
  function ReplyTo(answers: seq<Option<nat>>, n: nat): Reply
    requires n <= |answers|
  {
    var k := Reached(answers, 0, n);
    if k == 0 && n != 0 then Failed else Rwalk(Types(answers, k))
  }

  /** np_walk to a number not in use, once the source fid is found and referenced and the clone has succeeded:
      the new fid stays in the table iff every name was reached. */
  method WalkToNew(pool: Pool, fid: Npfid, newfid: nat, n: nat, answers: seq<Option<nat>>) returns (r: Reply, f: Npfid)
    requires pool.Valid() && fid in pool.fids && newfid !in pool.table && n <= |answers|
    modifies pool, pool.htable, pool.fids`next, pool.fids`prev
    ensures pool.Valid() && r == ReplyTo(answers, n)
    ensures pool.table == if Reached(answers, 0, n) < n then old(pool.table) else old(pool.table)[newfid := f]
    ensures Reached(answers, 0, n) == n ==> f.refcount == 1 && f.typ == TypeAfter(fid.typ, answers, n)
    ensures Reached(answers, 0, n) == n > 0 ==> Some(f.typ) == answers[n - 1]
    ensures Reached(answers, 0, n) == n == 0 ==> f.typ == fid.typ
    ensures Reached(answers, 0, n) == n ==> fresh(f) && f.fid == newfid && f.uid == fid.uid
    ensures Replies(r, answers, n)
  {
    WalkMeans(fid.typ, answers, n);
    ghost var table := pool.table;
    f := CloneOf(pool, newfid, fid);
    r := WalkCloned(pool, f, n, answers);
    assert table[newfid := f] - {newfid} == table;
  }

  /** The clone is refused: the new fid has no reference to drop, so it stays in the table with a count of -1. */
  method CloneRefused(pool: Pool, newfid: nat) returns (f: Npfid)
    requires pool.Valid() && newfid !in pool.table
    modifies pool, pool.htable, pool.fids`next, pool.fids`prev
    ensures pool.Valid() && f.refcount == -1 && pool.table == old(pool.table)[newfid := f]
  {
    f := CreateNew(pool, newfid);
    pool.Decref(f);
  }

  method CreateNew(pool: Pool, newfid: nat) returns (f: Npfid)
    requires pool.Valid() && newfid !in pool.table
    modifies pool, pool.htable, pool.fids`next, pool.fids`prev
    ensures pool.Valid() && fresh(f) && f.fid == newfid && f.refcount == 0
    ensures pool.table == old(pool.table)[newfid := f] && pool.fids == old(pool.fids) + {f}
  {
    f := pool.Create(newfid, NoAux);
  }

  /** A fresh clone: the new fid takes the user and the type of the source. */
  method CloneOf(pool: Pool, newfid: nat, fid: Npfid) returns (f: Npfid)
    requires pool.Valid() && fid in pool.fids && newfid !in pool.table
    modifies pool, pool.htable, pool.fids`next, pool.fids`prev
    ensures pool.Valid() && fresh(f) && f.fid == newfid && f.refcount == 0 && f.typ == fid.typ && f.uid == fid.uid
    ensures pool.table == old(pool.table)[newfid := f] && pool.fids == old(pool.fids) + {f}
  {
    f := CreateNew(pool, newfid);
    Inherit(pool, f, fid);
  }

  /** The new fid takes the user and the type of the source. */
  method Inherit(pool: Pool, f: Npfid, fid: Npfid)
    requires pool.Valid() && f in pool.fids
    modifies f`uid, f`typ
    ensures pool.Valid() && f.uid == old(fid.uid) && f.typ == old(fid.typ)
  {
    pool.ValidMeans();
    f.uid := fid.uid;
    f.typ := fid.typ;
  }

  /** The part of np_walk from the first np_fid_incref(newfid) on, newfid being a fresh clone. */
  method WalkCloned(pool: Pool, f: Npfid, n: nat, answers: seq<Option<nat>>) returns (r: Reply)
    requires pool.Valid() && f in pool.fids && n <= |answers| && f.refcount == 0
    modifies pool, pool.htable, pool.fids`next, pool.fids`prev, f`refcount, f`typ
    ensures pool.Valid() && r == ReplyTo(answers, n)
    ensures Reached(answers, 0, n) == n ==>
      pool.table == old(pool.table) && f.refcount == 1 && f.typ == TypeAfter(old(f.typ), answers, n)
    ensures Reached(answers, 0, n) < n ==> pool.table == old(pool.table) - {f.fid}
  {
    pool.Incref(f);
    var i, wqids := WalkHeld(pool, f, n, answers);
    if i == 0 && n != 0 {
      r := Failed;
    } else {
      if i == n { pool.Incref(f); }
      r := Rwalk(wqids);
    }
    pool.Decref(f);
  }

  /** The references np_walk may count on: every fid in the table is held by somebody. */
  ghost predicate AllHeld(pool: Pool)
    reads pool, pool.fids
  {
    forall f :: f in pool.fids ==> f.refcount > 0
  }

  ghost predicate Walks(omode: nat, n: nat) { omode == Onotopen && n <= MaxWelem }

  /** The reply of np_walk: used says whether the new number is in use, same whether it is the source's own. */
  function WalkReply(walks: bool, same: bool, used: bool, clone: bool, answers: seq<Option<nat>>, n: nat): Reply
    requires n <= |answers|
  {
    if walks && (same || (!used && clone)) then ReplyTo(answers, n) else Failed
  }

  /** np_walk, for a source fid that exists. The request's reference to it is taken in every case, and nothing else
      changes but the new number and, when that is the source's own, the source's type. */
  method WalkFrom(pool: Pool, fid: Npfid, newfidno: nat, n: nat, clone: bool, answers: seq<Option<nat>>)
    returns (r: Reply)
    requires pool.Valid() && AllHeld(pool) && fid in pool.fids && n <= |answers|
    modifies pool, pool.htable, pool.fids`next, pool.fids`prev, fid`refcount
    modifies (set f | f in pool.fids && f.fid == newfidno)`refcount,
      (set f | f in pool.fids && f == fid && f.fid == newfidno)`typ
    ensures pool.Valid() && fid.refcount == old(fid.refcount) + 1
    ensures r == WalkReply(Walks(fid.omode, n), fid.fid == newfidno, newfidno in old(pool.table), clone, answers, n)
    ensures !Walks(fid.omode, n) || fid.fid == newfidno ==> pool.table == old(pool.table)
    ensures fid.typ ==
      if Walks(fid.omode, n) && fid.fid == newfidno then TypeAfter(old(fid.typ), answers, Reached(answers, 0, n))
                       else old(fid.typ)
    ensures !Walks(fid.omode, n) && newfidno in pool.table && newfidno != fid.fid ==>
      pool.table[newfidno].refcount == old(pool.table[newfidno].refcount)
    ensures Walks(fid.omode, n) && fid.fid != newfidno && newfidno in old(pool.table) ==>
      var g := old(pool.table)[newfidno];
      g.refcount == old(pool.table[newfidno].refcount) - 1
      && pool.table == if g.refcount == 0 then old(pool.table) - {newfidno} else old(pool.table)
    ensures Walks(fid.omode, n) && newfidno !in old(pool.table) ==>
      if clone then AllOrNothing(pool, old(pool.table), newfidno, fid.typ, fid.uid, n, answers)
      else StaysUnheld(pool, old(pool.table), newfidno)
  {
    pool.InTable(fid);
    pool.ValidMeans();
    pool.Incref(fid);
    if fid.omode != Onotopen || n > MaxWelem { return Failed; }
    if fid.fid == newfidno {
      r := WalkInPlace(pool, fid, n, answers);
    } else {
      r := WalkApart(pool, fid, newfidno, n, clone, answers);
    }
  }

  /** The new number stands for a fid that nobody holds, with a count of -1. */
  ghost predicate StaysUnheld(pool: Pool, before: map<nat, Npfid>, newfidno: nat)
    reads pool, pool.table.Values
  {
    newfidno in pool.table && pool.table == before[newfidno := pool.table[newfidno]]
    && pool.table[newfidno].refcount == -1
  }

  /** The new number stands for a new fid with one reference, the client's, the user of the source and the type the
      walk ended on, iff every name was reached; otherwise the table is what it was. */
  ghost predicate AllOrNothing(pool: Pool, before: map<nat, Npfid>, newfidno: nat, typ: nat, uid: nat, n: nat,
                               answers: seq<Option<nat>>)
    requires n <= |answers|
    reads pool, pool.table.Values
  {
    if Reached(answers, 0, n) < n then pool.table == before
    else
      && newfidno in pool.table
      && pool.table == before[newfidno := pool.table[newfidno]]
      && pool.table[newfidno].refcount == 1 && pool.table[newfidno].uid == uid
      && pool.table[newfidno].typ == TypeAfter(typ, answers, n)
      && Walked(pool.table[newfidno].typ, typ, answers, n)
  }

  method WalkApart(pool: Pool, fid: Npfid, newfidno: nat, n: nat, clone: bool, answers: seq<Option<nat>>)
    returns (r: Reply)
    requires pool.Valid() && fid in pool.fids && n <= |answers| && newfidno != fid.fid
    modifies pool, pool.htable, pool.fids`next, pool.fids`prev, (set f | f in pool.fids && f.fid == newfidno)`refcount
    ensures pool.Valid()
    ensures newfidno !in old(pool.table) ==> r == if clone then ReplyTo(answers, n) else Failed
    ensures newfidno !in old(pool.table) && clone ==> Replies(r, answers, n)
    ensures newfidno !in old(pool.table) && clone ==>
      AllOrNothing(pool, old(pool.table), newfidno, fid.typ, fid.uid, n, answers)
    ensures newfidno !in old(pool.table) && !clone ==> StaysUnheld(pool, old(pool.table), newfidno)
    ensures newfidno in old(pool.table) ==> r == Failed
    ensures newfidno in old(pool.table) ==>
      var g := old(pool.table)[newfidno];
      g.refcount == old(pool.table[newfidno].refcount) - 1
      && pool.table == if g.refcount == 0 then old(pool.table) - {newfidno} else old(pool.table)
  {
    var newfid := pool.Find(newfidno);
    if newfid != null {
      pool.Decref(newfid);
      return Failed;
    }
    ghost var f;
    if clone {
      r, f := WalkToNew(pool, fid, newfidno, n, answers);
    } else {
      f := CloneRefused(pool, newfidno);
      r := Failed;
    }
  }

  /** np_walk. */
  method NpWalk(pool: Pool, fidno: nat, newfidno: nat, n: nat, clone: bool, answers: seq<Option<nat>>)
    returns (r: Reply)
    requires pool.Valid() && AllHeld(pool) && n <= |answers|
    modifies pool, pool.htable, pool.fids`next, pool.fids`prev
    modifies (set f | f in pool.fids && f.fid in {fidno, newfidno})`refcount
    modifies (set f | f in pool.fids && f.fid == fidno == newfidno)`typ
    ensures pool.Valid()
    ensures fidno !in old(pool.table) ==>
      r == Failed && pool.table == old(pool.table) && forall f :: f in old(pool.fids) ==> f.refcount == old(f.refcount)
    ensures fidno in old(pool.table) ==>
      var fid := old(pool.table)[fidno];
      && fid.refcount == old(pool.table[fidno].refcount) + 1
      && r == WalkReply(Walks(fid.omode, n), fidno == newfidno, newfidno in old(pool.table), clone, answers, n)
      && fid.typ == (if Walks(fid.omode, n) && fidno == newfidno
                     then TypeAfter(old(pool.table[fidno].typ), answers, Reached(answers, 0, n))
                     else old(pool.table[fidno].typ))
      && (if Walks(fid.omode, n) && (fidno == newfidno || (newfidno !in old(pool.table) && clone))
          then Replies(r, answers, n) else r == Failed)
      && (if Walks(fid.omode, n) && fidno == newfidno then Walked(fid.typ, old(pool.table[fidno].typ), answers, n)
          else fid.typ == old(pool.table[fidno].typ))
      && (!Walks(fid.omode, n) || fidno == newfidno ==> pool.table == old(pool.table))
      && (Walks(fid.omode, n) && newfidno !in old(pool.table) ==>
            if clone then AllOrNothing(pool, old(pool.table), newfidno, fid.typ, fid.uid, n, answers)
            else StaysUnheld(pool, old(pool.table), newfidno))
    ensures fidno in old(pool.table) && fidno != newfidno && newfidno in old(pool.table) ==>
      var fid, g := old(pool.table)[fidno], old(pool.table)[newfidno];
      && g.refcount == old(pool.table[newfidno].refcount) - (if Walks(fid.omode, n) then 1 else 0)
      && pool.table == if g.refcount == 0 then old(pool.table) - {newfidno} else old(pool.table)
  {
    var fid := pool.Find(fidno);
    if fid == null { return Failed; }
    pool.ValidMeans();
    WalkMeans(fid.typ, answers, n);
    r := WalkFrom(pool, fid, newfidno, n, clone, answers);
  }

  /** np_walk when newfid is fid: the walk moves the fid itself, and keeps what it reached. */
  method WalkInPlace(pool: Pool, f: Npfid, n: nat, answers: seq<Option<nat>>) returns (r: Reply)
    requires pool.Valid() && f in pool.fids && n <= |answers| && f.refcount > 0
    modifies pool, pool.htable, pool.fids`next, pool.fids`prev, f`refcount, f`typ
    ensures pool.Valid() && pool.table == old(pool.table) && pool.fids == old(pool.fids)
    ensures f.refcount == old(f.refcount)
    ensures r == ReplyTo(answers, n) && f.typ == TypeAfter(old(f.typ), answers, Reached(answers, 0, n))
    ensures Replies(r, answers, n) && Walked(f.typ, old(f.typ), answers, n)
  {
    WalkMeans(f.typ, answers, n);
    pool.Incref(f);
    var i, wqids := WalkHeld(pool, f, n, answers);
    r := if i == 0 && n != 0 then Failed else Rwalk(wqids);
    pool.Decref(f);
  }
}
