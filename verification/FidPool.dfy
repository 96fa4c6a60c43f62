/** The fid table of libnpfs/fidpool.c: 64 hash chains of doubly linked fids, each moved to the front of its
    chain when it is looked up. */
module FidPool {
  import opened Bytes

  const HtableSize := 64
  const Onotopen := 0xFFFF

  /** What the ufs backend keeps behind a fid, as far as a checkpoint records it. */
  datatype Aux = Aux(path: seq<Byte>, omode: nat, xattrname: Option<seq<Byte>>,
                     xattrflags: nat, xattr: Option<seq<Byte>>)
  const NoAux := Aux([], 0, None, 0, None)

  class Npfid {
    const fid: nat
    var refcount: int
    var omode: nat
    var typ: nat
    var diroffset: nat
    var uid: nat
    var aux: Aux
    var next: Npfid?
    var prev: Npfid?

    constructor (fid: nat, aux: Aux)
      ensures this.fid == fid && refcount == 0 && omode == Onotopen && typ == 0 && diroffset == 0 && this.aux == aux
      ensures next == null && prev == null
    {
      this.fid := fid;
      refcount := 0;
      omode := Onotopen;
      typ := 0;
      diroffset := 0;
      this.aux := aux;
      next := null;
      prev := null;
    }
  }

  function ToFront<T>(s: seq<T>, i: nat): (r: seq<T>)
    requires i < |s|
    ensures |r| == |s| && r[0] == s[i]
    ensures forall k :: 1 <= k <= i ==> r[k] == s[k - 1]
    ensures forall k :: i < k < |s| ==> r[k] == s[k]
  {
    [s[i]] + s[..i] + s[i + 1..]
  }

  /** The chain after is the chain before with x taken to the front. */
  ghost predicate Fronted<T>(before: seq<T>, after: seq<T>, x: T) {
    exists i: nat :: i < |before| && before[i] == x && after == ToFront(before, i)
  }

  lemma ToFrontPermutes<T>(s: seq<T>, i: nat)
    requires i < |s|
    ensures multiset(ToFront(s, i)) == multiset(s)
  {
    assert s == s[..i] + [s[i]] + s[i + 1..];
  }

  function Succ(chain: seq<Npfid>, i: nat): Npfid?
    requires i < |chain|
  {
    if i + 1 < |chain| then chain[i + 1] else null
  }

  function Pred(chain: seq<Npfid>, i: nat): Npfid?
    requires i < |chain|
  {
    if i > 0 then chain[i - 1] else null
  }

  function At(chain: seq<Npfid>, i: nat): Npfid? { if i < |chain| then chain[i] else null }

  function Head(chain: seq<Npfid>): Npfid? { if chain == [] then null else chain[0] }

  ghost predicate Distinct(chain: seq<Npfid>) {
    chain == [] || (chain[0] !in chain[1..] && Distinct(chain[1..]))
  }

  lemma {:induction false} DistinctIndices(chain: seq<Npfid>)
    ensures Distinct(chain) <==> forall i, j :: 0 <= i < j < |chain| ==> chain[i] != chain[j]
  {
    if chain != [] {
      var rest := chain[1..];
      DistinctIndices(rest);
      assert forall i :: 1 <= i < |chain| ==> chain[i] == rest[i - 1];
      if forall i, j :: 0 <= i < j < |rest| ==> rest[i] != rest[j] {
        forall i, j | 1 <= i < j < |chain| ensures chain[i] != chain[j] {
          assert rest[i - 1] != rest[j - 1];
        }
      } else {
        var i, j :| 0 <= i < j < |rest| && rest[i] == rest[j];
        assert chain[i + 1] == chain[j + 1];
      }
    }
  }

  /** The chain and its head pointer agree with the next and prev fields of its fids. */
  ghost predicate Linked(chain: seq<Npfid>, head: Npfid?)
    reads (set x | x in chain)`next, (set x | x in chain)`prev
  {
    && head == Head(chain)
    && (forall i {:trigger chain[i].next} {:trigger Succ(chain, i)} :: 0 <= i < |chain| ==>
         chain[i].next == Succ(chain, i))
    && (forall i {:trigger chain[i].prev} {:trigger Pred(chain, i)} :: 0 <= i < |chain| ==>
         chain[i].prev == Pred(chain, i))
  }

  /** The splice of np_fid_lookup: the fid at position i > 0 of the chain becomes its head. */
  method MoveToFront(f: Npfid, head: Npfid, ghost chain: seq<Npfid>, ghost i: nat)
    requires Linked(chain, head) && Distinct(chain) && 0 < i < |chain| && chain[i] == f
    modifies (set x | x in chain)`next, (set x | x in chain)`prev
    ensures Linked(ToFront(chain, i), f)
  {
    DistinctIndices(chain);
    assert f.prev == Pred(chain, i) && f.next == Succ(chain, i);
    if f.next != null { f.next.prev := f.prev; }
    f.prev.next := f.next;
    f.prev := null;
    f.next := head;
    head.prev := f;
    ghost var moved := ToFront(chain, i);
    forall k | 0 <= k < |moved| ensures moved[k].next == Succ(moved, k) && moved[k].prev == Pred(moved, k) {
      if k > i + 1 {
        assert moved[k] == chain[k] && moved[k - 1] == chain[k - 1];
      } else if k == i + 1 {
        assert moved[k] == chain[k] && moved[k - 1] == chain[i - 1];
      } else if k > 0 {
        assert moved[k] == chain[k - 1];
      }
    }
  }

  /** np_fid_create's insertion at the head of a chain. */
  method PushFront(f: Npfid, head: Npfid?, ghost chain: seq<Npfid>)
    requires Linked(chain, head) && Distinct(chain) && f !in chain && f.prev == null
    modifies f`next, (set x | x in chain)`prev
    ensures Linked([f] + chain, f)
  {
    DistinctIndices(chain);
    f.next := head;
    if head != null { head.prev := f; }
    ghost var all := [f] + chain;
    forall k | 0 <= k < |all| ensures all[k].next == Succ(all, k) && all[k].prev == Pred(all, k) {
      if k > 0 { assert all[k] == chain[k - 1]; }
    }
  }

  /** np_fid_destroy's removal from the middle of a chain; head is the head of the chain afterwards. */
  method Unlink(f: Npfid, head0: Npfid?, ghost chain: seq<Npfid>, ghost i: nat) returns (head: Npfid?)
    requires Linked(chain, head0) && Distinct(chain) && i < |chain| && chain[i] == f
    modifies (set x | x in chain)`next, (set x | x in chain)`prev
    ensures Linked(WithoutAt(chain, i), head)
  {
    DistinctIndices(chain);
    assert f.prev == Pred(chain, i) && f.next == Succ(chain, i);
    head := head0;
    if f.prev != null { f.prev.next := f.next; } else { head := f.next; }
    if f.next != null { f.next.prev := f.prev; }
    ghost var rest := WithoutAt(chain, i);
    forall k | 0 <= k < |rest| ensures rest[k].next == Succ(rest, k) && rest[k].prev == Pred(rest, k) {
      if k < i { assert rest[k] == chain[k]; } else { assert rest[k] == chain[k + 1]; }
    }
  }

  /** The chains hold every fid of the table once, each in the bucket of its number. */
  ghost predicate Shape(chains: seq<seq<Npfid>>, table: map<nat, Npfid>, fids: set<Npfid>) {
    && |chains| == HtableSize
    && (forall b, f :: 0 <= b < HtableSize && f in chains[b] ==> f in fids && f.fid % HtableSize == b)
    && (forall f :: f in fids ==> f in chains[f.fid % HtableSize] && f.fid in table && table[f.fid] == f)
    && (forall n :: n in table ==> table[n] in fids && table[n].fid == n)
    && (forall b :: 0 <= b < HtableSize ==> Distinct(chains[b]))
  }

  lemma ShapeAfterFront(chains: seq<seq<Npfid>>, table: map<nat, Npfid>, fids: set<Npfid>, hash: nat, i: nat)
    requires Shape(chains, table, fids) && hash < HtableSize && i < |chains[hash]|
    ensures Shape(chains[hash := ToFront(chains[hash], i)], table, fids)
  {
    var chain, moved := chains[hash], ToFront(chains[hash], i);
    forall f ensures f in moved <==> f in chain {
      if f in chain { var k :| 0 <= k < |chain| && chain[k] == f;
        assert moved[if k == i then 0 else if k < i then k + 1 else k] == f; }
    }
    DistinctIndices(chain);
    DistinctIndices(moved);
  }

  lemma ShapeAfterPush(chains: seq<seq<Npfid>>, table: map<nat, Npfid>, fids: set<Npfid>, f: Npfid)
    requires Shape(chains, table, fids) && f.fid !in table
    ensures var hash := f.fid % HtableSize;
      Shape(chains[hash := [f] + chains[hash]], table[f.fid := f], fids + {f})
  {
    var hash := f.fid % HtableSize;
    assert forall x :: x in [f] + chains[hash] <==> x == f || x in chains[hash];
    DistinctIndices(chains[hash]);
    DistinctIndices([f] + chains[hash]);
    assert forall k :: 0 <= k < |chains[hash]| ==> chains[hash][k] in chains[hash];
  }

  lemma ShapeAfterDrop(chains: seq<seq<Npfid>>, table: map<nat, Npfid>, fids: set<Npfid>, f: Npfid, i: nat)
    requires Shape(chains, table, fids) && f in fids
    requires var hash := f.fid % HtableSize; i < |chains[hash]| && chains[hash][i] == f
    ensures var hash := f.fid % HtableSize;
      Shape(chains[hash := WithoutAt(chains[hash], i)], table - {f.fid}, fids - {f})
  {
    var hash := f.fid % HtableSize;
    var chain, rest := chains[hash], WithoutAt(chains[hash], i);
    DistinctIndices(chain);
    DistinctIndices(rest);
    assert f in chain;
    forall x ensures x in rest <==> x in chain && x != f {
      if x in chain && x != f {
        var k :| 0 <= k < |chain| && chain[k] == x;
        assert rest[if k < i then k else k - 1] == x;
      }
    }
  }

  /** The fids in the order np_fidpool_list meets them: bucket by bucket, each chain from its head. */
  function Listing<T>(chains: seq<seq<T>>): seq<T> {
    if chains == [] then [] else Listing(chains[..|chains| - 1]) + chains[|chains| - 1]
  }

  lemma {:induction false} ListingMembers<T>(chains: seq<seq<T>>, x: T)
    ensures x in Listing(chains) <==> exists b :: 0 <= b < |chains| && x in chains[b]
  {
    if chains != [] {
      ListingMembers(chains[..|chains| - 1], x);
    }
  }

  lemma {:induction false} ListingDistinct(chains: seq<seq<Npfid>>)
    requires forall b :: 0 <= b < |chains| ==> Distinct(chains[b])
    requires forall b, c, x :: 0 <= b < c < |chains| && x in chains[b] ==> x !in chains[c]
    ensures Distinct(Listing(chains))
  {
    if chains != [] {
      var pre, last := chains[..|chains| - 1], chains[|chains| - 1];
      ListingDistinct(pre);
      DistinctIndices(Listing(pre));
      DistinctIndices(last);
      DistinctIndices(Listing(chains));
      forall i, j | 0 <= i < |Listing(pre)| && 0 <= j < |last| ensures Listing(pre)[i] != last[j] {
        ListingMembers(pre, Listing(pre)[i]);
        assert last[j] in last;
      }
    }
  }

  lemma {:induction false} CountOfDistinct(s: seq<Npfid>, keys: set<nat>)
    requires forall i, j :: 0 <= i < j < |s| ==> s[i].fid != s[j].fid
    requires forall i :: 0 <= i < |s| ==> s[i].fid in keys
    requires forall k :: k in keys ==> exists i :: 0 <= i < |s| && s[i].fid == k
    ensures |s| == |keys|
  {
    if s == [] {
      assert keys == {};
    } else {
      var k := s[0].fid;
      forall n | n in keys - {k} ensures exists i :: 0 <= i < |s[1..]| && s[1..][i].fid == n {
        var i :| 0 <= i < |s| && s[i].fid == n;
        assert s[1..][i - 1].fid == n;
      }
      CountOfDistinct(s[1..], keys - {k});
    }
  }

  lemma {:induction false} ListingIsFids(chains: seq<seq<Npfid>>, table: map<nat, Npfid>, fids: set<Npfid>)
    requires Shape(chains, table, fids)
    ensures (forall f :: f in Listing(chains) ==> f in fids) && forall f :: f in fids ==> f in Listing(chains)
  {
    forall f | f in Listing(chains) ensures f in fids { ListingMembers(chains, f); }
    forall f | f in fids ensures f in Listing(chains) { ListingMembers(chains, f); }
  }

  lemma {:induction false} ListingIsDistinct(chains: seq<seq<Npfid>>, table: map<nat, Npfid>, fids: set<Npfid>)
    requires Shape(chains, table, fids)
    ensures Distinct(Listing(chains))
  {
    forall b, c, x | 0 <= b < c < |chains| && x in chains[b] ensures x !in chains[c] {
      assert x.fid % HtableSize == b;
    }
    ListingDistinct(chains);
  }

  /** np_fidpool_list meets every fid of the table, and meets it once. */
  lemma {:induction false} ListingEnumerates(chains: seq<seq<Npfid>>, table: map<nat, Npfid>, fids: set<Npfid>)
    requires Shape(chains, table, fids)
    ensures Distinct(Listing(chains)) && |Listing(chains)| == |table|
    ensures (forall f :: f in Listing(chains) ==> f in fids) && forall f :: f in fids ==> f in Listing(chains)
  {
    ListingIsDistinct(chains, table, fids);
    ListingIsFids(chains, table, fids);
    var all := Listing(chains);
    DistinctIndices(all);
    forall i, j | 0 <= i < j < |all| ensures all[i].fid != all[j].fid {
      assert all[i] in all && all[j] in all;
      assert table[all[i].fid] == all[i] && table[all[j].fid] == all[j];
    }
    forall k | k in table.Keys ensures exists i :: 0 <= i < |all| && all[i].fid == k {
      assert table[k] in all;
    }
    forall i | 0 <= i < |all| ensures all[i].fid in table.Keys { assert all[i] in all; }
    CountOfDistinct(all, table.Keys);
  }

  class Pool {
    const htable: array<Npfid?>
    ghost var chains: seq<seq<Npfid>>
    /** What the table means: the fid each number in use stands for. */
    ghost var table: map<nat, Npfid>
    ghost var fids: set<Npfid>

    /** The first n chains are linked, and all of them together hold the fids of the table. */
    ghost predicate Buckets(n: nat)
      requires n <= |chains| == htable.Length
      reads this, htable, fids`next, fids`prev
    {
      if n == 0 then Shape(chains, table, fids)
      else
        && Buckets(n - 1)
        && (forall f :: f in chains[n - 1] ==> f in fids)
        && Linked(chains[n - 1], htable[n - 1])
    }

    ghost predicate Valid()
      reads this, htable, fids`next, fids`prev
    {
      htable.Length == |chains| == HtableSize && Buckets(|chains|)
    }

    /** What Valid says, bucket by bucket. */
    ghost predicate Sound()
      reads this, htable, fids`next, fids`prev
    {
      && htable.Length == HtableSize && Shape(chains, table, fids)
      && forall b :: 0 <= b < HtableSize ==> Linked(chains[b], htable[b])
    }

    lemma {:induction false} BucketsMean(n: nat)
      requires n <= |chains| == htable.Length
      ensures Buckets(n) <==>
        && Shape(chains, table, fids)
        && (forall b :: 0 <= b < n ==> (forall f :: f in chains[b] ==> f in fids) && Linked(chains[b], htable[b]))
    {
      if n > 0 { BucketsMean(n - 1); }
    }

    lemma ValidMeans()
      ensures Valid() <==> Sound()
    {
      if htable.Length == |chains| { BucketsMean(|chains|); }
    }

    lemma InTable(f: Npfid)
      requires Valid() && f in fids
      ensures f.fid in table && table[f.fid] == f
    {
      ValidMeans();
    }

    constructor ()
      ensures Valid() && table == map[] && fids == {} && fresh(htable)
      ensures chains == seq(HtableSize, _ => [])
    {
      htable := new Npfid?[HtableSize](_ => null);
      chains := seq(HtableSize, _ => []);
      table := map[];
      fids := {};
      new;
      ValidMeans();
    }

    /** Only chain number hash, its head pointer and the links of its fids have changed. */
    twostate predicate OnlyChain(hash: nat, was: set<Npfid>)
      requires hash < |old(chains)| && hash < |chains|
      reads this, htable, was
    {
      && chains == old(chains)[hash := chains[hash]]
      && (forall b :: 0 <= b < htable.Length && b != hash ==> htable[b] == old(htable[b]))
      && (forall f :: f in was && f !in old(chains[hash]) ==> f.next == old(f.next) && f.prev == old(f.prev))
    }

    /** Relinking the fids of one chain leaves the other chains as they were. */
    twostate lemma Relinked(hash: nat)
      requires old(Sound()) && hash < HtableSize && Shape(chains, table, fids)
      requires OnlyChain(hash, old(fids)) && Linked(chains[hash], htable[hash])
      ensures Valid()
    {
      forall b | 0 <= b < HtableSize && b != hash ensures Linked(chains[b], htable[b]) {
        var c := chains[b];
        assert old(Linked(chains[b], htable[b]));
        forall i | 0 <= i < |c| ensures c[i].next == old(c[i].next) && c[i].prev == old(c[i].prev) {
          assert c[i] in old(chains[b]) && c[i] in old(fids);
        }
      }
      ValidMeans();
    }

    /** The walk along one chain; i is where it stops. */
    method Search(fid: nat, hash: nat) returns (f: Npfid?, ghost i: nat)
      requires Valid() && hash == fid % HtableSize
      ensures f == if fid in table then table[fid] else null
      ensures f != null ==> i < |chains[hash]| && chains[hash][i] == f
    {
      ValidMeans();
      ghost var chain := chains[hash];
      i := 0;
      f := htable[hash];
      assert Linked(chain, f);
      while f != null && f.fid != fid
        invariant 0 <= i <= |chain| && f == (if i < |chain| then chain[i] else null)
        invariant forall k :: 0 <= k < i ==> chain[k].fid != fid
        decreases |chain| - i
      {
        assert chain[i].next == Succ(chain, i);
        f := f.next;
        i := i + 1;
      }
      if f != null { assert f in chain; }
    }

    /** The fid found at position i of its chain becomes the head. */
    method Front(f: Npfid, hash: nat, ghost i: nat)
      requires hash < HtableSize == htable.Length == |chains| && i < |chains[hash]| && chains[hash][i] == f
      requires Linked(chains[hash], htable[hash]) && Distinct(chains[hash])
      requires forall x :: x in chains[hash] ==> x in fids
      modifies this`chains, htable, fids`next, fids`prev
      ensures chains == old(chains)[hash := ToFront(old(chains[hash]), i)]
      ensures OnlyChain(hash, old(fids)) && Linked(chains[hash], htable[hash])
    {
      ghost var chain := chains[hash];
      chains := chains[hash := ToFront(chain, i)];
      if f != htable[hash] {
        MoveToFront(f, htable[hash], chain, i);
        htable[hash] := f;
      } else {
        assert i == 0;
        assert ToFront(chain, i) == chain;
      }
    }

    /** np_fid_lookup. */
    method Lookup(fid: nat, hash: nat) returns (r: Npfid?)
      requires Valid() && hash == fid % HtableSize
      modifies this`chains, htable, fids`next, fids`prev
      ensures Valid() && table == old(table) && fids == old(fids)
      ensures r == if fid in table then table[fid] else null
      ensures fid !in table ==> chains == old(chains)
      ensures fid in table ==> Fronted(old(chains[hash]), chains[hash], r)
      ensures fid in table ==> chains == old(chains)[hash := chains[hash]]
    {
      ValidMeans();
      ghost var i;
      r, i := Search(fid, hash);
      if r == null { return; }
      ShapeAfterFront(chains, table, fids, hash, i);
      Front(r, hash, i);
      Relinked(hash);
    }

    method Find(fid: nat) returns (r: Npfid?)
      requires Valid()
      modifies this`chains, htable, fids`next, fids`prev
      ensures Valid() && table == old(table) && fids == old(fids)
      ensures r == if fid in table then table[fid] else null
      ensures r != null ==> r in fids && r.fid == fid
    {
      ValidMeans();
      r := Lookup(fid, fid % HtableSize);
    }

    /** np_fid_create: the fid in use under this number, or a new one at the head of its chain. */
    method Create(fid: nat, aux: Aux) returns (r: Npfid)
      requires Valid()
      modifies this, htable, fids`next, fids`prev
      ensures Valid() && r in fids && r.fid == fid
      ensures fid in old(table) ==> r == old(table)[fid] && table == old(table) && fids == old(fids)
      ensures fid !in old(table) ==> fresh(r) && table == old(table)[fid := r] && fids == old(fids) + {r}
      ensures fid !in old(table) ==> chains == old(chains)[fid % HtableSize := [r] + old(chains)[fid % HtableSize]]
      ensures fid !in old(table) ==> r.fid == fid && r.refcount == 0
      ensures fid !in old(table) ==> r.omode == Onotopen && r.typ == 0 && r.diroffset == 0 && r.aux == aux
    {
      var hash := fid % HtableSize;
      ValidMeans();
      var f := Lookup(fid, hash);
      if f != null { return f; }
      r := new Npfid(fid, aux);
      Insert(r);
    }

    method Insert(f: Npfid)
      requires Valid() && f.fid !in table && f.prev == null
      modifies this, htable, f`next, fids`prev
      ensures Valid() && table == old(table)[f.fid := f] && fids == old(fids) + {f}
      ensures chains == old(chains)[f.fid % HtableSize := [f] + old(chains)[f.fid % HtableSize]]
    {
      ValidMeans();
      ShapeAfterPush(chains, table, fids, f);
      Attach(f, f.fid % HtableSize);
      table := table[f.fid := f];
      fids := fids + {f};
      Relinked(f.fid % HtableSize);
    }

    method Attach(f: Npfid, hash: nat)
      requires hash < HtableSize == htable.Length == |chains| && f !in fids && f.prev == null
      requires Linked(chains[hash], htable[hash]) && Distinct(chains[hash])
      requires forall x :: x in chains[hash] ==> x in fids
      modifies this`chains, htable, f`next, fids`prev
      ensures chains == old(chains)[hash := [f] + old(chains[hash])]
      ensures OnlyChain(hash, old(fids)) && Linked(chains[hash], htable[hash])
    {
      ghost var chain := chains[hash];
      PushFront(f, htable[hash], chain);
      htable[hash] := f;
      chains := chains[hash := [f] + chain];
    }

    /** np_fid_destroy, as far as the table goes. */
    method Destroy(f: Npfid)
      requires Valid() && f in fids
      modifies this, htable, fids`next, fids`prev
      ensures Valid() && table == old(table) - {f.fid} && fids == old(fids) - {f}
    {
      ValidMeans();
      ghost var i := Position(f);
      Detach(f, f.fid % HtableSize, i);
      Relinked(f.fid % HtableSize);
    }

    lemma Position(f: Npfid) returns (i: nat)
      requires Valid() && f in fids
      ensures var hash := f.fid % HtableSize;
        && i < |chains[hash]| && chains[hash][i] == f
        && Shape(chains[hash := WithoutAt(chains[hash], i)], table - {f.fid}, fids - {f})
    {
      ValidMeans();
      i :| 0 <= i < |chains[f.fid % HtableSize]| && chains[f.fid % HtableSize][i] == f;
      ShapeAfterDrop(chains, table, fids, f, i);
    }

    method Detach(f: Npfid, hash: nat, ghost i: nat)
      requires hash < HtableSize == htable.Length == |chains| && i < |chains[hash]| && chains[hash][i] == f
      requires Linked(chains[hash], htable[hash]) && Distinct(chains[hash])
      requires forall x :: x in chains[hash] ==> x in fids
      modifies this, htable, fids`next, fids`prev
      ensures chains == old(chains)[hash := WithoutAt(old(chains[hash]), i)]
      ensures OnlyChain(hash, old(fids)) && Linked(chains[hash], htable[hash])
      ensures table == old(table) - {f.fid} && fids == old(fids) - {f}
    {
      ghost var chain := chains[hash];
      var head := Unlink(f, htable[hash], chain, i);
      htable[hash] := head;
      chains := chains[hash := WithoutAt(chain, i)];
      table := table - {f.fid};
      fids := fids - {f};
    }

    method Incref(f: Npfid)
      requires Valid() && f in fids
      modifies f`refcount
      ensures Valid() && f.refcount == old(f.refcount) + 1
    {
      f.refcount := f.refcount + 1;
    }

    /** What ufs_restore sets on a fid it has created. */
    method SetState(f: Npfid, omode: nat, typ: nat, diroffset: nat, uid: nat, aux: Aux)
      requires Valid() && f in fids
      modifies f`omode, f`typ, f`diroffset, f`uid, f`aux
      ensures Valid()
      ensures f.omode == omode && f.typ == typ && f.diroffset == diroffset && f.uid == uid && f.aux == aux
    {
      f.omode, f.typ, f.diroffset, f.uid, f.aux := omode, typ, diroffset, uid, aux;
    }

    /** np_fid_decref: the fid leaves the table when its count comes to zero, and only then. */
    method Decref(f: Npfid)
      requires Valid() && f in fids
      modifies this, htable, fids`next, fids`prev, f`refcount
      ensures Valid() && f.refcount == old(f.refcount) - 1
      ensures table == if f.refcount == 0 then old(table) - {f.fid} else old(table)
      ensures fids == if f.refcount == 0 then old(fids) - {f} else old(fids)
      ensures f.refcount != 0 ==> chains == old(chains)
    {
      f.refcount := f.refcount - 1;
      if f.refcount == 0 { Destroy(f); }
    }

    method Count() returns (ret: nat)
      requires Valid()
      ensures ret == |table|
    {
      ValidMeans();
      ret := 0;
      for i := 0 to htable.Length
        invariant ret == |Listing(chains[..i])|
      {
        ghost var j := 0;
        var f := htable[i];
        assert Linked(chains[i], f);
        while f != null
          invariant 0 <= j <= |chains[i]| && f == (if j < |chains[i]| then chains[i][j] else null)
          invariant ret == |Listing(chains[..i])| + j
          decreases |chains[i]| - j
        {
          ret := ret + 1;
          assert f.next == Succ(chains[i], j);
          f := f.next;
          j := j + 1;
        }
        assert chains[..i + 1][..i] == chains[..i];
      }
      assert chains[..HtableSize] == chains;
      ListingEnumerates(chains, table, fids);
    }

    /** np_fidpool_list: the first count fids of the listing, each with one more reference. */
    method List(count: nat) returns (list: seq<Npfid>)
      requires Valid()
      modifies fids`refcount
      ensures Valid()
      ensures list == Upto(Listing(chains), count)
      ensures forall f :: f in fids ==> f.refcount == old(f.refcount) + multiset(list)[f]
    {
      list := [];
      for i := 0 to htable.Length
        invariant Valid() && list == Upto(Listing(chains[..i]), count)
        invariant forall f :: f in fids ==> f.refcount == old(f.refcount) + multiset(list)[f]
      {
        list := ListChain(list, count, i, Listing(chains[..i]));
        assert chains[..i + 1][..i] == chains[..i];
      }
      assert chains[..HtableSize] == chains;
    }

    lemma ChainLinked(i: nat)
      requires Valid() && i < HtableSize
      ensures i < htable.Length == |chains| && Linked(chains[i], htable[i]) && forall x :: x in chains[i] ==> x in fids
    {
      ValidMeans();
    }

    /** The part of np_fidpool_list that follows one chain; pre is what the chains before it list. */
    method ListChain(list0: seq<Npfid>, count: nat, i: nat, ghost pre: seq<Npfid>) returns (list: seq<Npfid>)
      requires Valid() && i < HtableSize && list0 == Upto(pre, count)
      modifies fids`refcount
      ensures Valid() && list == Upto(pre + chains[i], count)
      ensures forall f :: f in fids ==> f.refcount + multiset(list0)[f] == old(f.refcount) + multiset(list)[f]
    {
      ChainLinked(i);
      ghost var chain := chains[i];
      list := CollectChain(htable[i], chain, list0, count);
      UptoChain(list0, pre, chain, count, |list| - |list0|);
      OnlyOfChain(list0, chain, |list| - |list0|);
    }
  }

  method CollectChain(head: Npfid?, ghost chain: seq<Npfid>, list0: seq<Npfid>, count: nat) returns (list: seq<Npfid>)
    requires Linked(chain, head)
    modifies (set x | x in chain)`refcount
    ensures list0 <= list && |list| - |list0| <= |chain| && list == list0 + chain[..|list| - |list0|]
    ensures |list| > |list0| ==> |list| <= count
    ensures |list| - |list0| < |chain| ==> |list| >= count
    ensures forall x :: x in chain ==> x.refcount + multiset(list0)[x] == old(x.refcount) + multiset(list)[x]
  {
    list := list0;
    ghost var j := 0;
    var f := head;
    while f != null && |list| < count
      invariant 0 <= j <= |chain| && f == At(chain, j)
      invariant Linked(chain, head) && list == list0 + chain[..j]
      invariant j > 0 ==> |list| <= count
      invariant forall x :: x in chain ==> x.refcount + multiset(list0)[x] == old(x.refcount) + multiset(list)[x]
      decreases |chain| - j
    {
      f.refcount := f.refcount + 1;
      assert f.next == Succ(chain, j);
      TakeNext(list0, chain, j);
      list := list + [f];
      f := f.next;
      j := j + 1;
    }
  }

  lemma UptoChain<T>(list: seq<T>, pre: seq<T>, chain: seq<T>, count: nat, j: nat)
    requires j <= |chain| && list == Upto(pre, count)
    requires j > 0 ==> |list| + j <= count
    requires j < |chain| ==> |list| + j >= count
    ensures list + chain[..j] == Upto(pre + chain, count)
  {
    if j < |chain| {
      assert |list| + j == count || j == 0;
    } else {
      assert chain[..j] == chain;
    }
  }

  lemma OnlyOfChain<T>(list: seq<T>, chain: seq<T>, j: nat)
    requires j <= |chain|
    ensures forall x :: x !in chain ==> multiset(list + chain[..j])[x] == multiset(list)[x]
  {
  }

  lemma TakeNext<T>(pre: seq<T>, chain: seq<T>, j: nat)
    requires j < |chain|
    ensures pre + chain[..j + 1] == (pre + chain[..j]) + [chain[j]]
  {
  }

  function Upto<T>(s: seq<T>, count: nat): seq<T> { if count < |s| then s[..count] else s }
}
