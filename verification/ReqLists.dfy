/** The two request lists of libnpfs/srv.c in memory, relinked in place: the queue from reqs_first to reqs_last, and
    workreqs. Each critical section is proved against the sequences the engine works on. */
module ReqLists {
  import opened Bytes
  import E = Engine
  import F = Flushes

  /** The memory of a request, which np_req_alloc hands out again for another one when the request is given back. Of
      what is in it, flushreq is all that is ever read through a pointer to the former request. */
  class Cell {
    var flushreq: Req?

    constructor ()
      ensures flushreq == null
    {
      flushreq := null;
    }
  }

  class Req {
    const id: nat
    const conn: nat
    const tag: nat
    const kind: E.Kind
    const cell: Cell
    var next: Req?
    var prev: Req?

    /** np_req_alloc, with the memory found. */
    constructor (id: nat, conn: nat, tag: nat, kind: E.Kind, cell: Cell)
      ensures this.id == id && this.conn == conn && this.tag == tag && this.kind == kind && this.cell == cell
      ensures next == null && prev == null
    {
      this.id := id;
      this.conn := conn;
      this.tag := tag;
      this.kind := kind;
      this.cell := cell;
      next, prev := null, null;
    }
  }

  function Succ(list: seq<Req>, i: nat): Req?
    requires i < |list|
  {
    if i + 1 < |list| then list[i + 1] else null
  }

  function Pred(list: seq<Req>, i: nat): Req?
    requires i < |list|
  {
    if i > 0 then list[i - 1] else null
  }

  function Head(list: seq<Req>): Req? { if list == [] then null else list[0] }

  function Last(list: seq<Req>): Req? { if list == [] then null else list[|list| - 1] }

  ghost function Members(list: seq<Req>): set<Req> { set x | x in list }

  /** The first n requests of the list point at their neighbours. */
  ghost predicate LinkedUpTo(list: seq<Req>, n: nat)
    requires n <= |list|
    reads (set x | x in list)`next, (set x | x in list)`prev
  {
    n == 0 || (LinkedUpTo(list, n - 1)
               && list[n - 1].next == Succ(list, n - 1) && list[n - 1].prev == Pred(list, n - 1))
  }

  ghost predicate Linked(list: seq<Req>)
    reads (set x | x in list)`next, (set x | x in list)`prev
  {
    LinkedUpTo(list, |list|)
  }

  lemma {:induction false} LinkedMeans(list: seq<Req>, n: nat)
    requires n <= |list|
    ensures LinkedUpTo(list, n) <==>
      && (forall i {:trigger list[i].next} {:trigger Succ(list, i)} :: 0 <= i < n ==> list[i].next == Succ(list, i))
      && (forall i {:trigger list[i].prev} {:trigger Pred(list, i)} :: 0 <= i < n ==> list[i].prev == Pred(list, i))
  {
    if n > 0 { LinkedMeans(list, n - 1); }
  }

  /** What np_srv_remove_req and np_srv_remove_workreq do to the neighbours. */
  method Splice(req: Req, ghost list: seq<Req>, ghost i: nat)
    requires Linked(list) && E.Distinct(list) && i < |list| && list[i] == req
    modifies Members(list)`next, Members(list)`prev
    ensures Linked(WithoutAt(list, i)) && req.next == Succ(list, i) && req.prev == Pred(list, i)
  {
    LinkedMeans(list, |list|);
    if req.prev != null { req.prev.next := req.next; }
    if req.next != null { req.next.prev := req.prev; }
    ghost var rest := WithoutAt(list, i);
    forall k | 0 <= k < |rest| ensures rest[k].next == Succ(rest, k) && rest[k].prev == Pred(rest, k) {
      if k < i { assert rest[k] == list[k]; } else { assert rest[k] == list[k + 1]; }
    }
    LinkedMeans(rest, |rest|);
  }

  method Append(req: Req, last: Req?, ghost list: seq<Req>)
    requires Linked(list) && E.Distinct(list) && req !in list && last == Last(list) && req.next == null
    modifies req`prev, Members(list)`next
    ensures Linked(list + [req])
  {
    LinkedMeans(list, |list|);
    req.prev := last;
    if last != null { last.next := req; }
    ghost var all := list + [req];
    forall k | 0 <= k < |all| ensures all[k].next == Succ(all, k) && all[k].prev == Pred(all, k) {
      if k < |list| { assert all[k] == list[k]; }
    }
    LinkedMeans(all, |all|);
  }

  method Push(req: Req, head: Req?, ghost list: seq<Req>)
    requires Linked(list) && E.Distinct(list) && req !in list && head == Head(list)
    modifies req`next, req`prev, Members(list)`prev
    ensures Linked([req] + list)
  {
    LinkedMeans(list, |list|);
    if head != null { head.prev := req; }
    req.next := head;
    req.prev := null;
    ghost var all := [req] + list;
    forall k | 0 <= k < |all| ensures all[k].next == Succ(all, k) && all[k].prev == Pred(all, k) {
      if k > 0 { assert all[k] == list[k - 1]; }
    }
    LinkedMeans(all, |all|);
  }

  lemma {:induction false} CutIsWithout(list: seq<Req>, i: nat)
    requires E.Distinct(list) && i < |list|
    ensures WithoutAt(list, i) == E.Without(list, {list[i]})
  {
    var rest := list[1..];
    if i == 0 {
      WithoutNone(rest, {list[0]});
    } else {
      CutIsWithout(rest, i - 1);
      assert WithoutAt(list, i) == [list[0]] + WithoutAt(rest, i - 1);
    }
  }

  lemma CutKeeps(list: seq<Req>, i: nat)
    requires E.Distinct(list) && i < |list|
    ensures var rest := WithoutAt(list, i);
      && E.Distinct(rest) && (forall x :: x in rest ==> x in list && x != list[i])
      && Head(rest) == (if list[i] == Head(list) then Succ(list, i) else Head(list))
      && Last(rest) == (if list[i] == Last(list) then Pred(list, i) else Last(list))
      && (Pred(list, i) == null <==> list[i] == Head(list))
  {
  }

  lemma {:induction false} WithoutNone<T>(list: seq<T>, drop: set<T>)
    requires forall x :: x in drop ==> x !in list
    ensures E.Without(list, drop) == list
  {
    if list != [] {
      assert list[0] in list && forall x :: x in list[1..] ==> x in list;
      WithoutNone(list[1..], drop);
    }
  }

  lemma {:induction false} WithoutTwice<T>(list: seq<T>, a: set<T>, b: set<T>)
    ensures E.Without(E.Without(list, a), b) == E.Without(list, a + b)
  {
    if list != [] { WithoutTwice(list[1..], a, b); }
  }

  lemma {:induction false} WithoutConcat<T>(s: seq<T>, t: seq<T>, drop: set<T>)
    ensures E.Without(s + t, drop) == E.Without(s, drop) + E.Without(t, drop)
  {
    if s == [] {
      assert s + t == t;
    } else {
      assert (s + t)[1..] == s[1..] + t;
      WithoutConcat(s[1..], t, drop);
    }
  }

  function Ids(list: seq<Req>): (r: seq<nat>)
    ensures |r| == |list| && forall i :: 0 <= i < |list| ==> r[i] == list[i].id
  {
    seq(|list|, i requires 0 <= i < |list| => list[i].id)
  }

  lemma {:induction false} MembersWithout(list: seq<Req>, drop: set<Req>)
    ensures Members(E.Without(list, drop)) == Members(list) - drop
  {
    if list != [] {
      MembersWithout(list[1..], drop);
      MembersCons(list[0], list[1..]);
      MembersCons(list[0], E.Without(list[1..], drop));
      assert list == [list[0]] + list[1..];
    }
  }

  lemma MembersStart(req: Req)
    ensures Members([]) + {req} == {} + {req}
  {
  }

  lemma MembersNext(done: seq<Req>, x: Req, rest: seq<Req>, req: Req)
    requires E.Distinct(done + ([x] + rest)) && req !in done + ([x] + rest)
    ensures Members(done + [x]) + {req} == Members(done) + {req} + {x}
    ensures x !in Members(done) + {req}
  {
    DistinctAround(done, x, rest);
    assert (done + ([x] + rest))[|done|] == x;
  }

  lemma MembersCons(req: Req, list: seq<Req>)
    ensures Members([req] + list) == Members(list) + {req}
  {
  }

  lemma {:induction false} IdsWithout(list: seq<Req>, drop: set<Req>, ids: set<nat>)
    requires forall x :: x in list ==> (x in drop <==> x.id in ids)
    ensures Ids(E.Without(list, drop)) == E.Without(Ids(list), ids)
  {
    if list != [] {
      var rest := list[1..];
      assert list[0] in list && forall x :: x in rest ==> x in list;
      IdsWithout(rest, drop, ids);
      assert Ids(list)[0] == list[0].id && Ids(list)[1..] == Ids(rest);
      if list[0] !in drop {
        assert Ids([list[0]] + E.Without(rest, drop)) == [list[0].id] + Ids(E.Without(rest, drop));
      }
    }
  }

  lemma IdsOnce(list: seq<Req>, x: Req, y: Req)
    requires E.Distinct(Ids(list)) && x in list && y in list && x.id == y.id
    ensures x == y
  {
    var i :| 0 <= i < |list| && list[i] == x;
    var j :| 0 <= j < |list| && list[j] == y;
    assert Ids(list)[i] == Ids(list)[j];
  }

  lemma IdsMember(list: seq<Req>, x: Req)
    requires x in list
    ensures x.id in Ids(list)
  {
    var i :| 0 <= i < |list| && list[i] == x;
    assert Ids(list)[i] == x.id;
  }

  predicate Named(x: Req, conn: nat, tag: nat) { x.conn == conn && x.tag == tag }

  function FirstNamed(list: seq<Req>, conn: nat, tag: nat): (r: Option<Req>)
    ensures r.Some? ==> r.value in list && Named(r.value, conn, tag)
  {
    if list == [] then None else if Named(list[0], conn, tag) then Some(list[0]) else FirstNamed(list[1..], conn, tag)
  }

  lemma {:induction false} FirstNamedIs(list: seq<Req>, conn: nat, tag: nat, i: nat)
    requires i <= |list| && forall k :: 0 <= k < i ==> !Named(list[k], conn, tag)
    requires i < |list| ==> Named(list[i], conn, tag)
    ensures FirstNamed(list, conn, tag) == if i < |list| then Some(list[i]) else None
  {
    if i > 0 { FirstNamedIs(list[1..], conn, tag, i - 1); }
  }

  /** The queue without the target of a Tflush. */
  function LeftQueued(queue: seq<Req>, q: Option<Req>): seq<Req> {
    if q.Some? then E.Without(queue, {q.value}) else queue
  }

  /** The search loop of np_flush, on either list. */
  method Find(first: Req?, conn: nat, tag: nat, ghost list: seq<Req>) returns (r: Req?)
    requires Linked(list) && first == Head(list)
    ensures FirstNamed(list, conn, tag) == if r == null then None else Some(r)
  {
    LinkedMeans(list, |list|);
    r := first;
    ghost var i := 0;
    while r != null && !Named(r, conn, tag)
      invariant i <= |list| && r == (if i < |list| then list[i] else null)
      invariant forall k :: 0 <= k < i ==> !Named(list[k], conn, tag)
      decreases |list| - i
    {
      r := r.next;
      i := i + 1;
    }
    FirstNamedIs(list, conn, tag, i);
  }

  lemma {:induction false} WithoutFirst(list: seq<Req>)
    requires E.Distinct(list) && list != []
    ensures E.Without(list, {list[0]}) == list[1..]
  {
    WithoutNone(list[1..], {list[0]});
  }

  /** The requests of the connection. */
  function OfConn(list: seq<Req>, conn: nat): set<Req> { set x | x in list && x.conn == conn }

  function Cells(list: seq<Req>): set<Cell> { set x | x in list :: x.cell }

  /** The list of Tflushes that starts at flushreq. */
  ghost predicate Flushlist(first: Req?, chain: seq<Req>)
    reads (set x | x in chain :: x.cell)`flushreq
    decreases |chain|
  {
    if chain == [] then first == null else first == chain[0] && Flushlist(chain[0].cell.flushreq, chain[1..])
  }

  /** A list that is linked through next alone. */
  ghost predicate Stacked(first: Req?, list: seq<Req>)
    reads (set x | x in list)`next
    decreases |list|
  {
    if list == [] then first == null else first == list[0] && Stacked(list[0].next, list[1..])
  }

  /** The requests done have been looked at, those in rest not; gone are the former ones of the connection. */
  ghost predicate Sweeping(queue: seq<Req>, done: seq<Req>, rest: seq<Req>, gone: set<Req>, conn: nat) {
    queue == E.Without(done, gone) + rest && gone == set x | x in done && x.conn == conn
  }

  lemma Regroup<T>(a: seq<T>, b: seq<T>)
    requires b != []
    ensures b == [b[0]] + b[1..] && a + b == (a + [b[0]]) + b[1..]
  {
  }

  lemma EmptyTail<T>(a: seq<T>)
    ensures a + [] == a
  {
  }

  lemma EmptyHead<T>(a: seq<T>)
    ensures [] + a == a
  {
  }

  lemma DistinctAround(done: seq<Req>, req: Req, rest: seq<Req>)
    requires E.Distinct(done + ([req] + rest))
    ensures req !in done && req !in rest && forall x :: x in done ==> x !in [req] + rest
  {
    var all := done + ([req] + rest);
    assert all[|done|] == req;
    assert forall k :: 0 <= k < |done| ==> all[k] == done[k];
    assert forall k :: 0 <= k < |rest| ==> all[|done| + 1 + k] == rest[k];
  }

  lemma {:induction false} WithoutAll(req: Req, gone: set<Req>)
    requires req in gone
    ensures E.Without([req], gone) == []
  {
    assert [req][1..] == [];
  }

  lemma SweepKeeps(queue: seq<Req>, done: seq<Req>, req: Req, rest: seq<Req>, gone: set<Req>, conn: nat)
    requires Sweeping(queue, done, [req] + rest, gone, conn) && req.conn != conn
    ensures Sweeping(queue, done + [req], rest, gone, conn)
  {
    WithoutConcat(done, [req], gone);
    WithoutNone([req], gone);
    assert E.Without(done, gone) + ([req] + rest) == (E.Without(done, gone) + [req]) + rest;
  }

  lemma {:induction false} SweepDrops(queue: seq<Req>, done: seq<Req>, req: Req, rest: seq<Req>, gone: set<Req>,
                                      conn: nat)
    requires Sweeping(queue, done, [req] + rest, gone, conn) && req.conn == conn && req !in done && req !in rest
    ensures Sweeping(E.Without(queue, {req}), done + [req], rest, gone + {req}, conn)
  {
    var kept := E.Without(done, gone);
    E.WithoutMembers(done, gone);
    WithoutConcat(kept, [req] + rest, {req});
    WithoutConcat([req], rest, {req});
    WithoutAll(req, {req});
    WithoutNone(kept, {req});
    WithoutNone(rest, {req});
    WithoutConcat(done, [req], gone + {req});
    WithoutAll(req, gone + {req});
    WithoutTwice(done, gone, {req});
    assert kept + [] == kept && [] + rest == rest;
  }

  lemma SweepApart(queue: seq<Req>, done: seq<Req>, rest: seq<Req>, gone: set<Req>, conn: nat)
    requires Sweeping(queue, done, rest, gone, conn) && forall x :: x in done ==> x !in rest
    ensures forall x :: x in gone ==> x !in queue
  {
    E.WithoutMembers(done, gone);
  }

  /** Some cells, and a Tflush with its target. */
  datatype Hanging = Hanging(cells: set<Cell>, f: Req, t: Req)

  /** The Tflush now stands in front of what hung on the target. */
  twostate predicate HungUp(h: Hanging)
    reads h.t.cell`flushreq, h.f.cell`flushreq, h.cells`flushreq
  {
    && h.t.cell.flushreq == h.f && (h.t.cell != h.f.cell ==> h.f.cell.flushreq == old(h.t.cell.flushreq))
    && forall c :: c in h.cells && c != h.t.cell && c != h.f.cell ==> c.flushreq == old(c.flushreq)
  }

  twostate predicate SamePointers(cells: set<Cell>)
    reads cells`flushreq
  {
    forall c :: c in cells ==> c.flushreq == old(c.flushreq)
  }

  class Srv {
    var reqsFirst: Req?
    var reqsLast: Req?
    var workreqs: Req?
    ghost var queue: seq<Req>
    ghost var work: seq<Req>
    /** Every request accepted so far, by its number, and the memory of them all. */
    ghost var all: seq<Req>
    ghost var cells: seq<Cell>

    ghost predicate QueueValid()
      reads this, queue
    {
      Linked(queue) && E.Distinct(queue) && reqsFirst == Head(queue) && reqsLast == Last(queue)
    }

    ghost predicate WorkValid()
      reads this, work
    {
      Linked(work) && E.Distinct(work) && workreqs == Head(work)
    }

    ghost predicate Valid()
      reads this, queue, work
    {
      QueueValid() && WorkValid() && forall x :: x in queue ==> x !in work
    }

    constructor ()
      ensures Valid() && queue == [] && work == [] && all == [] && cells == []
    {
      reqsFirst, reqsLast, workreqs, queue, work, all, cells := null, null, null, [], [], [], [];
    }

    /** np_srv_add_req. */
    method AddReq(req: Req)
      requires Valid() && req !in queue && req !in work && req.next == null
      modifies this`reqsFirst, this`reqsLast, this`queue, req`prev, Members(queue)`next
      ensures Valid() && queue == old(queue) + [req]
    {
      Append(req, reqsLast, queue);
      reqsLast := req;
      if reqsFirst == null { reqsFirst := req; }
      queue := queue + [req];
    }

    /** np_srv_remove_req. */
    method RemoveReq(req: Req)
      requires Valid() && req in queue
      modifies this`reqsFirst, this`reqsLast, this`queue, Members(queue)`next, Members(queue)`prev
      ensures Valid() && queue == E.Without(old(queue), {req})
    {
      ghost var i :| 0 <= i < |queue| && queue[i] == req;
      ghost var was := queue;
      Splice(req, queue, i);
      assert WorkValid();
      CutIsWithout(queue, i);
      CutKeeps(queue, i);
      queue := WithoutAt(queue, i);
      TakeOffEnds(req, was, i);
    }

    /** The queue has lost the request; its ends are still those from before. */
    method TakeOffEnds(req: Req, ghost was: seq<Req>, ghost i: nat)
      requires E.Distinct(was) && i < |was| && was[i] == req && queue == WithoutAt(was, i) && Linked(queue)
      requires reqsFirst == Head(was) && reqsLast == Last(was) && req.next == Succ(was, i) && req.prev == Pred(was, i)
      modifies this`reqsFirst, this`reqsLast
      ensures QueueValid()
    {
      CutKeeps(was, i);
      if req == reqsFirst { reqsFirst := req.next; }
      if req == reqsLast { reqsLast := req.prev; }
    }

    /** np_srv_add_workreq. */
    method AddWorkreq(req: Req)
      requires Valid() && req !in queue && req !in work
      modifies this`workreqs, this`work, req`next, req`prev, Members(work)`prev
      ensures Valid() && work == [req] + old(work)
    {
      Push(req, workreqs, work);
      workreqs := req;
      work := [req] + work;
    }

    /** np_srv_remove_workreq. */
    method RemoveWorkreq(req: Req)
      requires Valid() && req in work
      modifies this`workreqs, this`work, Members(work)`next, Members(work)`prev
      ensures Valid() && work == E.Without(old(work), {req})
    {
      ghost var i :| 0 <= i < |work| && work[i] == req;
      Splice(req, work, i);
      assert QueueValid();
      CutIsWithout(work, i);
      CutKeeps(work, i);
      assert Linked(WithoutAt(work, i));
      if req.prev == null { workreqs := req.next; }
      assert workreqs == Head(WithoutAt(work, i));
      work := WithoutAt(work, i);
    }

    /** A worker takes the first request of the queue. */
    method Take() returns (req: Req)
      requires Valid() && queue != []
      modifies this`reqsFirst, this`reqsLast, this`workreqs, this`queue, this`work
      modifies Members(queue)`next, Members(queue)`prev, Members(work)`prev
      ensures Valid() && req == old(queue[0]) && queue == old(queue)[1..] && work == [req] + old(work)
    {
      req := reqsFirst;
      WithoutFirst(queue);
      RemoveReq(req);
      AddWorkreq(req);
    }

    /** A Tflush is hung in front of the chain of its target. */
    method Hang(f: Req, t: Req)
      modifies f.cell`flushreq, t.cell`flushreq
      ensures t.cell.flushreq == f && (t.cell != f.cell ==> f.cell.flushreq == old(t.cell.flushreq))
    {
      f.cell.flushreq := t.cell.flushreq;
      t.cell.flushreq := f;
    }

    /** The critical section of np_flush: a target on the queue is dropped, and one on workreqs gets the Tflush
        on its chain, whatever request it is. */
    method Flush(f: Req) returns (answer: bool)
      requires Valid() && f in work && f.kind.Flush?
      modifies this`reqsFirst, this`reqsLast, this`queue, Members(queue)`next, Members(queue)`prev
      modifies Cells(work)`flushreq
      ensures Valid()
      ensures queue == LeftQueued(old(queue), FirstNamed(old(queue), f.conn, f.kind.oldtag))
      ensures answer <==>
        FirstNamed(old(queue), f.conn, f.kind.oldtag).Some? || FirstNamed(work, f.conn, f.kind.oldtag).None?
      ensures if answer then SamePointers(Cells(work))
        else HungUp(Hanging(Cells(work), f, FirstNamed(work, f.conn, f.kind.oldtag).value))
    {
      var creq := Find(reqsFirst, f.conn, f.kind.oldtag, queue);
      if creq != null {
        RemoveReq(creq);
        return true;
      }
      creq := Find(workreqs, f.conn, f.kind.oldtag, work);
      if creq != null {
        Hang(f, creq);
        return false;
      }
      return true;
    }

    /** One more request leaves workreqs. */
    method RemoveMore(req: Req, ghost was: seq<Req>, ghost gone: set<Req>)
      requires Valid() && work == E.Without(was, gone) && req in was && req !in gone
      modifies this`workreqs, this`work, Members(work)`next, Members(work)`prev
      ensures Valid() && work == E.Without(was, gone + {req}) && Members(work) <= Members(was)
    {
      E.WithoutMembers(was, gone);
      MembersWithout(was, gone);
      MembersWithout(was, gone + {req});
      WithoutTwice(was, gone, {req});
      RemoveWorkreq(req);
    }

    /** The second critical section of np_respond: the request and its whole chain leave workreqs. */
    method UnlinkAll(req: Req, ghost chain: seq<Req>)
      requires Valid() && req in work && Flushlist(req.cell.flushreq, chain)
      requires req !in chain && E.Distinct(chain) && Members(chain) <= Members(work)
      modifies this`workreqs, this`work, Members(work)`next, Members(work)`prev
      ensures Valid() && work == E.Without(old(work), Members(chain) + {req})
    {
      ghost var was := work;
      WithoutNone(work, {});
      RemoveMore(req, was, {});
      UnlinkChain(req.cell.flushreq, chain, req, was);
    }

    /** The loop along flushreq. */
    method UnlinkChain(first: Req?, ghost chain: seq<Req>, ghost req: Req, ghost was: seq<Req>)
      requires Valid() && Flushlist(first, chain) && req !in chain && E.Distinct(chain)
      requires Members(chain) <= Members(was)
      requires work == E.Without(was, {} + {req}) && Members(work) <= Members(was)
      modifies this`workreqs, this`work, Members(was)`next, Members(was)`prev
      ensures Valid() && work == E.Without(was, Members(chain) + {req})
    {
      var freq := first;
      ghost var done: seq<Req>, rest: seq<Req> := [], chain;
      EmptyHead(chain);
      MembersStart(req);
      while freq != null
        invariant chain == done + rest && Flushlist(freq, rest)
        invariant Valid() && work == E.Without(was, Members(done) + {req}) && Members(work) <= Members(was)
        decreases |rest|
      {
        ghost var more := rest[1..];
        Regroup(done, rest);
        freq := UnlinkOne(freq, chain, done, more, req, was);
        done, rest := done + [rest[0]], more;
      }
      EmptyTail(done);
    }

    method UnlinkOne(freq: Req, ghost chain: seq<Req>, ghost done: seq<Req>, ghost more: seq<Req>, ghost req: Req,
                     ghost was: seq<Req>)
      returns (next: Req?)
      requires chain == done + ([freq] + more) && Flushlist(freq, [freq] + more)
      requires Valid() && req !in chain && E.Distinct(chain) && Members(chain) <= Members(was)
      requires work == E.Without(was, Members(done) + {req}) && Members(work) <= Members(was)
      modifies this`workreqs, this`work, Members(was)`next, Members(was)`prev
      ensures Valid() && work == E.Without(was, Members(done + [freq]) + {req}) && Members(work) <= Members(was)
      ensures Flushlist(next, more)
    {
      assert chain[|done|] == freq && freq in Members(chain);
      MembersNext(done, freq, more, req);
      RemoveMore(freq, was, Members(done) + {req});
      next := freq.cell.flushreq;
      assert ([freq] + more)[1..] == more;
    }

    /** A request leaves the queue for the list preqs. */
    method Stack(req: Req, preqs: Req?, ghost gone: seq<Req>)
      requires Valid() && req in queue && Stacked(preqs, gone) && forall x :: x in gone ==> x !in queue
      modifies this`reqsFirst, this`reqsLast, this`queue, Members(queue)`next, Members(queue)`prev
      ensures Valid() && queue == E.Without(old(queue), {req}) && Stacked(req, [req] + gone)
    {
      E.WithoutMembers(queue, {req});
      RemoveReq(req);
      req.next := preqs;
      assert ([req] + gone)[1..] == gone;
    }

    /** The first loop of np_conn_reset: the requests of the connection leave the queue, for the list preqs, which is
        linked through next alone. */
    method Sweep(conn: nat) returns (preqs: Req?, ghost gone: seq<Req>)
      requires Valid()
      modifies this`reqsFirst, this`reqsLast, this`queue, Members(queue)`next, Members(queue)`prev
      ensures Valid() && queue == E.Without(old(queue), Members(gone))
      ensures Members(gone) == OfConn(old(queue), conn)
      ensures Stacked(preqs, gone)
    {
      preqs, gone := null, [];
      ghost var was, done, rest := queue, [], queue;
      var req := reqsFirst;
      EmptyHead(rest);
      while req != null
        invariant was == done + rest && req == Head(rest) && Valid() && Members(queue) <= Members(was)
        invariant Sweeping(queue, done, rest, Members(gone), conn) && Stacked(preqs, gone)
        decreases |rest|
      {
        ghost var more := rest[1..];
        Regroup(done, rest);
        req, preqs, gone := SweepOne(req, conn, preqs, gone, done, more);
        done, rest := done + [rest[0]], more;
      }
      EmptyTail(done);
      EmptyTail(E.Without(done, Members(gone)));
    }

    method SweepOne(req: Req, conn: nat, preqs: Req?, ghost gone: seq<Req>, ghost done: seq<Req>, ghost rest: seq<Req>)
      returns (req': Req?, preqs': Req?, ghost gone': seq<Req>)
      requires Valid() && E.Distinct(done + ([req] + rest)) && Stacked(preqs, gone)
      requires Sweeping(queue, done, [req] + rest, Members(gone), conn)
      modifies this`reqsFirst, this`reqsLast, this`queue, Members(queue)`next, Members(queue)`prev
      ensures Valid() && req' == Head(rest) && Stacked(preqs', gone') && Members(queue) <= Members(old(queue))
      ensures Sweeping(queue, done + [req], rest, Members(gone'), conn)
    {
      DistinctAround(done, req, rest);
      SweepApart(queue, done, [req] + rest, Members(gone), conn);
      req' := NextOf(req, |E.Without(done, Members(gone))|);
      preqs', gone' := preqs, gone;
      if req.conn == conn {
        SweepDrops(queue, done, req, rest, Members(gone), conn);
        MembersCons(req, gone);
        MembersWithout(queue, {req});
        Stack(req, preqs, gone);
        preqs', gone' := req, [req] + gone;
      } else {
        SweepKeeps(queue, done, req, rest, Members(gone), conn);
      }
    }

    method NextOf(req: Req, ghost i: nat) returns (r: Req?)
      requires Valid() && i < |queue| && queue[i] == req
      ensures r == Succ(queue, i)
    {
      LinkedMeans(queue, |queue|);
      r := req.next;
    }
  }

  // ---- the lists in memory are those of the engine

  ghost predicate SameReq(x: Req, s: E.State) {
    x.id < |s.ents| && s.ents[x.id].req == E.Req(x.conn, x.tag, x.kind)
  }

  ghost predicate Mirrors(queue: seq<Req>, work: seq<Req>, s: E.State) {
    && Ids(queue) == s.queue && Ids(work) == s.work
    && (forall x :: x in queue ==> SameReq(x, s)) && (forall x :: x in work ==> SameReq(x, s))
  }

  /** A step that moves only requests that were there keeps them the same requests. */
  lemma MirrorsMoved(queue: seq<Req>, work: seq<Req>, s: E.State, queue': seq<Req>, work': seq<Req>, n: E.State)
    requires Mirrors(queue, work, s) && Ids(queue') == n.queue && Ids(work') == n.work
    requires Members(queue') + Members(work') <= Members(queue) + Members(work)
    requires |n.ents| >= |s.ents| && forall i :: 0 <= i < |s.ents| ==> n.ents[i].req == s.ents[i].req
    ensures Mirrors(queue', work', n)
  {
    forall x | x in queue' || x in work' ensures SameReq(x, n) {
      assert x in Members(queue') + Members(work');
      assert SameReq(x, s);
    }
  }

  lemma AddMirrors(queue: seq<Req>, work: seq<Req>, s: E.State, req: Req, c: nat)
    requires Mirrors(queue, work, s) && E.Within(s) && req.id == |s.ents| && req.conn !in s.resetting
    requires E.Enabled(s, E.Add(E.Req(req.conn, req.tag, req.kind), c))
    ensures Mirrors(queue + [req], work, E.Next(s, E.Add(E.Req(req.conn, req.tag, req.kind), c)))
  {
    var n := E.Next(s, E.Add(E.Req(req.conn, req.tag, req.kind), c));
    assert Ids(queue + [req]) == Ids(queue) + [req.id];
    forall x | x in queue + [req] || x in work ensures SameReq(x, n) { assert x == req || SameReq(x, s); }
  }

  lemma TakeMirrors(queue: seq<Req>, work: seq<Req>, s: E.State)
    requires Mirrors(queue, work, s) && E.Within(s) && E.Enabled(s, E.Take)
    ensures queue != [] && Mirrors(queue[1..], [queue[0]] + work, E.Next(s, E.Take))
  {
    assert Ids(queue)[0] == queue[0].id;
    assert Ids(queue[1..]) == Ids(queue)[1..] && Ids([queue[0]] + work) == [queue[0].id] + Ids(work);
    assert queue == [queue[0]] + queue[1..];
    MirrorsMoved(queue, work, s, queue[1..], [queue[0]] + work, E.Next(s, E.Take));
  }

  function IdOf(r: Option<Req>): Option<nat> { if r.Some? then Some(r.value.id) else None }

  lemma {:induction false} FirstMirrors(list: seq<Req>, s: E.State, conn: nat, tag: nat)
    requires E.Valid(s.ents, Ids(list)) && forall x :: x in list ==> SameReq(x, s)
    ensures E.First(s.ents, Ids(list), conn, tag) == IdOf(FirstNamed(list, conn, tag))
  {
    if list != [] {
      assert list[0] in list && Ids(list)[1..] == Ids(list[1..]);
      assert forall x :: x in Ids(list[1..]) ==> x in Ids(list);
      FirstMirrors(list[1..], s, conn, tag);
    }
  }

  lemma FlushLists(s: E.State, f: nat)
    requires E.Lists(s) && E.Enabled(s, E.FlushStep(f))
    ensures var n := E.FlushNext(s, f);
      && n.queue == (match E.QueuedTarget(s, f) case Some(t) => E.Without(s.queue, {t}) case None => s.queue)
      && n.work == s.work
      && |n.ents| == |s.ents| && forall i :: 0 <= i < |s.ents| ==> n.ents[i].req == s.ents[i].req
  {
  }

  lemma {:induction false} TargetsMirror(queue: seq<Req>, work: seq<Req>, s: E.State, f: Req)
    requires Mirrors(queue, work, s) && E.Lists(s) && f in work && f.kind.Flush?
    ensures f.id < |s.ents| && s.ents[f.id].req.kind.Flush?
    ensures E.QueuedTarget(s, f.id) == IdOf(FirstNamed(queue, f.conn, f.kind.oldtag))
    ensures E.WorkingTarget(s, f.id) == IdOf(FirstNamed(work, f.conn, f.kind.oldtag))
  {
    assert SameReq(f, s);
    FirstMirrors(queue, s, f.conn, f.kind.oldtag);
    FirstMirrors(work, s, f.conn, f.kind.oldtag);
  }

  lemma {:induction false} FlushMirrors(queue: seq<Req>, work: seq<Req>, s: E.State, f: Req)
    requires Mirrors(queue, work, s) && E.Lists(s) && f in work && f.kind.Flush? && E.Enabled(s, E.FlushStep(f.id))
    ensures var n := E.FlushNext(s, f.id);
      match FirstNamed(queue, f.conn, f.kind.oldtag)
      case Some(t) => E.QueuedTarget(s, f.id) == Some(t.id) && Mirrors(E.Without(queue, {t}), work, n)
      case None =>
        && E.QueuedTarget(s, f.id) == None && Mirrors(queue, work, n)
        && E.WorkingTarget(s, f.id) == IdOf(FirstNamed(work, f.conn, f.kind.oldtag))
  {
    var n := E.FlushNext(s, f.id);
    TargetsMirror(queue, work, s, f);
    FlushLists(s, f.id);
    match FirstNamed(queue, f.conn, f.kind.oldtag)
    case Some(t) =>
      IdsAlone(queue, t);
      IdsWithout(queue, {t}, {t.id});
      MembersWithout(queue, {t});
      MirrorsMoved(queue, work, s, E.Without(queue, {t}), work, n);
    case None => MirrorsMoved(queue, work, s, queue, work, n);
  }

  lemma IdsAlone(list: seq<Req>, x: Req)
    requires E.Distinct(Ids(list)) && x in list
    ensures forall y :: y in list ==> (y in {x} <==> y.id in {x.id})
  {
    forall y | y in list ensures y == x <==> y.id == x.id {
      if y.id == x.id { IdsOnce(list, x, y); }
    }
  }

  lemma {:induction false} UnlinkMirrors(queue: seq<Req>, work: seq<Req>, s: E.State, req: Req, chain: seq<Req>)
    requires Mirrors(queue, work, s) && E.Lists(s) && req in work && s.ents[req.id].pc.Responding?
    requires Ids(chain) == s.ents[req.id].chain && Members(chain) <= Members(work)
    ensures Mirrors(queue, E.Without(work, Members(chain) + {req}), E.UnlinkNext(s, req.id))
  {
    var gone, ids := Members(chain) + {req}, E.Together(s, req.id);
    forall x | x in work ensures x in gone <==> x.id in ids {
      if x in chain { IdsMember(chain, x); }
      if x.id in Ids(chain) {
        var k :| 0 <= k < |chain| && Ids(chain)[k] == x.id;
        assert chain[k] in Members(chain);
        IdsOnce(work, x, chain[k]);
      }
      if x.id == req.id { IdsOnce(work, x, req); }
    }
    IdsWithout(work, gone, ids);
    MembersWithout(work, gone);
    MirrorsMoved(queue, work, s, queue, E.Without(work, gone), E.UnlinkNext(s, req.id));
  }

  lemma {:induction false} SweepMirrors(queue: seq<Req>, work: seq<Req>, s: E.State, r: E.Resetter)
    requires Mirrors(queue, work, s) && E.Lists(s) && E.Enabled(s, E.Sweep(r))
    ensures Mirrors(E.Without(queue, OfConn(queue, E.ConnOf(s, r))), work, E.Next(s, E.Sweep(r)))
  {
    var gone := OfConn(queue, E.ConnOf(s, r));
    var ids := E.Swept(s, E.ConnOf(s, r));
    forall x | x in queue ensures x in gone <==> x.id in ids {
      IdsMember(queue, x);
      assert SameReq(x, s);
    }
    IdsWithout(queue, gone, ids);
    MembersWithout(queue, gone);
    MirrorsMoved(queue, work, s, E.Without(queue, gone), work, E.Next(s, E.Sweep(r)));
  }

  // ---- and so is the memory of the requests

  function ReqAt(all: seq<Req>, x: Option<nat>): Req? { if x.Some? && x.value < |all| then all[x.value] else null }

  /** What flushreq ought to be in a cell: null in one np_req_alloc has cleared, and else where its request leads. */
  function Pointer(all: seq<Req>, s: E.State, c: nat): Req?
    requires c < |s.owner|
  {
    if s.owner[c].Some? && s.owner[c].value < |s.ents| then ReqAt(all, E.LeadsTo(s, s.owner[c].value)) else null
  }

  /** Each request has its number and its memory. */
  ghost predicate Holds(all: seq<Req>, cells: seq<Cell>, s: E.State) {
    && |all| == |s.ents| && |cells| == |s.owner| && E.Distinct(cells)
    && (forall i :: 0 <= i < |all| ==> all[i].id == i && SameReq(all[i], s))
    && (forall i :: 0 <= i < |all| ==> s.ents[i].cell < |cells| && all[i].cell == cells[s.ents[i].cell])
  }

  ghost predicate Pointers(all: seq<Req>, cells: seq<Cell>, s: E.State)
    requires |cells| == |s.owner|
    reads (set c | c in cells)`flushreq
  {
    forall c :: 0 <= c < |cells| ==> cells[c].flushreq == Pointer(all, s, c)
  }

  ghost predicate Known(all: seq<Req>, list: seq<Req>) { forall x :: x in list ==> x.id < |all| && all[x.id] == x }

  /** The lists and the requests are those of the engine. */
  ghost predicate Lists(queue: seq<Req>, work: seq<Req>, all: seq<Req>, cells: seq<Cell>, s: E.State) {
    Mirrors(queue, work, s) && Known(all, queue) && Known(all, work) && Holds(all, cells, s)
  }

  /** What is in memory is the state of the engine. */
  ghost predicate Agrees(srv: Srv, s: E.State)
    reads srv, srv.queue, srv.work, srv.cells
  {
    && srv.Valid() && Lists(srv.queue, srv.work, srv.all, srv.cells, s)
    && Pointers(srv.all, srv.cells, s)
  }

  lemma WorkPlaces(work: seq<Req>, s: E.State, x: Req)
    requires E.Lists(s) && Ids(work) == s.work && x in work
    ensures x.id < |s.ents| && E.PlaceOf(s.ents[x.id].pc).OnWork?
  {
    IdsMember(work, x);
  }

  /** A request at work has its memory, and its flushreq is as the engine has it. */
  lemma WorkPointer(srv: Srv, s: E.State, x: Req)
    requires Agrees(srv, s) && E.Inv(s) && x in srv.work
    ensures x.id < |s.ents| && E.Intact(s, x.id) && x.cell == srv.cells[s.ents[x.id].cell]
    ensures x.cell.flushreq == ReqAt(srv.all, E.LeadsTo(s, x.id))
  {
    WorkPlaces(srv.work, s, x);
  }

  // ---- the steps that change no list and no memory

  /** Nothing that flushreq depends on has changed. */
  ghost predicate SameMemory(s: E.State, n: E.State) {
    && n.owner == s.owner && |n.ents| == |s.ents| && F.SameLeads(s, n)
    && forall i :: 0 <= i < |s.ents| ==> n.ents[i].req == s.ents[i].req
  }

  lemma StepKeepsMemory(s: E.State, step: E.Step)
    requires E.Inv(s) && E.Enabled(s, step) && !F.Hangs(s, step) && !step.Alloc?
    requires step.Add? ==> step.req.conn in s.resetting
    ensures SameMemory(s, E.Next(s, step))
  {
    E.StepMoves(s, step);
    E.CellsStep(s, step);
    F.StepLeads(s, step);
  }

  lemma PointersStay(all: seq<Req>, cells: seq<Cell>, s: E.State, n: E.State)
    requires E.Inv(s) && SameMemory(s, n) && Holds(all, cells, s) && Pointers(all, cells, s)
    ensures Holds(all, cells, n) && Pointers(all, cells, n)
  {
    forall c | 0 <= c < |cells| ensures Pointer(all, n, c) == Pointer(all, s, c) {
      if s.owner[c].Some? && s.owner[c].value < |s.ents| { F.LeadsStay(s, n, s.owner[c].value); }
    }
  }

  ghost predicate ListStep(step: E.Step) { step.Take? || step.FlushStep? || step.Unlink? || step.Sweep? }

  lemma OtherLists(s: E.State, step: E.Step)
    requires E.Inv(s) && E.Enabled(s, step) && !ListStep(step) && (step.Add? ==> step.req.conn in s.resetting)
    ensures E.Next(s, step).queue == s.queue && E.Next(s, step).work == s.work
  {
  }

  /** The steps that change neither a list nor a pointer. */
  lemma OtherStep(srv: Srv, s: E.State, step: E.Step)
    requires Agrees(srv, s) && E.Inv(s) && E.Enabled(s, step) && !ListStep(step) && !step.Alloc?
    requires step.Add? ==> step.req.conn in s.resetting
    ensures Agrees(srv, E.Next(s, step))
  {
    var n := E.Next(s, step);
    StepKeepsMemory(s, step);
    OtherLists(s, step);
    PointersStay(srv.all, srv.cells, s, n);
    MirrorsMoved(srv.queue, srv.work, s, srv.queue, srv.work, n);
  }

  // ---- new requests

  method Start() returns (srv: Srv)
    ensures fresh(srv) && Agrees(srv, E.Init())
  {
    srv := new Srv();
  }

  lemma AllocPointers(all: seq<Req>, s: E.State, c: nat)
    requires E.Inv(s) && E.Enabled(s, E.Alloc(c))
    ensures var n := E.Next(s, E.Alloc(c));
      && n.ents == s.ents && |n.owner| == |s.owner|
      && forall d :: 0 <= d < |s.owner| ==> Pointer(all, n, d) == if d == c then null else Pointer(all, s, d)
  {
    var n := E.Next(s, E.Alloc(c));
    forall d | 0 <= d < |s.owner| && d != c ensures Pointer(all, n, d) == Pointer(all, s, d) {
      assert n.owner[d] == s.owner[d];
      if s.owner[d].Some? { assert E.LeadsTo(n, s.owner[d].value) == E.LeadsTo(s, s.owner[d].value); }
    }
  }

  /** np_req_alloc takes a request that was given back, and clears it. */
  method AllocStep(srv: Srv, cell: Cell, ghost c: nat, ghost s: E.State)
    requires Agrees(srv, s) && E.Inv(s) && E.Enabled(s, E.Alloc(c)) && cell == srv.cells[c]
    modifies cell`flushreq
    ensures Agrees(srv, E.Next(s, E.Alloc(c)))
  {
    AllocPointers(srv.all, s, c);
    MirrorsMoved(srv.queue, srv.work, s, srv.queue, srv.work, E.Next(s, E.Alloc(c)));
    Clear(srv, cell, c, E.Next(s, E.Alloc(c)));
  }

  method Clear(srv: Srv, cell: Cell, ghost c: nat, ghost n: E.State)
    requires srv.Valid() && Lists(srv.queue, srv.work, srv.all, srv.cells, n) && c < |srv.cells| && cell == srv.cells[c]
    requires forall d :: 0 <= d < |srv.cells| ==>
      Pointer(srv.all, n, d) == if d == c then null else srv.cells[d].flushreq
    modifies cell`flushreq
    ensures Agrees(srv, n)
  {
    cell.flushreq := null;
  }

  function AddOf(req: Req, c: nat): E.Step { E.Add(E.Req(req.conn, req.tag, req.kind), c) }

  /** The memory req was made of: a cleared one, or a new one. */
  ghost predicate MadeOf(req: Req, cells: seq<Cell>, c: nat)
    reads req.cell`flushreq
  {
    if c < |cells| then req.cell == cells[c] else req.cell !in cells && req.cell.flushreq == null
  }

  lemma AddPointers(all: seq<Req>, s: E.State, req: Req, c: nat)
    requires E.Inv(s) && E.Enabled(s, AddOf(req, c)) && req.conn !in s.resetting && |all| == |s.ents|
    ensures var n := E.Next(s, AddOf(req, c));
      && |n.ents| == |s.ents| + 1 && |n.owner| == (if c < |s.owner| then |s.owner| else |s.owner| + 1)
      && (forall d :: 0 <= d < |n.owner| ==> Pointer(all + [req], n, d) == if d == c then null else Pointer(all, s, d))
      && (forall i :: 0 <= i < |s.ents| ==> n.ents[i] == s.ents[i])
      && n.ents[|s.ents|] == E.Entry(E.Req(req.conn, req.tag, req.kind), E.Queued, [], c)
  {
    var n := E.Next(s, AddOf(req, c));
    forall d | 0 <= d < |n.owner| && d != c ensures Pointer(all + [req], n, d) == Pointer(all, s, d) {
      assert n.owner[d] == s.owner[d];
      if s.owner[d].Some? { LeadsSame(s, n, s.owner[d].value); }
    }
  }

  lemma LeadsSame(s: E.State, n: E.State, h: nat)
    requires E.Inv(s) && h < |s.ents| <= |n.ents| && forall i :: 0 <= i < |s.ents| ==> n.ents[i] == s.ents[i]
    ensures E.LeadsTo(n, h) == E.LeadsTo(s, h)
    ensures E.LeadsTo(s, h).Some? ==> E.LeadsTo(s, h).value < |s.ents|
  {
    assert E.LinkOk(s, h);
    if E.LeadsTo(s, h).Some? { F.LeadsInto(s, h); }
  }

  function WithCell(cells: seq<Cell>, cell: Cell, c: nat): seq<Cell> { if c < |cells| then cells else cells + [cell] }

  lemma AddAgrees(srv: Srv, req: Req, c: nat, s: E.State)
    requires Agrees(srv, s) && E.Inv(s) && E.Enabled(s, AddOf(req, c)) && MadeOf(req, srv.cells, c)
    requires req.conn !in s.resetting && req.id == |s.ents|
    ensures var n, cells := E.Next(s, AddOf(req, c)), WithCell(srv.cells, req.cell, c);
      && Lists(srv.queue + [req], srv.work, srv.all + [req], cells, n) && Pointers(srv.all + [req], cells, n)
  {
    AddMirrors(srv.queue, srv.work, s, req, c);
    AddHolds(srv.all, srv.cells, s, req, c);
    AddKnown(srv.all, srv.queue, srv.work, req);
    AddFlushreqs(srv.all, srv.cells, s, req, c);
  }

  lemma AddKnown(all: seq<Req>, queue: seq<Req>, work: seq<Req>, req: Req)
    requires Known(all, queue) && Known(all, work) && req.id == |all|
    ensures Known(all + [req], queue + [req]) && Known(all + [req], work) && req !in queue && req !in work
  {
  }

  lemma AddFlushreqs(all: seq<Req>, cells: seq<Cell>, s: E.State, req: Req, c: nat)
    requires E.Inv(s) && E.Enabled(s, AddOf(req, c)) && req.conn !in s.resetting && |all| == |s.ents|
    requires |cells| == |s.owner| && Pointers(all, cells, s) && MadeOf(req, cells, c)
    ensures |WithCell(cells, req.cell, c)| == |E.Next(s, AddOf(req, c)).owner|
    ensures Pointers(all + [req], WithCell(cells, req.cell, c), E.Next(s, AddOf(req, c)))
  {
    AddPointers(all, s, req, c);
    if c < |cells| { assert cells[c].flushreq == Pointer(all, s, c); }
  }

  lemma AddHolds(all: seq<Req>, cells: seq<Cell>, s: E.State, req: Req, c: nat)
    requires Holds(all, cells, s) && E.Within(s) && E.Enabled(s, AddOf(req, c))
    requires if c < |cells| then req.cell == cells[c] else req.cell !in cells
    requires req.conn !in s.resetting && req.id == |s.ents|
    ensures Holds(all + [req], WithCell(cells, req.cell, c), E.Next(s, AddOf(req, c)))
  {
  }

  /** The reader has a new request, and adds it to the queue. */
  method AddStep(srv: Srv, req: Req, ghost c: nat, ghost s: E.State)
    requires Agrees(srv, s) && E.Inv(s) && E.Enabled(s, AddOf(req, c)) && MadeOf(req, srv.cells, c)
    requires req.conn !in s.resetting && req.id == |s.ents| && req.next == null
    modifies srv`reqsFirst, srv`reqsLast, srv`queue, srv`all, srv`cells, req`prev, Members(srv.queue)`next
    ensures Agrees(srv, E.Next(s, AddOf(req, c)))
  {
    AddAgrees(srv, req, c, s);
    AddKnown(srv.all, srv.queue, srv.work, req);
    AddTo(srv, req, srv.all + [req], WithCell(srv.cells, req.cell, c), E.Next(s, AddOf(req, c)));
  }

  method AddTo(srv: Srv, req: Req, ghost all: seq<Req>, ghost cells: seq<Cell>, ghost n: E.State)
    requires srv.Valid() && req.next == null && req !in srv.queue && req !in srv.work
    requires Lists(srv.queue + [req], srv.work, all, cells, n) && Pointers(all, cells, n)
    modifies srv`reqsFirst, srv`reqsLast, srv`queue, srv`all, srv`cells, req`prev, Members(srv.queue)`next
    ensures Agrees(srv, n)
  {
    srv.AddReq(req);
    srv.all, srv.cells := all, cells;
  }

  // ---- the steps that change a list

  lemma {:induction false} WithoutLess(list: seq<Req>, gone: set<Req>)
    ensures forall x :: x in E.Without(list, gone) ==> x in list
  {
    if list != [] {
      WithoutLess(list[1..], gone);
      assert list == [list[0]] + list[1..];
    }
  }

  /** The lists and the memory after the critical section. */
  ghost predicate Agreeing(srv: Srv, queue: seq<Req>, work: seq<Req>, n: E.State)
    reads srv, srv.cells
  {
    Lists(queue, work, srv.all, srv.cells, n) && Pointers(srv.all, srv.cells, n)
  }

  lemma ListsAgree(srv: Srv, s: E.State, step: E.Step, queue: seq<Req>, work: seq<Req>)
    requires Agrees(srv, s) && E.Inv(s) && E.Enabled(s, step) && !F.Hangs(s, step) && !step.Alloc? && !step.Add?
    requires Mirrors(queue, work, E.Next(s, step))
    requires forall x :: x in queue || x in work ==> x in srv.queue || x in srv.work
    ensures Agreeing(srv, queue, work, E.Next(s, step))
  {
    StepKeepsMemory(s, step);
    PointersStay(srv.all, srv.cells, s, E.Next(s, step));
  }

  lemma TakeAgrees(srv: Srv, s: E.State)
    requires Agrees(srv, s) && E.Inv(s) && E.Enabled(s, E.Take)
    ensures srv.queue != [] && srv.queue[0].id == s.queue[0]
    ensures Agreeing(srv, srv.queue[1..], [srv.queue[0]] + srv.work, E.Next(s, E.Take))
  {
    TakeMirrors(srv.queue, srv.work, s);
    assert Ids(srv.queue)[0] == srv.queue[0].id;
    ListsAgree(srv, s, E.Take, srv.queue[1..], [srv.queue[0]] + srv.work);
  }

  method TakeStep(srv: Srv, ghost s: E.State) returns (req: Req)
    requires Agrees(srv, s) && E.Inv(s) && E.Enabled(s, E.Take)
    modifies srv`reqsFirst, srv`reqsLast, srv`workreqs, srv`queue, srv`work
    modifies Members(srv.queue)`next, Members(srv.queue)`prev, Members(srv.work)`prev
    ensures Agrees(srv, E.Next(s, E.Take)) && req.id == s.queue[0]
  {
    TakeAgrees(srv, s);
    req := TakeFrom(srv, E.Next(s, E.Take));
  }

  method TakeFrom(srv: Srv, ghost n: E.State) returns (req: Req)
    requires srv.Valid() && srv.queue != [] && Agreeing(srv, srv.queue[1..], [srv.queue[0]] + srv.work, n)
    modifies srv`reqsFirst, srv`reqsLast, srv`workreqs, srv`queue, srv`work
    modifies Members(srv.queue)`next, Members(srv.queue)`prev, Members(srv.work)`prev
    ensures Agrees(srv, n) && req == old(srv.queue[0])
  {
    req := srv.Take();
  }

  lemma SweepAgrees(srv: Srv, s: E.State, r: E.Resetter, conn: nat)
    requires E.Within(s) && E.Enabled(s, E.Sweep(r)) && conn == E.ConnOf(s, r)
    requires Agrees(srv, s) && E.Inv(s)
    ensures Agreeing(srv, E.Without(srv.queue, OfConn(srv.queue, conn)), srv.work, E.Next(s, E.Sweep(r)))
  {
    SweepMirrors(srv.queue, srv.work, s, r);
    WithoutLess(srv.queue, OfConn(srv.queue, conn));
    ListsAgree(srv, s, E.Sweep(r), E.Without(srv.queue, OfConn(srv.queue, conn)), srv.work);
  }

  method SweepStep(srv: Srv, conn: nat, ghost r: E.Resetter, ghost s: E.State) returns (preqs: Req?)
    requires E.Within(s) && E.Enabled(s, E.Sweep(r)) && conn == E.ConnOf(s, r)
    requires Agrees(srv, s) && E.Inv(s)
    modifies srv`reqsFirst, srv`reqsLast, srv`queue, Members(srv.queue)`next, Members(srv.queue)`prev
    ensures Agrees(srv, E.Next(s, E.Sweep(r)))
  {
    SweepAgrees(srv, s, r, conn);
    preqs := SweepFrom(srv, conn, E.Next(s, E.Sweep(r)));
  }

  method SweepFrom(srv: Srv, conn: nat, ghost n: E.State) returns (preqs: Req?)
    requires srv.Valid() && Agreeing(srv, E.Without(srv.queue, OfConn(srv.queue, conn)), srv.work, n)
    modifies srv`reqsFirst, srv`reqsLast, srv`queue, Members(srv.queue)`next, Members(srv.queue)`prev
    ensures Agrees(srv, n)
  {
    ghost var list;
    preqs, list := srv.Sweep(conn);
  }

  // ---- np_respond takes a request and its Tflushes off workreqs

  /** The Tflushes on the chain of request t. */
  function ChainOf(all: seq<Req>, s: E.State, t: nat): (chain: seq<Req>)
    requires t < |s.ents| && |all| == |s.ents|
    ensures |chain| == |s.ents[t].chain|
    ensures forall k :: 0 <= k < |chain| && s.ents[t].chain[k] < |all| ==> chain[k] == all[s.ents[t].chain[k]]
  {
    var ids := s.ents[t].chain;
    seq(|ids|, k requires 0 <= k < |ids| => if ids[k] < |all| then all[ids[k]] else all[t])
  }

  /** flushreq of a working request leads along its chain. */
  lemma {:induction false} FlushlistFrom(srv: Srv, s: E.State, t: nat, k: nat)
    requires Agrees(srv, s) && E.Inv(s) && t < |s.ents| && k <= |s.ents[t].chain|
    requires E.PlaceOf(s.ents[t].pc).OnWork?
    ensures var chain := ChainOf(srv.all, s, t); Flushlist(if k < |chain| then chain[k] else null, chain[k..])
    decreases |s.ents[t].chain| - k
  {
    var chain := ChainOf(srv.all, s, t);
    if k < |chain| {
      FlushlistFrom(srv, s, t, k + 1);
      ChainPointer(srv, s, t, k);
      assert chain[k..][1..] == chain[k + 1..];
    }
  }

  /** And while a Tflush that has left workreqs keeps its memory, its flushreq leads on. */
  lemma {:induction false} ChainPointer(srv: Srv, s: E.State, t: nat, k: nat)
    requires Agrees(srv, s) && E.Inv(s) && t < |s.ents| && k < |s.ents[t].chain|
    requires E.Intact(s, s.ents[t].chain[k]) || E.PlaceOf(s.ents[t].pc).OnWork?
    ensures var chain := ChainOf(srv.all, s, t);
      && s.ents[t].chain[k] < |s.ents| && chain[k] == srv.all[s.ents[t].chain[k]]
      && chain[k].cell.flushreq == if k + 1 < |chain| then chain[k + 1] else null
  {
    F.LoggedLink(s, t, k);
    if k + 1 < |s.ents[t].chain| { F.LoggedLink(s, t, k + 1); }
    F.LeadsOn(s, t, k);
    assert srv.cells[s.ents[s.ents[t].chain[k]].cell].flushreq == Pointer(srv.all, s, s.ents[s.ents[t].chain[k]].cell);
  }

  lemma KnownMember(work: seq<Req>, all: seq<Req>, s: E.State, i: nat)
    requires Ids(work) == s.work && Known(all, work) && i in s.work
    ensures i < |all| && all[i] in work
  {
    var k :| 0 <= k < |work| && Ids(work)[k] == i;
    assert work[k] in work;
  }

  /** What np_respond relies on as it takes a request and the Tflushes on its chain off workreqs. */
  lemma {:induction false} MayUnlink(srv: Srv, s: E.State, req: Req)
    requires Agrees(srv, s) && E.Inv(s) && req in srv.work && E.Enabled(s, E.Unlink(req.id))
    ensures var chain := ChainOf(srv.all, s, req.id);
      && Flushlist(req.cell.flushreq, chain) && req !in chain && E.Distinct(chain)
      && Members(chain) <= Members(srv.work) && Ids(chain) == s.ents[req.id].chain
  {
    WorkPlaces(srv.work, s, req);
    ChainAtWork(srv, s, req);
    FlushlistFrom(srv, s, req.id, 0);
    FirstPointer(srv, s, req);
  }

  lemma FirstPointer(srv: Srv, s: E.State, req: Req)
    requires Agrees(srv, s) && E.Inv(s) && req in srv.work && req.id < |s.ents| && s.ents[req.id].pc.Responding?
    ensures var chain := ChainOf(srv.all, s, req.id);
      chain[0..] == chain && req.cell.flushreq == if 0 < |chain| then chain[0] else null
  {
    WorkPointer(srv, s, req);
    HeadPointer(srv, s, req.id);
  }

  /** flushreq of a request that hangs on no other is the newest Tflush that hangs on it. */
  lemma HeadPointer(srv: Srv, s: E.State, t: nat)
    requires Agrees(srv, s) && E.Inv(s) && t < |s.ents| && E.Intact(s, t) && !E.Linked(s.ents[t].pc)
    ensures var chain := ChainOf(srv.all, s, t); srv.all[t].cell.flushreq == if 0 < |chain| then chain[0] else null
  {
    var c := s.ents[t].cell;
    assert srv.cells[c].flushreq == Pointer(srv.all, s, c);
    if s.ents[t].chain != [] { F.LoggedLink(s, t, 0); }
  }

  lemma ChainAtWork(srv: Srv, s: E.State, req: Req)
    requires Agrees(srv, s) && E.Inv(s) && req in srv.work && req.id < |s.ents|
    requires E.PlaceOf(s.ents[req.id].pc).OnWork?
    ensures var chain := ChainOf(srv.all, s, req.id);
      && req !in chain && E.Distinct(chain)
      && Members(chain) <= Members(srv.work) && Ids(chain) == s.ents[req.id].chain
  {
    var chain, ids := ChainOf(srv.all, s, req.id), s.ents[req.id].chain;
    assert E.Distinct(ids) by { assert E.ChainOk(s, req.id); }
    forall k | 0 <= k < |ids| ensures chain[k].id == ids[k] && chain[k] != req && chain[k] in srv.work {
      LinkAtWork(srv, s, req.id, k);
    }
    forall j, k | 0 <= j < k < |ids| ensures chain[j] != chain[k] { assert chain[j].id == ids[j]; }
  }

  lemma LinkAtWork(srv: Srv, s: E.State, t: nat, k: nat)
    requires Agrees(srv, s) && E.Inv(s) && t < |s.ents| && E.PlaceOf(s.ents[t].pc).OnWork? && k < |s.ents[t].chain|
    ensures var i := s.ents[t].chain[k];
      i < |srv.all| && srv.all[i] in srv.work && srv.all[i].id == i && i != t
  {
    F.LoggedLink(s, t, k);
    assert E.ChainOk(s, s.ents[t].chain[k]);
    KnownMember(srv.work, srv.all, s, s.ents[t].chain[k]);
  }

  lemma {:induction false} UnlinkAgrees(srv: Srv, s: E.State, req: Req)
    requires Agrees(srv, s) && E.Inv(s) && req in srv.work && E.Enabled(s, E.Unlink(req.id))
    ensures var left := E.Without(srv.work, Members(ChainOf(srv.all, s, req.id)) + {req});
      Agreeing(srv, srv.queue, left, E.Next(s, E.Unlink(req.id)))
  {
    var chain := ChainOf(srv.all, s, req.id);
    MayUnlink(srv, s, req);
    UnlinkMirrors(srv.queue, srv.work, s, req, chain);
    WithoutLess(srv.work, Members(chain) + {req});
    ListsAgree(srv, s, E.Unlink(req.id), srv.queue, E.Without(srv.work, Members(chain) + {req}));
  }

  method UnlinkStep(srv: Srv, req: Req, ghost s: E.State)
    requires Agrees(srv, s) && E.Inv(s) && req in srv.work && E.Enabled(s, E.Unlink(req.id))
    modifies srv`workreqs, srv`work, Members(srv.work)`next, Members(srv.work)`prev
    ensures Agrees(srv, E.Next(s, E.Unlink(req.id)))
  {
    MayUnlink(srv, s, req);
    UnlinkAgrees(srv, s, req);
    UnlinkFrom(srv, req, ChainOf(srv.all, s, req.id), E.Next(s, E.Unlink(req.id)));
  }

  method UnlinkFrom(srv: Srv, req: Req, ghost chain: seq<Req>, ghost n: E.State)
    requires srv.Valid() && req in srv.work && Flushlist(req.cell.flushreq, chain)
    requires req !in chain && E.Distinct(chain) && Members(chain) <= Members(srv.work)
    requires Agreeing(srv, srv.queue, E.Without(srv.work, Members(chain) + {req}), n)
    modifies srv`workreqs, srv`work, Members(srv.work)`next, Members(srv.work)`prev
    ensures Agrees(srv, n)
  {
    srv.UnlinkAll(req, chain);
  }

  // ---- np_flush

  /** The pointers will be the engine's once f stands in front of what hangs on t. */
  ghost predicate HangsTo(all: seq<Req>, cells: seq<Cell>, f: Req, t: Req, n: E.State)
    reads t.cell`flushreq, (set c | c in cells)`flushreq
  {
    && |cells| == |n.owner| && f.cell != t.cell
    && forall c :: 0 <= c < |cells| ==>
         Pointer(all, n, c)
         == if cells[c] == t.cell then f else if cells[c] == f.cell then t.cell.flushreq else cells[c].flushreq
  }

  lemma HangPointers(all: seq<Req>, s: E.State, f: nat, t: nat)
    requires E.Inv(s) && E.Enabled(s, E.FlushStep(f)) && E.QueuedTarget(s, f).None? && E.WorkingTarget(s, f) == Some(t)
    requires E.Intact(s, f) && E.Intact(s, t) && |all| == |s.ents|
    ensures var n, cf, ct := E.Next(s, E.FlushStep(f)), s.ents[f].cell, s.ents[t].cell;
      && |n.owner| == |s.owner| && cf != ct
      && forall c :: 0 <= c < |s.owner| ==>
           Pointer(all, n, c)
           == if c == ct then all[f] else if c == cf then Pointer(all, s, ct) else Pointer(all, s, c)
  {
    F.HungOn(s, f, t);
    var n := E.Next(s, E.FlushStep(f));
    forall c | 0 <= c < |s.owner| && s.owner[c].Some? && s.owner[c].value < |s.ents|
      ensures var h := s.owner[c].value;
        E.LeadsTo(n, h) == if h == t then Some(f) else if h == f then E.LeadsTo(s, t) else E.LeadsTo(s, h)
    {
      F.HangLeads(s, f, t, s.owner[c].value);
    }
  }

  lemma {:induction false} WillHang(srv: Srv, s: E.State, f: Req, t: Req)
    requires Agrees(srv, s) && E.Inv(s) && f in srv.work && t in srv.work && E.Enabled(s, E.FlushStep(f.id))
    requires E.QueuedTarget(s, f.id).None? && E.WorkingTarget(s, f.id) == Some(t.id)
    ensures HangsTo(srv.all, srv.cells, f, t, E.Next(s, E.FlushStep(f.id)))
  {
    WorkPointer(srv, s, f);
    WorkPointer(srv, s, t);
    HangPointers(srv.all, s, f.id, t.id);
    PointsAs(srv.all, srv.cells, s, f, t, E.Next(s, E.FlushStep(f.id)));
  }

  lemma PointsAs(all: seq<Req>, cells: seq<Cell>, s: E.State, f: Req, t: Req, n: E.State)
    requires E.Distinct(cells) && |cells| == |s.owner| == |n.owner| && Pointers(all, cells, s)
    requires f.id < |s.ents| && t.id < |s.ents| && f.id < |all| && all[f.id] == f
    requires s.ents[f.id].cell < |cells| && f.cell == cells[s.ents[f.id].cell]
    requires s.ents[t.id].cell < |cells| && t.cell == cells[s.ents[t.id].cell]
    requires s.ents[f.id].cell != s.ents[t.id].cell
    requires forall c :: 0 <= c < |s.owner| ==>
      Pointer(all, n, c) == if c == s.ents[t.id].cell then all[f.id]
        else if c == s.ents[f.id].cell then Pointer(all, s, s.ents[t.id].cell) else Pointer(all, s, c)
    ensures HangsTo(all, cells, f, t, n)
  {
  }

  /** The pointers after np_flush, foretold. */
  ghost predicate Foretold(srv: Srv, f: Req, q: Option<Req>, w: Option<Req>, n: E.State)
    reads srv, srv.cells, (if w.Some? then {w.value.cell} else {})
  {
    && |srv.cells| == |n.owner|
    && if q.None? && w.Some? then HangsTo(srv.all, srv.cells, f, w.value, n) else Pointers(srv.all, srv.cells, n)
  }

  lemma {:induction false} FlushAgrees(srv: Srv, s: E.State, f: Req)
    requires Agrees(srv, s) && E.Inv(s) && f in srv.work && f.kind.Flush? && E.Enabled(s, E.FlushStep(f.id))
    ensures var q, w := FirstNamed(srv.queue, f.conn, f.kind.oldtag), FirstNamed(srv.work, f.conn, f.kind.oldtag);
      && Lists(LeftQueued(srv.queue, q), srv.work, srv.all, srv.cells, E.Next(s, E.FlushStep(f.id)))
      && Foretold(srv, f, q, w, E.Next(s, E.FlushStep(f.id)))
  {
    var q, w := FirstNamed(srv.queue, f.conn, f.kind.oldtag), FirstNamed(srv.work, f.conn, f.kind.oldtag);
    FlushMirrors(srv.queue, srv.work, s, f);
    if q.Some? {
      WithoutLess(srv.queue, {q.value});
      ListsAgree(srv, s, E.FlushStep(f.id), E.Without(srv.queue, {q.value}), srv.work);
    } else if w.Some? {
      WillHang(srv, s, f, w.value);
      HangHolds(srv.all, srv.cells, s, f.id, w.value.id);
    } else {
      ListsAgree(srv, s, E.FlushStep(f.id), srv.queue, srv.work);
    }
  }

  lemma HangHolds(all: seq<Req>, cells: seq<Cell>, s: E.State, f: nat, t: nat)
    requires Holds(all, cells, s) && E.Lists(s) && E.Enabled(s, E.FlushStep(f))
    requires E.QueuedTarget(s, f).None? && E.WorkingTarget(s, f) == Some(t)
    ensures Holds(all, cells, E.Next(s, E.FlushStep(f)))
  {
    F.HungOn(s, f, t);
  }

  /** The Tflush gets its Rflush at once just when it finds its target on the queue or finds none. */
  lemma FlushAnswers(s: E.State, f: nat)
    requires E.Inv(s) && E.Enabled(s, E.FlushStep(f))
    ensures f < |s.ents| == |E.Next(s, E.FlushStep(f)).ents|
    ensures E.Next(s, E.FlushStep(f)).ents[f].pc.Answering? <==>
      E.QueuedTarget(s, f).Some? || E.WorkingTarget(s, f).None?
  {
    if E.QueuedTarget(s, f).None? && E.WorkingTarget(s, f).Some? { F.HungOn(s, f, E.WorkingTarget(s, f).value); }
  }

  method FlushStep(srv: Srv, f: Req, ghost s: E.State) returns (answer: bool)
    requires Agrees(srv, s) && E.Inv(s) && f in srv.work && f.kind.Flush? && E.Enabled(s, E.FlushStep(f.id))
    modifies srv`reqsFirst, srv`reqsLast, srv`queue, Members(srv.queue)`next, Members(srv.queue)`prev
    modifies Cells(srv.work)`flushreq
    ensures Agrees(srv, E.Next(s, E.FlushStep(f.id)))
    ensures answer <==> E.Next(s, E.FlushStep(f.id)).ents[f.id].pc.Answering?
  {
    FlushAgrees(srv, s, f);
    FlushAnswers(s, f.id);
    TargetsMirror(srv.queue, srv.work, s, f);
    answer := FlushTo(srv, f, FirstNamed(srv.queue, f.conn, f.kind.oldtag),
                      FirstNamed(srv.work, f.conn, f.kind.oldtag), E.Next(s, E.FlushStep(f.id)));
  }

  method FlushTo(srv: Srv, f: Req, ghost q: Option<Req>, ghost w: Option<Req>, ghost n: E.State)
    returns (answer: bool)
    requires srv.Valid() && f in srv.work && f.kind.Flush? && Foretold(srv, f, q, w, n)
    requires Lists(LeftQueued(srv.queue, q), srv.work, srv.all, srv.cells, n)
    requires q == FirstNamed(srv.queue, f.conn, f.kind.oldtag) && w == FirstNamed(srv.work, f.conn, f.kind.oldtag)
    modifies srv`reqsFirst, srv`reqsLast, srv`queue, Members(srv.queue)`next, Members(srv.queue)`prev
    modifies Cells(srv.work)`flushreq
    ensures Agrees(srv, n) && (answer <==> q.Some? || w.None?)
  {
    answer := FlushFrom(srv, f, q, w, n);
  }

  method FlushFrom(srv: Srv, f: Req, ghost q: Option<Req>, ghost w: Option<Req>, ghost n: E.State)
    returns (answer: bool)
    requires srv.Valid() && f in srv.work && f.kind.Flush? && Foretold(srv, f, q, w, n)
    requires q == FirstNamed(srv.queue, f.conn, f.kind.oldtag) && w == FirstNamed(srv.work, f.conn, f.kind.oldtag)
    modifies srv`reqsFirst, srv`reqsLast, srv`queue, Members(srv.queue)`next, Members(srv.queue)`prev
    modifies Cells(srv.work)`flushreq
    ensures srv.Valid() && srv.queue == LeftQueued(old(srv.queue), q) && (answer <==> q.Some? || w.None?)
    ensures |srv.cells| == |n.owner| && Pointers(srv.all, srv.cells, n)
  {
    ghost var near := Cells(srv.work);
    answer := srv.Flush(f);
    if answer {
      StillPoints(Told(Hanging(near, f, f), srv.all, srv.cells, n));
    } else {
      NowHung(Told(Hanging(near, f, w.value), srv.all, srv.cells, n));
    }
  }

  /** A Tflush with its target, and what was foretold of the pointers. */
  datatype Telling = Told(h: Hanging, all: seq<Req>, cells: seq<Cell>, n: E.State)

  twostate lemma StillPoints(d: Telling)
    requires SamePointers(d.h.cells) && |d.cells| == |d.n.owner| && old(Pointers(d.all, d.cells, d.n))
    requires forall c :: c in d.cells && c !in d.h.cells ==> c.flushreq == old(c.flushreq)
    ensures Pointers(d.all, d.cells, d.n)
  {
    forall c | 0 <= c < |d.cells| ensures d.cells[c].flushreq == Pointer(d.all, d.n, c) {
      assert d.cells[c] in d.cells;
    }
  }

  twostate lemma NowHung(d: Telling)
    requires HungUp(d.h) && old(HangsTo(d.all, d.cells, d.h.f, d.h.t, d.n))
    requires forall c :: c in d.cells && c !in d.h.cells ==> c.flushreq == old(c.flushreq)
    ensures |d.cells| == |d.n.owner| && Pointers(d.all, d.cells, d.n)
  {
    forall c | 0 <= c < |d.cells| ensures d.cells[c].flushreq == Pointer(d.all, d.n, c) {
      assert d.cells[c] in d.cells;
    }
  }

  // ---- the loop of np_respond that answers the Tflushes

  /** Where the loop for request t stands: freq is what the engine says it is. */
  ghost predicate Stands(all: seq<Req>, s: E.State, t: nat, freq: Req?)
    requires t < |s.ents| == |all|
  {
    var chain := ChainOf(all, s, t);
    match s.ents[t].pc
    case Flushing(_, k) => freq == if k < |chain| then chain[k] else null
    case Between(_, k) => 0 < k <= |chain| && freq == chain[k - 1]
    case Astray(_, _) => freq != null && freq !in chain
    case Done(_, _) => freq == null
    case _ => false
  }

  /** The reply is out, and the loop begins. */
  method FirstFlush(srv: Srv, req: Req, ghost s: E.State) returns (freq: Req?)
    requires req.id < |srv.all| && srv.all[req.id] == req
    requires Agrees(srv, s) && E.Inv(s) && E.Enabled(s, E.WriteReply(req.id))
    ensures var n := E.Next(s, E.WriteReply(req.id)); Agrees(srv, n) && Stands(srv.all, n, req.id, freq)
  {
    OtherStep(srv, s, E.WriteReply(req.id));
    HeadPointer(srv, s, req.id);
    freq := req.cell.flushreq;
    ReplyStands(srv.all, s, req.id, freq);
  }

  lemma ReplyStands(all: seq<Req>, s: E.State, t: nat, freq: Req?)
    requires E.Within(s) && E.Enabled(s, E.WriteReply(t)) && |all| == |s.ents|
    requires var chain := ChainOf(all, s, t); freq == if 0 < |chain| then chain[0] else null
    ensures var n := E.Next(s, E.WriteReply(t)); |n.ents| == |all| && Stands(all, n, t, freq)
  {
  }

  /** It is freq that gets its Rflush. */
  lemma RflushStands(all: seq<Req>, s: E.State, t: nat, freq: Req?)
    requires |all| == |s.ents| && E.Inv(s) && E.Enabled(s, E.WriteRflush(t)) && Stands(all, s, t, freq)
    requires forall i :: 0 <= i < |all| ==> all[i].id == i
    ensures freq != null && E.Next(s, E.WriteRflush(t)).log == s.log + [E.Rflush(freq.id)]
    ensures |E.Next(s, E.WriteRflush(t)).ents| == |s.ents| && Stands(all, E.Next(s, E.WriteRflush(t)), t, freq)
  {
    F.AnswerIs(s, t);
  }

  /** freq has been given back, and the loop goes on to where its flushreq leads, whoever's that is by now. */
  method NextFlush(srv: Srv, freq: Req, t: nat, ghost s: E.State) returns (next: Req?)
    requires t < |s.ents| == |srv.all| && Stands(srv.all, s, t, freq)
    requires Agrees(srv, s) && E.Reached(s) && E.Within(s) && E.Enabled(s, E.Advance(t))
    ensures Agrees(srv, E.Next(s, E.Advance(t))) && Stands(srv.all, E.Next(s, E.Advance(t)), t, next)
  {
    E.Reachable(s);
    OtherStep(srv, s, E.Advance(t));
    AdvanceStands(srv, s, t, freq);
    next := freq.cell.flushreq;
  }

  lemma {:induction false} AdvanceStands(srv: Srv, s: E.State, t: nat, freq: Req)
    requires t < |s.ents| == |srv.all| && Stands(srv.all, s, t, freq)
    requires Agrees(srv, s) && E.Reached(s) && E.Inv(s) && E.Enabled(s, E.Advance(t))
    ensures var n := E.Next(s, E.Advance(t)); |n.ents| == |s.ents| && Stands(srv.all, n, t, freq.cell.flushreq)
  {
    var k := s.ents[t].pc.sent - 1;
    var f := s.ents[t].chain[k];
    F.LoggedLink(s, t, k);
    if E.Intact(s, f) {
      ChainPointer(srv, s, t, k);
    } else {
      PointerReads(srv, s, f);
      if E.Reads(s, f).Some? { F.ReachedOwnCells(s, t); F.ReadsElsewhere(s, t, k); }
    }
    AdvanceIs(srv.all, s, t, freq.cell.flushreq);
  }

  lemma AdvanceIs(all: seq<Req>, s: E.State, t: nat, next: Req?)
    requires E.Inv(s) && E.Enabled(s, E.Advance(t)) && |all| == |s.ents|
    requires forall i :: 0 <= i < |all| ==> all[i].id == i
    requires var chain, k := ChainOf(all, s, t), s.ents[t].pc.sent; var f := s.ents[t].chain[k - 1];
      if E.Intact(s, f) then next == if k < |chain| then chain[k] else null
      else next == ReqAt(all, E.Reads(s, f))
           && (E.Reads(s, f).Some? ==> E.Reads(s, f).value < |all| && E.Reads(s, f).value !in s.ents[t].chain)
    ensures var n := E.Next(s, E.Advance(t)); |n.ents| == |s.ents| && Stands(all, n, t, next)
  {
    var f := s.ents[t].chain[s.ents[t].pc.sent - 1];
    if !E.Intact(s, f) && E.Reads(s, f).Some? { NotOnChain(all, s, t, E.Reads(s, f).value); }
  }

  lemma PointerReads(srv: Srv, s: E.State, f: nat)
    requires Agrees(srv, s) && E.Inv(s) && f < |s.ents|
    ensures srv.all[f].cell.flushreq == ReqAt(srv.all, E.Reads(s, f))
    ensures E.Reads(s, f).Some? ==> E.Reads(s, f).value < |s.ents|
  {
    var c := s.ents[f].cell;
    assert srv.cells[c].flushreq == Pointer(srv.all, s, c);
    if E.Reads(s, f).Some? { F.LeadsInto(s, s.owner[c].value); }
  }

  lemma NotOnChain(all: seq<Req>, s: E.State, t: nat, x: nat)
    requires E.Inv(s) && t < |s.ents| == |all| && x < |all| && x !in s.ents[t].chain
    requires forall i :: 0 <= i < |all| ==> all[i].id == i
    ensures all[x] !in ChainOf(all, s, t)
  {
    forall k | 0 <= k < |s.ents[t].chain| ensures ChainOf(all, s, t)[k] != all[x] { F.LoggedLink(s, t, k); }
  }

  /** What the other threads do meanwhile leaves freq what it ought to be. */
  lemma OthersStand(all: seq<Req>, s: E.State, step: E.Step, all': seq<Req>, t: nat, freq: Req?)
    requires E.Inv(s) && E.Enabled(s, step) && t < |s.ents| == |all| && Stands(all, s, t, freq)
    requires step != E.WriteRflush(t) && step != E.Advance(t) && step != E.Finish(t)
    requires all <= all' && |all'| == |E.Next(s, step).ents|
    ensures Stands(all', E.Next(s, step), t, freq)
  {
    E.InvStep(s, step);
    F.StaysPut(s, step, t);
    F.StaysFinished(s, step, t);
    forall k | 0 <= k < |s.ents[t].chain| ensures ChainOf(all', E.Next(s, step), t)[k] == ChainOf(all, s, t)[k] {
      F.LoggedLink(s, t, k);
    }
  }

  /** Behind the last Tflush the loop ends. */
  lemma EndStands(all: seq<Req>, s: E.State, t: nat)
    requires |all| == |s.ents| && E.Inv(s) && E.Enabled(s, E.Finish(t)) && Stands(all, s, t, null)
    ensures |E.Next(s, E.Finish(t)).ents| == |s.ents| && Stands(all, E.Next(s, E.Finish(t)), t, null)
  {
  }
}
