/** The life of a server and its connections (libnpfs/srv.c, conn.c): who holds a connection, when it is freed, and
    when the server is destroyed. One step for each critical section of the server's lock, and one for each reference
    given back outside it. */
module Teardown {

  /** The reader of a connection: it runs, has taken its connection off the list, and has let go of it. */
  datatype Reader = Running | Removed | Gone

  /** taken: np_srv_shutdown has taken the list's reference and not released it yet; freed: how often
      np_conn_decref has freed the connection. */
  datatype Conn = Conn(refcount: int, listed: bool, taken: bool, reader: Reader, reqs: nat, freed: nat)

  datatype State = State(conns: seq<Conn>, shuttingdown: bool, destroyed: bool, destroys: nat)

  datatype Step =
    | Create                          // np_conn_create, with its reader's first np_conn_incref
    | ReqAlloc(c: nat)                // np_req_alloc, by the reader
    | ReqFree(c: nat)                 // the last np_req_unref
    | RemoveConn(c: nat)              // np_srv_remove_conn, by the reader
    | ReaderLeaves(c: nat)            // its last np_conn_decref
    | Shutdown(shutconns: bool)       // np_srv_shutdown, under the lock
    | Release(c: nat)                 // np_srv_shutdown, for a connection it took

  function Init(): State { State([], false, false, 0) }

  function Decref(c: Conn): Conn {
    c.(refcount := c.refcount - 1, freed := if c.refcount == 1 then c.freed + 1 else c.freed)
  }

  ghost predicate NoneListed(conns: seq<Conn>) { forall i :: 0 <= i < |conns| ==> !conns[i].listed }

  /** The test np_srv_remove_conn and np_srv_shutdown end with, and np_srv_destroy. */
  ghost function Settle(s: State): State {
    if s.shuttingdown && NoneListed(s.conns) && !s.destroyed
    then s.(destroyed := true, destroys := s.destroys + 1) else s
  }

  function TakeAll(conns: seq<Conn>): (r: seq<Conn>)
    ensures |r| == |conns|
    ensures forall i :: 0 <= i < |conns| ==>
      r[i] == if conns[i].listed then conns[i].(listed := false, taken := true) else conns[i]
  {
    seq(|conns|, i requires 0 <= i < |conns| =>
      if conns[i].listed then conns[i].(listed := false, taken := true) else conns[i])
  }

  ghost predicate Enabled(s: State, step: Step) {
    match step
    case Create => true
    case ReqAlloc(c) => c < |s.conns| && s.conns[c].reader.Running?
    case ReqFree(c) => c < |s.conns| && s.conns[c].reqs > 0
    case RemoveConn(c) => c < |s.conns| && s.conns[c].reader.Running?
    case ReaderLeaves(c) => c < |s.conns| && s.conns[c].reader.Removed?
    case Shutdown(_) => true
    case Release(c) => c < |s.conns| && s.conns[c].taken
  }

  ghost function Next(s: State, step: Step): State
    requires Enabled(s, step)
  {
    match step
    case Create =>
      var listed := !s.shuttingdown;
      s.(conns := s.conns + [Conn(if listed then 2 else 1, listed, false, Running, 0, 0)])
    case ReqAlloc(c) =>
      var o := s.conns[c]; s.(conns := s.conns[c := o.(refcount := o.refcount + 1, reqs := o.reqs + 1)])
    case ReqFree(c) => s.(conns := s.conns[c := Decref(s.conns[c]).(reqs := s.conns[c].reqs - 1)])
    case RemoveConn(c) =>
      var o := s.conns[c].(reader := Removed);
      Settle(s.(conns := s.conns[c := if o.listed then Decref(o).(listed := false) else o]))
    case ReaderLeaves(c) => s.(conns := s.conns[c := Decref(s.conns[c]).(reader := Gone)])
    case Shutdown(shutconns) =>
      if s.shuttingdown then s
      else Settle(s.(shuttingdown := true, conns := if shutconns then TakeAll(s.conns) else s.conns))
    case Release(c) => s.(conns := s.conns[c := Decref(s.conns[c]).(taken := false)])
  }

  function Holders(c: Conn): nat {
    (if c.listed then 1 else 0) + (if c.taken then 1 else 0) + (if c.reader.Gone? then 0 else 1) + c.reqs
  }

  /** The reference count is the number of holders; a connection is freed once, when that comes to zero; and only a
      connection whose reader is still there is on the list. */
  ghost predicate ConnOk(c: Conn) {
    c.refcount == Holders(c) && c.freed == (if c.refcount == 0 then 1 else 0)
    && (c.listed ==> c.reader.Running? && !c.taken)
  }

  ghost predicate Inv(s: State) {
    && (forall i :: 0 <= i < |s.conns| ==> ConnOk(s.conns[i]))
    && (s.destroyed <==> s.shuttingdown && NoneListed(s.conns))
    && s.destroys == (if s.destroyed then 1 else 0)
  }

  lemma InvStep(s: State, step: Step)
    requires Inv(s) && Enabled(s, step)
    ensures Inv(Next(s, step))
  {
    var n := Next(s, step);
    match step {
      case Create =>
        assert n.conns[..|s.conns|] == s.conns;
        assert forall i :: 0 <= i < |s.conns| ==> n.conns[i] == s.conns[i];
      case Shutdown(_) =>
      case ReqAlloc(c) => ListedSame(s, n, c);
      case ReqFree(c) => ListedSame(s, n, c);
      case ReaderLeaves(c) => ListedSame(s, n, c);
      case Release(c) => ListedSame(s, n, c);
      case RemoveConn(c) =>
    }
  }

  lemma ListedSame(s: State, n: State, c: nat)
    requires c < |s.conns| == |n.conns| && n.conns == s.conns[c := n.conns[c]] && n.conns[c].listed == s.conns[c].listed
    ensures NoneListed(n.conns) <==> NoneListed(s.conns)
  {
    if NoneListed(n.conns) {
      forall i | 0 <= i < |s.conns| ensures !s.conns[i].listed { assert !n.conns[i].listed; }
    }
  }

  ghost function From(s: State, steps: seq<Step>): (r: State)
    requires CanRun(s, steps)
    decreases |steps|
  {
    if steps == [] then s else From(Next(s, steps[0]), steps[1..])
  }

  ghost predicate CanRun(s: State, steps: seq<Step>)
    decreases |steps|
  {
    steps == [] || (Enabled(s, steps[0]) && CanRun(Next(s, steps[0]), steps[1..]))
  }

  /** Over every run: a connection's reference count is its list reference, or the one np_srv_shutdown took, with its
      reader and its live requests, and it is freed once, at zero; the server is destroyed just when it shuts down with
      no connection listed, and at most once. */
  lemma {:induction false} Conservation(steps: seq<Step>)
    requires CanRun(Init(), steps)
    ensures Inv(From(Init(), steps))
  {
    InvFrom(Init(), steps);
  }

  lemma {:induction false} InvFrom(s: State, steps: seq<Step>)
    requires Inv(s) && CanRun(s, steps)
    ensures Inv(From(s, steps))
    decreases |steps|
  {
    if steps != [] {
      InvStep(s, steps[0]);
      InvFrom(Next(s, steps[0]), steps[1..]);
    }
  }

  /** What has been freed or destroyed stays so: nothing takes a reference to a freed connection again. */
  ghost predicate Final(s: State, n: State) {
    && |s.conns| <= |n.conns| && (s.destroyed ==> n.destroyed && n.destroys == s.destroys)
    && forall i :: 0 <= i < |s.conns| && s.conns[i].freed > 0 ==> n.conns[i] == s.conns[i]
  }

  lemma FinalStep(s: State, step: Step)
    requires Inv(s) && Enabled(s, step)
    ensures Final(s, Next(s, step))
  {
    InvStep(s, step);
    forall i | 0 <= i < |s.conns| && s.conns[i].freed > 0 ensures Next(s, step).conns[i] == s.conns[i] {
      assert ConnOk(s.conns[i]);
    }
  }

  lemma {:induction false} FreedStaysFreed(s: State, steps: seq<Step>)
    requires Inv(s) && CanRun(s, steps)
    ensures Final(s, From(s, steps))
    decreases |steps|
  {
    if steps != [] {
      InvStep(s, steps[0]);
      FinalStep(s, steps[0]);
      FreedStaysFreed(Next(s, steps[0]), steps[1..]);
    }
  }

  // ---- the state, from what has happened

  function Count(steps: seq<Step>, step: Step): nat {
    if steps == [] then 0
    else Count(steps[..|steps| - 1], step) + if steps[|steps| - 1] == step then 1 else 0
  }

  /** Where the first np_srv_shutdown is, if there is one. */
  function FirstShutdown(steps: seq<Step>): (k: nat)
    ensures k <= |steps| && (k < |steps| ==> steps[k].Shutdown?)
    ensures forall i :: 0 <= i < k ==> !steps[i].Shutdown?
  {
    if steps == [] then 0
    else
      var last := |steps| - 1;
      var k := FirstShutdown(steps[..last]);
      if k < last || steps[last].Shutdown? then k else |steps|
  }

  /** The connection was made before the server began to shut down. */
  ghost predicate InTime(steps: seq<Step>, c: nat) { c < Count(steps[..FirstShutdown(steps)], Create) }

  /** It was on the list when np_srv_shutdown took the connections. */
  ghost predicate Taken(steps: seq<Step>, c: nat) {
    var k := FirstShutdown(steps);
    k < |steps| && steps[k].shutconns && InTime(steps, c) && RemoveConn(c) !in steps[..k]
  }

  ghost predicate OnList(steps: seq<Step>, c: nat) {
    InTime(steps, c) && RemoveConn(c) !in steps && !Taken(steps, c)
  }

  /** The steps before anything happens to the connection. */
  ghost predicate Unmentioned(steps: seq<Step>, c: nat) {
    && RemoveConn(c) !in steps && ReaderLeaves(c) !in steps && Release(c) !in steps
    && Count(steps, ReqAlloc(c)) == Count(steps, ReqFree(c)) == 0
  }

  ghost predicate UseTold(o: Conn, steps: seq<Step>, c: nat) {
    && o.reqs + Count(steps, ReqFree(c)) == Count(steps, ReqAlloc(c))
    && (o.reader.Running? <==> RemoveConn(c) !in steps) && (o.reader.Gone? <==> ReaderLeaves(c) in steps)
  }

  ghost predicate ListTold(o: Conn, steps: seq<Step>, c: nat) {
    && (o.listed <==> OnList(steps, c)) && (o.taken <==> Taken(steps, c) && Release(c) !in steps)
    && (Release(c) in steps ==> Taken(steps, c))
  }

  ghost predicate ConnTold(o: Conn, steps: seq<Step>, c: nat) { UseTold(o, steps, c) && ListTold(o, steps, c) }

  ghost predicate Told(steps: seq<Step>, n: State) {
    && |n.conns| == Count(steps, Create) && (n.shuttingdown <==> FirstShutdown(steps) < |steps|)
    && (forall c :: 0 <= c < |n.conns| ==> ConnTold(n.conns[c], steps, c))
    && forall c: nat :: |n.conns| <= c ==> Unmentioned(steps, c)
  }

  lemma {:induction false} CountPrefix(steps: seq<Step>, k: nat, step: Step)
    requires k <= |steps|
    ensures Count(steps[..k], step) <= Count(steps, step)
    decreases |steps|
  {
    if k < |steps| {
      CountPrefix(steps[..|steps| - 1], k, step);
      assert steps[..|steps| - 1][..k] == steps[..k];
    } else {
      assert steps[..k] == steps;
    }
  }

  /** One step more. */
  lemma {:induction false} After(steps: seq<Step>, step: Step)
    ensures var all, k := steps + [step], FirstShutdown(steps);
      && (forall x :: Count(all, x) == Count(steps, x) + if x == step then 1 else 0)
      && (forall x :: x in all <==> x in steps || x == step)
      && FirstShutdown(all) == (if k < |steps| || step.Shutdown? then k else |all|)
      && (FirstShutdown(all) < |all| ==> all[..FirstShutdown(all)] == steps[..k])
      && (FirstShutdown(all) == |all| ==> all[..FirstShutdown(all)] == all && steps[..k] == steps)
  {
    assert (steps + [step])[..|steps|] == steps;
  }

  lemma {:induction false} InTimeAfter(steps: seq<Step>, step: Step, c: nat)
    ensures InTime(steps + [step], c) <==>
      InTime(steps, c) || (step.Create? && FirstShutdown(steps) == |steps| && c == Count(steps, Create))
    ensures InTime(steps, c) ==> c < Count(steps, Create)
    ensures FirstShutdown(steps) == |steps| ==> (InTime(steps, c) <==> c < Count(steps, Create)) && !Taken(steps, c)
  {
    After(steps, step);
    CountPrefix(steps, FirstShutdown(steps), Create);
  }

  lemma {:induction false} TakenAfter(steps: seq<Step>, step: Step, c: nat)
    ensures Taken(steps + [step], c) <==>
      if FirstShutdown(steps) < |steps| then Taken(steps, c)
      else step.Shutdown? && step.shutconns && InTime(steps, c) && RemoveConn(c) !in steps
  {
    After(steps, step);
    InTimeAfter(steps, step, c);
  }

  lemma UseToldStep(steps: seq<Step>, s: State, step: Step, c: nat)
    requires Told(steps, s) && Enabled(s, step) && c < |s.conns|
    ensures UseTold(Next(s, step).conns[c], steps + [step], c)
  {
    After(steps, step);
    assert ConnTold(s.conns[c], steps, c);
  }

  lemma ListToldStep(steps: seq<Step>, s: State, step: Step, c: nat)
    requires Told(steps, s) && Enabled(s, step) && c < |s.conns| && ConnOk(s.conns[c])
    ensures ListTold(Next(s, step).conns[c], steps + [step], c)
  {
    After(steps, step);
    InTimeAfter(steps, step, c);
    TakenAfter(steps, step, c);
    assert ConnTold(s.conns[c], steps, c);
  }

  lemma NewConnTold(steps: seq<Step>, s: State, c: nat)
    requires Told(steps, s) && c == |s.conns|
    ensures ConnTold(Next(s, Create).conns[c], steps + [Create], c)
  {
    After(steps, Create);
    InTimeAfter(steps, Create, c);
    TakenAfter(steps, Create, c);
    assert Unmentioned(steps, c);
  }

  lemma ToldStep(steps: seq<Step>, s: State, step: Step)
    requires Inv(s) && Told(steps, s) && Enabled(s, step)
    ensures Told(steps + [step], Next(s, step))
  {
    var n := Next(s, step);
    After(steps, step);
    forall c | 0 <= c < |n.conns| ensures ConnTold(n.conns[c], steps + [step], c) {
      if c < |s.conns| {
        UseToldStep(steps, s, step, c);
        ListToldStep(steps, s, step, c);
      } else {
        NewConnTold(steps, s, c);
      }
    }
    forall c: nat | |n.conns| <= c ensures Unmentioned(steps + [step], c) { assert Unmentioned(steps, c); }
  }

  lemma {:induction false} RunBut(s: State, steps: seq<Step>)
    requires steps != [] && CanRun(s, steps)
    ensures var pre, last := steps[..|steps| - 1], steps[|steps| - 1];
      CanRun(s, pre) && Enabled(From(s, pre), last) && From(s, steps) == Next(From(s, pre), last)
    decreases |steps|
  {
    var pre := steps[..|steps| - 1];
    if |steps| > 1 {
      RunBut(Next(s, steps[0]), steps[1..]);
      assert steps[1..][..|steps| - 2] == pre[1..];
    } else {
      assert steps[1..] == [];
    }
  }

  /** Over every run, what has happened so far tells the state: how many connections there are, which are listed or
      taken, where each reader is, and how many requests each has. */
  lemma {:induction false} ToldByHistory(steps: seq<Step>)
    requires CanRun(Init(), steps)
    ensures Told(steps, From(Init(), steps)) && Inv(From(Init(), steps))
    decreases |steps|
  {
    Conservation(steps);
    if steps != [] {
      var pre, last := steps[..|steps| - 1], steps[|steps| - 1];
      RunBut(Init(), steps);
      ToldByHistory(pre);
      ToldStep(pre, From(Init(), pre), last);
      assert pre + [last] == steps;
    }
  }

  /** A connection is freed, once, just when its reader has left it, as many of its requests have been freed as were
      allocated, and np_srv_shutdown has released it if it took it. */
  lemma {:induction false} FreedExactly(steps: seq<Step>, c: nat)
    requires CanRun(Init(), steps) && c < Count(steps, Create)
    ensures var n := From(Init(), steps);
      && |n.conns| == Count(steps, Create)
      && n.conns[c].freed ==
           if ReaderLeaves(c) in steps && Count(steps, ReqAlloc(c)) == Count(steps, ReqFree(c))
              && (Taken(steps, c) ==> Release(c) in steps) then 1 else 0
  {
    ToldByHistory(steps);
    var n := From(Init(), steps);
    assert ConnTold(n.conns[c], steps, c) && ConnOk(n.conns[c]);
  }

  /** The server is destroyed just when it has begun to shut down and no connection made before that is left: all were
      taken then, or each reader has removed its own. */
  lemma {:induction false} DestroyedExactly(steps: seq<Step>)
    requires CanRun(Init(), steps)
    ensures var k := FirstShutdown(steps);
      From(Init(), steps).destroyed <==>
        k < |steps| && (steps[k].shutconns || forall c: nat :: InTime(steps, c) ==> RemoveConn(c) in steps)
  {
    ToldByHistory(steps);
    var n, k := From(Init(), steps), FirstShutdown(steps);
    CountPrefix(steps, k, Create);
    forall c: nat | c < |n.conns| ensures n.conns[c].listed <==> OnList(steps, c) {
      assert ConnTold(n.conns[c], steps, c);
    }
    if k < |steps| && !steps[k].shutconns {
      forall c: nat ensures OnList(steps, c) <==> InTime(steps, c) && RemoveConn(c) !in steps { }
      if NoneListed(n.conns) {
        forall c: nat | InTime(steps, c) ensures RemoveConn(c) in steps { assert !n.conns[c].listed; }
      }
    }
  }

  /** And it tells what can happen next. */
  lemma {:induction false} EnabledExactly(steps: seq<Step>, c: nat)
    requires CanRun(Init(), steps)
    ensures var n := From(Init(), steps);
      && (Enabled(n, ReqAlloc(c)) <==> c < Count(steps, Create) && RemoveConn(c) !in steps)
      && (Enabled(n, RemoveConn(c)) <==> c < Count(steps, Create) && RemoveConn(c) !in steps)
      && (Enabled(n, ReqFree(c)) <==> Count(steps, ReqFree(c)) < Count(steps, ReqAlloc(c)))
      && (Enabled(n, ReaderLeaves(c)) <==> RemoveConn(c) in steps && ReaderLeaves(c) !in steps)
      && (Enabled(n, Release(c)) <==> Taken(steps, c) && Release(c) !in steps)
  {
    ToldByHistory(steps);
    var n := From(Init(), steps);
    if c < |n.conns| {
      assert ConnTold(n.conns[c], steps, c);
    } else {
      assert Unmentioned(steps, c);
      InTimeAfter(steps, Create, c);
    }
  }

  // ---- the list of connections, in memory

  class Npconn {
    var refcount: int
    var next: Npconn?

    constructor ()
      ensures refcount == 0 && next == null
    {
      refcount, next := 0, null;
    }
  }

  ghost predicate Chained(first: Npconn?, list: seq<Npconn>)
    reads (set c | c in list)`next
    decreases |list|
  {
    if list == [] then first == null else first == list[0] && Chained(list[0].next, list[1..])
  }

  ghost predicate Distinct(list: seq<Npconn>) { list == [] || (list[0] !in list[1..] && Distinct(list[1..])) }

  /** The links from first through the connections of list to end. */
  ghost predicate Segment(first: Npconn?, list: seq<Npconn>, end: Npconn?)
    reads (set c | c in list)`next
    decreases |list|
  {
    if list == [] then first == end else first == list[0] && Segment(list[0].next, list[1..], end)
  }

  lemma {:induction false} SegmentThen(first: Npconn?, a: seq<Npconn>, mid: Npconn?, b: seq<Npconn>)
    requires Segment(first, a, mid) && Chained(mid, b)
    ensures Chained(first, a + b)
    decreases |a|
  {
    if a == [] {
      assert a + b == b;
    } else {
      SegmentThen(a[0].next, a[1..], mid, b);
      assert (a + b)[1..] == a[1..] + b;
    }
  }

  lemma {:induction false} SegmentMore(first: Npconn?, a: seq<Npconn>, c: Npconn)
    requires Segment(first, a, c)
    ensures Segment(first, a + [c], c.next)
    decreases |a|
  {
    if a == [] {
      assert a + [c] == [c] && [c][1..] == [];
    } else {
      SegmentMore(a[0].next, a[1..], c);
      assert (a + [c])[1..] == a[1..] + [c];
    }
  }

  lemma {:induction false} DistinctSplit(a: seq<Npconn>, b: seq<Npconn>)
    requires Distinct(a + b)
    ensures Distinct(a) && Distinct(b) && forall c :: c in a ==> c !in b
    decreases |a|
  {
    if a == [] {
      assert a + b == b;
    } else {
      assert (a + b)[1..] == a[1..] + b;
      DistinctSplit(a[1..], b);
    }
  }

  lemma {:induction false} WithoutSplit(a: seq<Npconn>, c: Npconn, b: seq<Npconn>)
    requires c !in a
    ensures Without(a + ([c] + b), c) == a + b && (Distinct(a + ([c] + b)) ==> Distinct(a + b) && c !in a + b)
    decreases |a|
  {
    if a == [] {
      assert a + ([c] + b) == [c] + b && ([c] + b)[1..] == b && a + b == b;
    } else {
      WithoutSplit(a[1..], c, b);
      assert (a + ([c] + b))[1..] == a[1..] + ([c] + b) && (a + b)[1..] == a[1..] + b;
      assert forall x :: x in a[1..] + b ==> x in a[1..] + ([c] + b);
      assert [a[0]] + (a[1..] + b) == a + b;
    }
  }

  lemma {:induction false} WithoutNone(list: seq<Npconn>, conn: Npconn)
    requires conn !in list
    ensures Without(list, conn) == list
  {
    if list != [] { WithoutNone(list[1..], conn); }
  }

  function Without(list: seq<Npconn>, conn: Npconn): seq<Npconn> {
    if list == [] then [] else if list[0] == conn then list[1..] else [list[0]] + Without(list[1..], conn)
  }

  class Npsrv {
    var conns: Npconn?
    var shuttingdown: bool
    var destroyed: bool
    /** How often np_srv_destroy has run. */
    ghost var destroys: nat
    ghost var list: seq<Npconn>

    ghost predicate Valid()
      reads this, list
    {
      && Chained(conns, list) && Distinct(list)
      && (destroyed <==> shuttingdown && list == []) && destroys == if destroyed then 1 else 0
    }

    constructor ()
      ensures Valid() && list == [] && !shuttingdown
    {
      conns, shuttingdown, destroyed, destroys, list := null, false, false, 0, [];
    }

    method AddConn(conn: Npconn) returns (ret: bool)
      requires Valid() && conn !in list
      modifies this, conn
      ensures Valid() && ret == !old(shuttingdown) && shuttingdown == old(shuttingdown)
      ensures list == if ret then [conn] + old(list) else old(list)
      ensures conn.refcount == old(conn.refcount) + if ret then 1 else 0
    {
      ret := !shuttingdown;
      if ret {
        conn.refcount := conn.refcount + 1;
        conn.next := conns;
        conns := conn;
        list := [conn] + list;
      }
    }

    /** np_srv_destroy, with what it is called for. */
    method Settled()
      requires Chained(conns, list) && Distinct(list) && destroys == (if destroyed then 1 else 0)
      requires destroyed ==> shuttingdown && list == []
      modifies this`destroyed, this`destroys
      ensures Valid()
    {
      if shuttingdown && conns == null && !destroyed {
        destroyed := true;
        destroys := destroys + 1;
      }
    }

    /** The walk of np_srv_remove_conn; pc holds the link to c, null for the head of the list. */
    method Walk(conn: Npconn) returns (c: Npconn?, pc: Npconn?, ghost before: seq<Npconn>, ghost rest: seq<Npconn>)
      requires Valid()
      ensures list == before + rest && conn !in before && Chained(c, rest)
      ensures if c == null then rest == [] else c == conn && rest != [] && rest[0] == conn
      ensures if pc == null then before == [] else Links(before, pc, c)
    {
      c, pc, before, rest := conns, null, [], list;
      assert [] + list == list;
      while c != null && c != conn
        invariant list == before + rest && conn !in before && Chained(c, rest)
        invariant if pc == null then before == [] && c == conns else Links(before, pc, c)
        decreases |rest|
      {
        Advance(before, rest);
        LinksMore(before, pc, c);
        before, rest := before + [rest[0]], rest[1..];
        pc := c;
        c := c.next;
      }
    }

    lemma LinksMore(before: seq<Npconn>, pc: Npconn?, c: Npconn)
      requires if pc == null then before == [] && c == conns else Links(before, pc, c)
      ensures Links(before + [c], c, c.next)
    {
      assert (before + [c])[..|before|] == before;
      if pc != null {
        SegmentMore(conns, before[..|before| - 1], pc);
        assert before[..|before| - 1] + [pc] == before;
      }
    }

    method Unchain(conn: Npconn) returns (found: bool)
      requires Valid()
      modifies this`conns, this`list, (set c | c in list)`next
      ensures found == (conn in old(list)) && list == Without(old(list), conn)
      ensures Chained(conns, list) && Distinct(list)
    {
      var c, pc;
      ghost var before, rest;
      c, pc, before, rest := Walk(conn);
      if c == null {
        assert before + [] == before;
        WithoutNone(list, conn);
        return false;
      }
      ghost var tail := rest[1..];
      assert rest == [conn] + tail && list[|before|] == conn;
      WithoutSplit(before, conn, tail);
      if pc == null {
        conns := c.next;
        assert before + tail == tail;
      } else {
        Bypass(before, pc, c, tail);
      }
      list := before + tail;
      found := true;
    }

    /** *pc = c->next. */
    method Bypass(ghost before: seq<Npconn>, pc: Npconn, c: Npconn, ghost tail: seq<Npconn>)
      requires Links(before, pc, c) && Chained(c, [c] + tail) && Distinct(before + ([c] + tail))
      modifies pc`next
      ensures Chained(conns, before + tail)
    {
      ghost var init := before[..|before| - 1];
      DistinctSplit(before, [c] + tail);
      assert init + [pc] == before && ([c] + tail)[1..] == tail && pc in before;
      DistinctSplit(init, [pc]);
      assert pc !in init && pc !in tail by { assert pc in [pc] && forall x :: x in tail ==> x in [c] + tail; }
      pc.next := c.next;
      assert ([pc] + tail)[1..] == tail;
      SegmentThen(conns, init, pc, [pc] + tail);
      assert init + ([pc] + tail) == before + tail;
    }

    /** The last connection of before is pc, and its link goes to c. */
    ghost predicate Links(before: seq<Npconn>, pc: Npconn, c: Npconn?)
      reads this, before, pc
    {
      before != [] && before[|before| - 1] == pc && pc.next == c && Segment(conns, before[..|before| - 1], pc)
    }

    /** np_srv_remove_conn. */
    method RemoveConn(conn: Npconn)
      requires Valid()
      modifies this, (set c | c in list)`next, conn`refcount
      ensures Valid() && list == Without(old(list), conn) && shuttingdown == old(shuttingdown)
      ensures conn.refcount == old(conn.refcount) - if conn in old(list) then 1 else 0
    {
      ghost var was := list;
      var found := Unchain(conn);
      if found { conn.refcount := conn.refcount - 1; }
      if destroyed { assert was == []; }
      Settled();
    }

    /** np_srv_shutdown under the lock; taken are the connections it shuts down and releases afterwards. */
    method Shutdown(shutconns: bool) returns (first: Npconn?, ghost taken: seq<Npconn>)
      requires Valid()
      modifies this
      ensures Valid() && shuttingdown && Chained(first, taken)
      ensures taken == if !old(shuttingdown) && shutconns then old(list) else []
      ensures list == if !old(shuttingdown) && shutconns then [] else old(list)
    {
      first, taken := null, [];
      if shuttingdown { return; }
      shuttingdown := true;
      if shutconns {
        first, taken := conns, list;
        conns, list := null, [];
      }
      Settled();
    }
  }

  lemma Advance(before: seq<Npconn>, rest: seq<Npconn>)
    requires rest != []
    ensures before + rest == (before + [rest[0]]) + rest[1..]
  {
  }
}
