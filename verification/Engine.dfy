/** The request engine of libnpfs/srv.c, fcall.c and conn.c as a transition system: one step for each critical section
    of the server's lock, plus the writes and the flag updates between them. Any number of worker threads, readers,
    resets and backend threads take the steps, in any order. */
module Engine {
  import opened Bytes

  datatype Kind = Version | Flush(oldtag: nat) | Other

  datatype Req = Req(conn: nat, tag: nat, kind: Kind)

  /** Where a request is. Queued is the list that starts at reqs_first; the next four are on workreqs. */
  datatype Pc =
    | Queued
    | Handling                              // the handler has not decided yet
    | Answering                             // np_flush returned an Rflush of its own
    | Chained(target: nat)                  // np_flush hung the Tflush on the target's flushreq list
    | Responding(reply: bool)               // np_respond set responded; reply says whether rc is not NULL
    | Unlinked(reply: bool)                 // off workreqs, nothing written yet
    | Flushing(reply: bool, sent: nat)      // its own reply and the first Rflushes of its chain are out; freq is next
    | Between(reply: bool, sent: nat)       // freq is answered and given back, and its flushreq is not read yet
    | Astray(reply: bool, sent: nat)        // freq is a request that was never on the chain
    | Done(reply: bool, sent: nat)
    | Flushed(target: nat)                  // a chained Tflush that left workreqs with its target
    | Answered(target: nat)                 // its Rflush is out
    | Dropped                               // taken off the queue by a Tflush or a reset, never handled

  /** A request: its memory is one of the cells np_req_alloc hands out, one after another to different requests. */
  datatype Entry = Entry(req: Req, pc: Pc, chain: seq<nat>, cell: nat)

  /** What the outside sees: a handler starts, np_conn_respond gets a reply, np_conn_respond gets an Rflush. */
  datatype Event = Handle(id: nat) | Reply(id: nat) | Rflush(id: nat)

  /** np_conn_reset runs in the handler of a Tversion, or in the reader once the transport is gone. */
  datatype Resetter = ByVersion(id: nat) | ByReader(conn: nat)

  /** A reset that waits holds a reference to each request it found working, until it ends. */
  datatype Phase = Marked | Waiting(held: set<nat>) | Passed(held: set<nat>) | Closed

  /** owner says of each cell which request's data are in it; None, that np_req_alloc has cleared it for another. */
  datatype State = State(ents: seq<Entry>, queue: seq<nat>, work: seq<nat>, log: seq<Event>,
                         resetting: set<nat>, resets: map<Resetter, Phase>, owner: seq<Option<nat>>)

  datatype Step =
    | Alloc(cell: nat)
    | Add(req: Req, cell: nat)
    | Take
    | FlushStep(id: nat)
    | Respond(id: nat, reply: bool)
    | Unlink(id: nat)
    | WriteReply(id: nat)
    | WriteRflush(id: nat)
    | Advance(id: nat)
    | Finish(id: nat)
    | Mark(who: Resetter)
    | Sweep(who: Resetter)
    | Pass(who: Resetter)
    | Clear(who: Resetter)

  function Init(): State { State([], [], [], [], {}, map[], []) }

  // ---- lists of requests

  ghost predicate Sorted(s: seq<nat>) { forall i, j :: 0 <= i < j < |s| ==> s[i] < s[j] }

  ghost predicate Distinct<T>(s: seq<T>) { forall i, j :: 0 <= i < j < |s| ==> s[i] != s[j] }

  function Without<T(==)>(s: seq<T>, drop: set<T>): seq<T> {
    if s == [] then []
    else if s[0] in drop then Without(s[1..], drop)
    else [s[0]] + Without(s[1..], drop)
  }

  lemma {:induction false} WithoutMembers<T>(s: seq<T>, drop: set<T>)
    ensures forall x :: x in Without(s, drop) <==> x in s && x !in drop
  {
    if s != [] {
      WithoutMembers(s[1..], drop);
      assert s == [s[0]] + s[1..];
    }
  }

  lemma {:induction false} WithoutSorted(s: seq<nat>, drop: set<nat>)
    requires Sorted(s)
    ensures Sorted(Without(s, drop))
  {
    if s != [] {
      WithoutSorted(s[1..], drop);
      WithoutMembers(s[1..], drop);
      var r := Without(s[1..], drop);
      forall i | 0 <= i < |r| ensures s[0] < r[i] { assert r[i] in r; }
    }
  }

  lemma {:induction false} WithoutDistinct(s: seq<nat>, drop: set<nat>)
    requires Distinct(s)
    ensures Distinct(Without(s, drop))
  {
    if s != [] {
      WithoutDistinct(s[1..], drop);
      WithoutMembers(s[1..], drop);
      var r := Without(s[1..], drop);
      forall i | 0 <= i < |r| ensures s[0] != r[i] { assert r[i] in r; }
    }
  }

  ghost predicate Valid(ents: seq<Entry>, ids: seq<nat>) { forall x :: x in ids ==> x < |ents| }

  predicate Named(e: Entry, conn: nat, tag: nat) { e.req.conn == conn && e.req.tag == tag }

  /** The first request of the list with the connection and tag. */
  function First(ents: seq<Entry>, ids: seq<nat>, conn: nat, tag: nat): (r: Option<nat>)
    requires Valid(ents, ids)
    ensures r.Some? ==> r.value in ids && r.value < |ents| && Named(ents[r.value], conn, tag)
    ensures r.None? ==> forall x :: x in ids ==> x < |ents| && !Named(ents[x], conn, tag)
  {
    if ids == [] then None
    else
      assert ids[0] in ids && forall x :: x in ids[1..] ==> x in ids;
      if Named(ents[ids[0]], conn, tag) then Some(ids[0]) else First(ents, ids[1..], conn, tag)
  }

  // ---- the steps

  ghost predicate Within(s: State) { Valid(s.ents, s.queue) && Valid(s.ents, s.work) }

  ghost predicate Resets(s: State, r: Resetter) {
    r in s.resets && (r.ByVersion? ==> r.id < |s.ents|)
  }

  /** The reset has begun and not ended. */
  ghost predicate Busy(s: State, r: Resetter) { r in s.resets && !s.resets[r].Closed? }

  function ConnOf(s: State, r: Resetter): nat
    requires r.ByVersion? ==> r.id < |s.ents|
  {
    match r case ByVersion(id) => s.ents[id].req.conn case ByReader(c) => c
  }

  /** The request np_flush finds on the queue, or else on workreqs. */
  function QueuedTarget(s: State, f: nat): Option<nat>
    requires Within(s) && f < |s.ents| && s.ents[f].req.kind.Flush?
  {
    First(s.ents, s.queue, s.ents[f].req.conn, s.ents[f].req.kind.oldtag)
  }

  function WorkingTarget(s: State, f: nat): Option<nat>
    requires Within(s) && f < |s.ents| && s.ents[f].req.kind.Flush?
  {
    First(s.ents, s.work, s.ents[f].req.conn, s.ents[f].req.kind.oldtag)
  }

  /** A Tversion does not wait for itself, or for another Tversion. */
  predicate Awaits(s: State, r: Resetter, x: nat)
    requires x < |s.ents| && (r.ByVersion? ==> r.id < |s.ents|)
  {
    s.ents[x].req.conn == ConnOf(s, r) && !(r.ByVersion? && s.ents[x].req.kind.Version?)
  }

  /** The condition np_conn_reset waits for. */
  ghost predicate Quiet(s: State, r: Resetter)
    requires Within(s) && (r.ByVersion? ==> r.id < |s.ents|)
  {
    forall x :: x in s.work ==> !Awaits(s, r, x)
  }

  ghost predicate At(s: State, id: nat) { id < |s.ents| }

  // ---- the memory of the requests

  /** np_respond or np_flush or a reset has given the request's own reference back. */
  predicate Released(pc: Pc) { pc.Done? || pc.Answered? || pc.Dropped? }

  ghost predicate HeldBy(s: State, r: Resetter, x: nat) {
    r in s.resets && (s.resets[r].Waiting? || s.resets[r].Passed?) && x in s.resets[r].held
  }

  ghost predicate Held(s: State, x: nat) { exists r :: HeldBy(s, r, x) }

  /** The cell's request is back on reqpool. */
  ghost predicate Pooled(s: State, cell: nat) {
    && cell < |s.owner| && s.owner[cell].Some? && At(s, s.owner[cell].value)
    && Released(s.ents[s.owner[cell].value].pc) && !Held(s, s.owner[cell].value)
  }

  /** np_req_alloc has not taken the request's memory since. */
  predicate Intact(s: State, x: nat) {
    x < |s.ents| && s.ents[x].cell < |s.owner| && s.owner[s.ents[x].cell] == Some(x)
  }

  function After(chain: seq<nat>, x: nat): Option<nat> {
    if chain == [] then None
    else if chain[0] == x then (if |chain| > 1 then Some(chain[1]) else None)
    else After(chain[1..], x)
  }

  /** The request's flushreq: the newest Tflush that hangs on it, or the next older one beside it. */
  function LeadsTo(s: State, x: nat): Option<nat>
    requires x < |s.ents|
  {
    var e := s.ents[x];
    if Linked(e.pc) then (if e.pc.target < |s.ents| then After(s.ents[e.pc.target].chain, x) else None)
    else if e.chain == [] then None
    else Some(e.chain[0])
  }

  /** What flushreq says in the memory of request x, whose data may be another's by now. */
  function Reads(s: State, x: nat): Option<nat>
    requires x < |s.ents|
  {
    var cell := s.ents[x].cell;
    if cell < |s.owner| && s.owner[cell].Some? && s.owner[cell].value < |s.ents| then LeadsTo(s, s.owner[cell].value)
    else None
  }

  /** When a step can be taken. The conditions that are not the code's own are the rules of the model: the client
      flushes no Tflush, and the backend responds to a request other than a Tflush once. */
  ghost predicate Enabled(s: State, step: Step)
    requires Within(s)
  {
    match step
    case Alloc(cell) => Pooled(s, cell)
    case Add(req, cell) =>
      ByReader(req.conn) !in s.resets && cell <= |s.owner| && (cell < |s.owner| ==> s.owner[cell].None?)
    case Take => s.queue != [] && At(s, s.queue[0])
    case FlushStep(f) =>
      && At(s, f) && s.ents[f].pc.Handling? && s.ents[f].req.kind.Flush?
      && (QueuedTarget(s, f).None? && WorkingTarget(s, f).Some? ==> !s.ents[WorkingTarget(s, f).value].req.kind.Flush?)
    case Respond(id, reply) =>
      && At(s, id)
      && if s.ents[id].req.kind.Flush? then s.ents[id].pc.Answering? && reply
         else s.ents[id].pc.Handling? && !Busy(s, ByVersion(id))
    case Unlink(id) => At(s, id) && s.ents[id].pc.Responding?
    case WriteReply(id) => At(s, id) && s.ents[id].pc.Unlinked?
    case WriteRflush(id) =>
      && At(s, id) && s.ents[id].pc.Flushing? && s.ents[id].pc.sent < |s.ents[id].chain|
      && At(s, s.ents[id].chain[s.ents[id].pc.sent])
    case Advance(id) =>
      && At(s, id) && s.ents[id].pc.Between? && 0 < s.ents[id].pc.sent <= |s.ents[id].chain|
      && At(s, s.ents[id].chain[s.ents[id].pc.sent - 1])
    case Finish(id) => At(s, id) && s.ents[id].pc.Flushing? && s.ents[id].pc.sent == |s.ents[id].chain|
    case Mark(r) =>
      r !in s.resets && (r.ByVersion? ==> At(s, r.id) && s.ents[r.id].pc.Handling? && s.ents[r.id].req.kind.Version?)
    case Sweep(r) => Resets(s, r) && s.resets[r].Marked?
    case Pass(r) => Resets(s, r) && s.resets[r].Waiting? && Quiet(s, r)
    case Clear(r) => Resets(s, r) && s.resets[r].Passed?
  }

  function SetPc(ents: seq<Entry>, id: nat, pc: Pc): seq<Entry>
    requires id < |ents|
  {
    ents[id := ents[id].(pc := pc)]
  }

  /** Every id in the set gets the pc. */
  function SetAll(ents: seq<Entry>, ids: set<nat>, pc: Pc): (r: seq<Entry>)
    ensures |r| == |ents|
    ensures forall i :: 0 <= i < |ents| ==> r[i] == if i in ids then ents[i].(pc := pc) else ents[i]
  {
    seq(|ents|, i requires 0 <= i < |ents| => if i in ids then ents[i].(pc := pc) else ents[i])
  }

  /** The queued requests of the connection. */
  function Swept(s: State, conn: nat): set<nat>
    requires Within(s)
  {
    set x | x in s.queue && s.ents[x].req.conn == conn
  }

  ghost function FlushNext(s: State, f: nat): State
    requires Within(s) && Enabled(s, FlushStep(f))
  {
    match QueuedTarget(s, f)
    case Some(t) =>
      s.(ents := SetPc(SetPc(s.ents, t, Dropped), f, Answering), queue := Without(s.queue, {t}))
    case None =>
      match WorkingTarget(s, f)
      case Some(t) =>
        s.(ents := SetPc(s.ents, f, Chained(t))[t := s.ents[t].(chain := [f] + s.ents[t].chain)])
      case None => s.(ents := SetPc(s.ents, f, Answering))
  }

  /** The request and the Tflushes that hang on it. */
  function Together(s: State, id: nat): set<nat>
    requires id < |s.ents|
  {
    (set f | f in s.ents[id].chain) + {id}
  }

  ghost function UnlinkNext(s: State, id: nat): State
    requires At(s, id) && s.ents[id].pc.Responding?
  {
    var flushes := set f | f in s.ents[id].chain;
    s.(ents := SetPc(SetAll(s.ents, flushes, Flushed(id)), id, Unlinked(s.ents[id].pc.reply)),
       work := Without(s.work, Together(s, id)))
  }

  /** The data of request x are in the cell, which may be a new one. */
  function Owned(owner: seq<Option<nat>>, cell: nat, x: nat): seq<Option<nat>> {
    if cell < |owner| then owner[cell := Some(x)] else owner + [Some(x)]
  }

  /** The loop of np_respond reads flushreq of the Tflush it has just given back. */
  ghost function Advanced(s: State, id: nat): Pc
    requires Within(s) && Enabled(s, Advance(id))
  {
    var pc := s.ents[id].pc;
    var f := s.ents[id].chain[pc.sent - 1];
    if Intact(s, f) then Flushing(pc.reply, pc.sent)
    else if Reads(s, f).None? then Done(pc.reply, pc.sent)
    else Astray(pc.reply, pc.sent)
  }

  ghost function Next(s: State, step: Step): State
    requires Within(s) && Enabled(s, step)
  {
    match step
    case Alloc(cell) => s.(owner := s.owner[cell := None])
    case Add(req, cell) =>
      if req.conn in s.resetting then s
      else s.(ents := s.ents + [Entry(req, Queued, [], cell)], queue := s.queue + [|s.ents|],
              owner := Owned(s.owner, cell, |s.ents|))
    case Take =>
      var id := s.queue[0];
      s.(ents := SetPc(s.ents, id, Handling), queue := s.queue[1..], work := [id] + s.work, log := s.log + [Handle(id)])
    case FlushStep(f) => FlushNext(s, f)
    case Respond(id, reply) => s.(ents := SetPc(s.ents, id, Responding(reply)))
    case Unlink(id) => UnlinkNext(s, id)
    case WriteReply(id) =>
      var r := s.ents[id].pc.reply;
      s.(ents := SetPc(s.ents, id, Flushing(r, 0)), log := if r then s.log + [Reply(id)] else s.log)
    case WriteRflush(id) =>
      var pc := s.ents[id].pc;
      var f := s.ents[id].chain[pc.sent];
      s.(ents := SetPc(SetPc(s.ents, f, Answered(id)), id, Between(pc.reply, pc.sent + 1)), log := s.log + [Rflush(f)])
    case Advance(id) => s.(ents := SetPc(s.ents, id, Advanced(s, id)))
    case Finish(id) => s.(ents := SetPc(s.ents, id, Done(s.ents[id].pc.reply, s.ents[id].pc.sent)))
    case Mark(r) => s.(resetting := s.resetting + {ConnOf(s, r)}, resets := s.resets[r := Marked])
    case Sweep(r) =>
      var gone := Swept(s, ConnOf(s, r));
      s.(ents := SetAll(s.ents, gone, Dropped), queue := Without(s.queue, gone),
         resets := s.resets[r := Waiting(set x | x in s.work && Awaits(s, r, x))])
    case Pass(r) => s.(resets := s.resets[r := Passed(s.resets[r].held)])
    case Clear(r) => s.(resetting := s.resetting - {ConnOf(s, r)}, resets := s.resets[r := Closed])
  }

  // ---- the lists and the requests agree

  datatype Place = OnQueue | OnWork | Finished

  function PlaceOf(pc: Pc): Place {
    match pc
    case Queued => OnQueue
    case Handling => OnWork case Answering => OnWork case Chained(_) => OnWork case Responding(_) => OnWork
    case _ => Finished
  }

  /** Each accepted request is in exactly one place, and the lists hold it accordingly, the queue by arrival. */
  ghost predicate Placed(ents: seq<Entry>, queue: seq<nat>, work: seq<nat>) {
    && Sorted(queue) && Distinct(work) && Valid(ents, queue) && Valid(ents, work)
    && (forall x :: 0 <= x < |ents| ==> (x in queue <==> PlaceOf(ents[x].pc) == OnQueue))
    && (forall x :: 0 <= x < |ents| ==> (x in work <==> PlaceOf(ents[x].pc) == OnWork))
  }

  ghost predicate Lists(s: State) { Placed(s.ents, s.queue, s.work) }

  /** The pc of the k-th Tflush on a request's chain. */
  function LinkPc(pc: Pc, t: nat, k: nat): Pc {
    match pc
    case Unlinked(_) => Flushed(t)
    case Flushing(_, n) => if k < n then Answered(t) else Flushed(t)
    case Between(_, n) => if k < n then Answered(t) else Flushed(t)
    case Astray(_, n) => if k < n then Answered(t) else Flushed(t)
    case Done(_, n) => if k < n then Answered(t) else Flushed(t)
    case _ => Chained(t)
  }

  predicate Linked(pc: Pc) { pc.Chained? || pc.Flushed? || pc.Answered? }

  /** Its own reply is out. */
  predicate Behind(pc: Pc) { pc.Flushing? || pc.Between? || pc.Astray? || pc.Done? }

  /** So many Rflushes can be out as there are Tflushes on the chain; all are, unless the loop lost its way. */
  predicate SentOk(pc: Pc, n: nat) {
    && (Behind(pc) ==> pc.sent <= n)
    && (pc.Between? || pc.Astray? || (pc.Done? && pc.sent < n) ==> pc.sent > 0)
  }

  ghost predicate ChainOk(s: State, t: nat)
    requires t < |s.ents|
  {
    var e := s.ents[t];
    && Distinct(e.chain)
    && (e.chain != [] ==> !e.req.kind.Flush? && !e.pc.Queued? && !e.pc.Dropped?)
    && SentOk(e.pc, |e.chain|)
    && (Linked(e.pc) || e.pc.Answering? ==> e.req.kind.Flush?)
    && forall k :: 0 <= k < |e.chain| ==>
         e.chain[k] < |s.ents| && s.ents[e.chain[k]].pc == LinkPc(e.pc, t, k)
  }

  ghost predicate LinkOk(s: State, f: nat)
    requires f < |s.ents|
  {
    Linked(s.ents[f].pc) ==> s.ents[f].pc.target < |s.ents| && f in s.ents[s.ents[f].pc.target].chain
  }

  ghost predicate Chains(s: State) {
    && (forall t :: 0 <= t < |s.ents| ==> ChainOk(s, t))
    && (forall f :: 0 <= f < |s.ents| ==> LinkOk(s, f))
  }

  lemma PlacedStays(ents: seq<Entry>, ents': seq<Entry>, queue: seq<nat>, work: seq<nat>)
    requires Placed(ents, queue, work) && |ents'| == |ents|
    requires forall x :: 0 <= x < |ents| ==> PlaceOf(ents'[x].pc) == PlaceOf(ents[x].pc)
    ensures Placed(ents', queue, work)
  {
  }

  lemma PlacedAppends(ents: seq<Entry>, req: Req, cell: nat, queue: seq<nat>, work: seq<nat>)
    requires Placed(ents, queue, work)
    ensures Placed(ents + [Entry(req, Queued, [], cell)], queue + [|ents|], work)
  {
    forall i | 0 <= i < |queue| ensures queue[i] < |ents| { assert queue[i] in queue; }
  }

  lemma PlacedTakes(ents: seq<Entry>, queue: seq<nat>, work: seq<nat>)
    requires Placed(ents, queue, work) && queue != []
    ensures queue[0] < |ents| && Placed(SetPc(ents, queue[0], Handling), queue[1..], [queue[0]] + work)
  {
    var rest := queue[1..];
    assert queue[0] in queue && queue == [queue[0]] + rest;
    forall x | x in rest ensures x > queue[0] && x in queue { }
  }

  /** Some requests leave the queue for good. */
  lemma {:induction false} PlacedDrops(ents: seq<Entry>, queue: seq<nat>, work: seq<nat>, gone: set<nat>)
    requires Placed(ents, queue, work) && forall x :: x in gone ==> x in queue
    ensures Placed(SetAll(ents, gone, Dropped), Without(queue, gone), work)
  {
    WithoutSorted(queue, gone);
    WithoutMembers(queue, gone);
  }

  lemma {:induction false} PlacedLess(ents: seq<Entry>, n: seq<Entry>, queue: seq<nat>, work: seq<nat>, gone: set<nat>)
    requires Placed(ents, queue, work) && (forall x :: x in gone ==> x in work) && |n| == |ents|
    requires forall x :: 0 <= x < |ents| ==> if x in gone then PlaceOf(n[x].pc) == Finished else n[x] == ents[x]
    ensures Placed(n, queue, Without(work, gone))
  {
    WithoutDistinct(work, gone);
    WithoutMembers(work, gone);
  }

  lemma ListsStep(s: State, step: Step)
    requires Lists(s) && Chains(s) && Enabled(s, step)
    ensures Lists(Next(s, step))
  {
    var n := Next(s, step);
    match step {
      case Add(req, cell) => PlacedAppends(s.ents, req, cell, s.queue, s.work);
      case Take => PlacedTakes(s.ents, s.queue, s.work);
      case FlushStep(f) => FlushKeepsLists(s, f);
      case Unlink(id) => UnlinkKeepsLists(s, id);
      case Sweep(r) => PlacedDrops(s.ents, s.queue, s.work, Swept(s, ConnOf(s, r)));
      case WriteRflush(id) =>
        assert ChainOk(s, id);
        PlacedStays(s.ents, n.ents, s.queue, s.work);
      case _ => PlacedStays(s.ents, n.ents, s.queue, s.work);
    }
  }

  lemma FlushKeepsLists(s: State, f: nat)
    requires Lists(s) && Enabled(s, FlushStep(f))
    ensures Lists(FlushNext(s, f))
  {
    var n := FlushNext(s, f);
    var t := QueuedTarget(s, f);
    if t.Some? {
      PlacedDrops(s.ents, s.queue, s.work, {t.value});
      PlacedStays(SetAll(s.ents, {t.value}, Dropped), n.ents, n.queue, s.work);
    } else {
      PlacedStays(s.ents, n.ents, s.queue, s.work);
    }
  }

  lemma UnlinkKeepsLists(s: State, id: nat)
    requires Lists(s) && Chains(s) && Enabled(s, Unlink(id))
    ensures Lists(UnlinkNext(s, id))
  {
    assert ChainOk(s, id);
    PlacedLess(s.ents, UnlinkNext(s, id).ents, s.queue, s.work, Together(s, id));
  }

  // ---- the life of a request

  predicate Moves(a: Pc, b: Pc) {
    match a
    case Queued => b.Handling? || b.Dropped?
    case Handling => b.Answering? || b.Chained? || b.Responding?
    case Answering => b == Responding(true)
    case Chained(t) => b == Flushed(t)
    case Responding(r) => b == Unlinked(r)
    case Unlinked(r) => b == Flushing(r, 0)
    case Flushing(r, n) => b == Between(r, n + 1) || b == Done(r, n)
    case Between(r, n) => b == Flushing(r, n) || b == Astray(r, n) || b == Done(r, n)
    case Flushed(t) => b == Answered(t)
    case Astray(_, _) => false case Done(_, _) => false case Answered(_) => false case Dropped => false
  }

  /** The event that goes with a move. */
  function Emits(x: nat, a: Pc, b: Pc): seq<Event> {
    if a.Queued? && b.Handling? then [Handle(x)]
    else if a.Unlinked? && a.reply && b.Flushing? then [Reply(x)]
    else if a.Flushed? && b.Answered? then [Rflush(x)]
    else []
  }

  /** Every request moves on or stays, and the log grows by the event of the move that has one. */
  ghost predicate AllMove(s: State, n: State, out: seq<Event>) {
    && |s.ents| <= |n.ents| && n.log == s.log + out && |out| <= 1
    && (forall x :: |s.ents| <= x < |n.ents| ==> n.ents[x].pc == Queued)
    && (forall x :: 0 <= x < |s.ents| ==> n.ents[x].req == s.ents[x].req && MoveOf(s, n, out, x))
    && (out != [] ==> out[0].id < |s.ents| && Emits(out[0].id, s.ents[out[0].id].pc, n.ents[out[0].id].pc) == out)
  }

  ghost predicate MoveOf(s: State, n: State, out: seq<Event>, x: nat)
    requires x < |s.ents| <= |n.ents|
  {
    var a, b := s.ents[x].pc, n.ents[x].pc;
    a == b || (Moves(a, b) && (Emits(x, a, b) == [] || Emits(x, a, b) == out))
  }

  function Out(s: State, step: Step): seq<Event> {
    match step
    case Take => if s.queue != [] then [Handle(s.queue[0])] else []
    case WriteReply(id) =>
      if id < |s.ents| && s.ents[id].pc.Unlinked? && s.ents[id].pc.reply then [Reply(id)] else []
    case WriteRflush(id) =>
      if id < |s.ents| && s.ents[id].pc.Flushing? && s.ents[id].pc.sent < |s.ents[id].chain|
      then [Rflush(s.ents[id].chain[s.ents[id].pc.sent])] else []
    case _ => []
  }

  lemma FlushMoves(s: State, f: nat)
    requires Lists(s) && Enabled(s, FlushStep(f))
    ensures AllMove(s, FlushNext(s, f), [])
  {
    var t := QueuedTarget(s, f);
    assert t.Some? ==> PlaceOf(s.ents[t.value].pc) == OnQueue;
    assert s.log + [] == s.log;
  }

  lemma UnlinkMoves(s: State, id: nat)
    requires Chains(s) && At(s, id) && s.ents[id].pc.Responding?
    ensures AllMove(s, UnlinkNext(s, id), [])
  {
    var n := UnlinkNext(s, id);
    assert ChainOk(s, id);
    assert s.log + [] == s.log;
    forall x | 0 <= x < |s.ents| ensures MoveOf(s, n, [], x) && n.ents[x].req == s.ents[x].req {
      assert x in s.ents[id].chain ==> s.ents[x].pc == Chained(id);
    }
  }

  lemma EmittingMoves(s: State, step: Step)
    requires Lists(s) && Chains(s) && Enabled(s, step) && (step.Take? || step.WriteReply? || step.WriteRflush?)
    ensures AllMove(s, Next(s, step), Out(s, step))
  {
    match step {
      case Take => assert s.queue[0] in s.queue;
      case WriteReply(id) => assert s.log + [] == s.log;
      case WriteRflush(id) => AnswerMoves(s, id);
    }
  }

  lemma AnswerMoves(s: State, id: nat)
    requires Lists(s) && Chains(s) && Enabled(s, WriteRflush(id))
    ensures AllMove(s, Next(s, WriteRflush(id)), Out(s, WriteRflush(id)))
  {
    assert ChainOk(s, id);
  }

  /** Every step takes every request along its life or leaves it alone. */
  lemma StepMoves(s: State, step: Step)
    requires Lists(s) && Chains(s) && Enabled(s, step)
    ensures AllMove(s, Next(s, step), Out(s, step))
  {
    match step {
      case Take => EmittingMoves(s, step);
      case WriteReply(_) => EmittingMoves(s, step);
      case WriteRflush(_) => EmittingMoves(s, step);
      case FlushStep(f) => FlushMoves(s, f);
      case Unlink(id) => UnlinkMoves(s, id);
      case Sweep(r) => SweepMoves(s, r);
      case _ => SilentMoves(s, step);
    }
  }

  lemma SweepMoves(s: State, r: Resetter)
    requires Lists(s) && Enabled(s, Sweep(r))
    ensures AllMove(s, Next(s, Sweep(r)), [])
  {
    assert s.log + [] == s.log;
  }

  lemma SilentMoves(s: State, step: Step)
    requires Lists(s) && Chains(s) && Enabled(s, step) && !step.FlushStep? && !step.Unlink? && !step.Sweep?
    requires !step.Take? && !step.WriteReply? && !step.WriteRflush?
    ensures AllMove(s, Next(s, step), [])
  {
    assert s.log + [] == s.log;
  }

  // ---- the chains

  /** A change of pc that neither the request's chain nor the chain it is on takes notice of. */
  ghost predicate SameLinks(e: Entry, pc: Pc) {
    && !Linked(e.pc) && !Linked(pc)
    && SentOk(pc, |e.chain|)
    && (forall t, k :: 0 <= k < |e.chain| ==> LinkPc(pc, t, k) == LinkPc(e.pc, t, k))
    && (e.chain != [] ==> !pc.Queued? && !pc.Dropped?)
    && (pc.Answering? ==> e.req.kind.Flush?)
  }

  lemma ChainsStay(s: State, n: State)
    requires Chains(s) && |n.ents| == |s.ents|
    requires forall x :: 0 <= x < |s.ents| ==> n.ents[x].chain == s.ents[x].chain && n.ents[x].req == s.ents[x].req
    requires forall x :: 0 <= x < |s.ents| ==> n.ents[x].pc == s.ents[x].pc || SameLinks(s.ents[x], n.ents[x].pc)
    ensures Chains(n)
  {
    forall t | 0 <= t < |n.ents| ensures ChainOk(n, t) {
      assert ChainOk(s, t);
      forall k | 0 <= k < |n.ents[t].chain|
        ensures n.ents[t].chain[k] < |n.ents| && n.ents[n.ents[t].chain[k]].pc == LinkPc(n.ents[t].pc, t, k)
      {
        var f := s.ents[t].chain[k];
        assert Linked(s.ents[f].pc);
      }
    }
    forall f | 0 <= f < |n.ents| ensures LinkOk(n, f) { assert LinkOk(s, f); }
  }

  lemma ChainsAppend(s: State, n: State, req: Req, cell: nat)
    requires Chains(s) && n.ents == s.ents + [Entry(req, Queued, [], cell)]
    ensures Chains(n)
  {
    forall t | 0 <= t < |n.ents| ensures ChainOk(n, t) {
      if t < |s.ents| { assert ChainOk(s, t); }
    }
    forall f | 0 <= f < |n.ents| ensures LinkOk(n, f) {
      if f < |s.ents| { assert LinkOk(s, f); }
    }
  }

  lemma ChainsGrow(s: State, f: nat, t: nat)
    requires Lists(s) && Chains(s) && Enabled(s, FlushStep(f)) && QueuedTarget(s, f).None?
    requires WorkingTarget(s, f) == Some(t)
    ensures Chains(FlushNext(s, f))
  {
    var n := FlushNext(s, f);
    assert ChainOk(s, t) && ChainOk(s, f);
    assert PlaceOf(s.ents[t].pc) == OnWork;
    ChainsGrowAt(s, n, f, t);
    forall g | 0 <= g < |n.ents| ensures LinkOk(n, g) {
      assert LinkOk(s, g);
      if g == f { assert n.ents[t].chain[0] == f; }
    }
  }

  lemma ChainsGrowAt(s: State, n: State, f: nat, t: nat)
    requires Chains(s) && At(s, f) && At(s, t) && f != t && s.ents[f].pc.Handling? && s.ents[f].req.kind.Flush?
    requires !s.ents[t].req.kind.Flush? && PlaceOf(s.ents[t].pc) == OnWork
    requires n.ents == s.ents[f := s.ents[f].(pc := Chained(t))][t := s.ents[t].(chain := [f] + s.ents[t].chain)]
    ensures forall u :: 0 <= u < |n.ents| ==> ChainOk(n, u)
  {
    forall u | 0 <= u < |n.ents| ensures ChainOk(n, u) {
      assert ChainOk(s, u);
      assert f !in s.ents[u].chain;
    }
  }

  lemma ChainsUnlink(s: State, id: nat)
    requires Chains(s) && At(s, id) && s.ents[id].pc.Responding?
    ensures Chains(UnlinkNext(s, id))
  {
    var n := UnlinkNext(s, id);
    assert ChainOk(s, id);
    forall t | 0 <= t < |n.ents| ensures ChainOk(n, t) {
      assert ChainOk(s, t);
      assert t in s.ents[id].chain ==> s.ents[t].chain == [];
      forall k | 0 <= k < |s.ents[t].chain|
        ensures n.ents[s.ents[t].chain[k]].pc == LinkPc(n.ents[t].pc, t, k)
      {
        var f := s.ents[t].chain[k];
        assert t != id ==> f !in s.ents[id].chain;
      }
    }
    forall f | 0 <= f < |n.ents| ensures LinkOk(n, f) { assert LinkOk(s, f); }
  }

  lemma ChainsAnswer(s: State, id: nat)
    requires Chains(s) && Within(s) && Enabled(s, WriteRflush(id))
    ensures Chains(Next(s, WriteRflush(id)))
  {
    var n := Next(s, WriteRflush(id));
    assert ChainOk(s, id);
    var f := s.ents[id].chain[s.ents[id].pc.sent];
    assert ChainOk(s, f) && s.ents[f].chain == [];
    forall t | 0 <= t < |n.ents| ensures ChainOk(n, t) {
      assert ChainOk(s, t);
      assert t != id ==> f !in s.ents[t].chain;
    }
    forall g | 0 <= g < |n.ents| ensures LinkOk(n, g) { assert LinkOk(s, g); }
  }

  lemma ChainsAdvance(s: State, id: nat)
    requires Chains(s) && Within(s) && Enabled(s, Advance(id))
    ensures Chains(Next(s, Advance(id)))
  {
    assert ChainOk(s, id) && SameLinks(s.ents[id], Advanced(s, id));
    ChainsStay(s, Next(s, Advance(id)));
  }

  lemma ChainsFlush(s: State, f: nat)
    requires Lists(s) && Chains(s) && Enabled(s, FlushStep(f))
    ensures Chains(FlushNext(s, f))
  {
    var t := QueuedTarget(s, f);
    assert ChainOk(s, f) && SameLinks(s.ents[f], Answering);
    if t.Some? {
      assert ChainOk(s, t.value) && PlaceOf(s.ents[t.value].pc) == OnQueue;
      assert SameLinks(s.ents[t.value], Dropped);
      ChainsStay(s, FlushNext(s, f));
    } else if WorkingTarget(s, f).Some? {
      ChainsGrow(s, f, WorkingTarget(s, f).value);
    } else {
      ChainsStay(s, FlushNext(s, f));
    }
  }

  lemma ChainsStep(s: State, step: Step)
    requires Lists(s) && Chains(s) && Enabled(s, step)
    ensures Chains(Next(s, step))
  {
    match step {
      case Add(req, cell) => if req.conn !in s.resetting { ChainsAppend(s, Next(s, step), req, cell); }
      case FlushStep(f) => ChainsFlush(s, f);
      case Unlink(id) => ChainsUnlink(s, id);
      case WriteRflush(id) => ChainsAnswer(s, id);
      case Advance(id) => ChainsAdvance(s, id);
      case Sweep(r) => ChainsSweep(s, r);
      case _ => ChainsOther(s, step);
    }
  }

  lemma ChainsOther(s: State, step: Step)
    requires Lists(s) && Chains(s) && Enabled(s, step) && !step.Add? && !step.FlushStep? && !step.Unlink?
    requires !step.WriteRflush? && !step.Advance? && !step.Sweep?
    ensures Chains(Next(s, step))
  {
    ChainsStay(s, Next(s, step));
  }

  lemma ChainsSweep(s: State, r: Resetter)
    requires Lists(s) && Chains(s) && Enabled(s, Sweep(r))
    ensures Chains(Next(s, Sweep(r)))
  {
    forall x | x in s.queue ensures SameLinks(s.ents[x], Dropped) { assert ChainOk(s, x); }
    ChainsStay(s, Next(s, Sweep(r)));
  }

  // ---- the memory

  /** A cell holds the data of its newest request, and np_req_alloc takes only what was given back. */
  ghost predicate Memory(s: State) {
    && (forall c :: 0 <= c < |s.owner| && s.owner[c].Some? ==>
          s.owner[c].value < |s.ents| && s.ents[s.owner[c].value].cell == c)
    && (forall x :: 0 <= x < |s.ents| ==> s.ents[x].cell < |s.owner| && (Intact(s, x) || Released(s.ents[x].pc)))
  }

  /** The loop leaves the chain early only where the memory of a Tflush it has given back is another's. */
  ghost predicate LossOk(s: State, t: nat)
    requires t < |s.ents|
  {
    var e := s.ents[t];
    e.pc.Astray? || (e.pc.Done? && e.pc.sent < |e.chain|) ==>
      0 < e.pc.sent <= |e.chain| && !Intact(s, e.chain[e.pc.sent - 1])
  }

  ghost predicate Losses(s: State) { forall t :: 0 <= t < |s.ents| ==> LossOk(s, t) }

  /** What a step can do to the memory: it stays, or a cell that was given back is cleared, or a cleared cell or a new
      one takes the data of a new request. */
  lemma CellsStep(s: State, step: Step)
    requires Lists(s) && Chains(s) && Enabled(s, step)
    ensures var n := Next(s, step);
      && |s.ents| <= |n.ents| && (forall x :: 0 <= x < |s.ents| ==> n.ents[x].cell == s.ents[x].cell)
      && (step.Alloc? || step.Add? || (n.owner == s.owner && |n.ents| == |s.ents|))
  {
    if step.FlushStep? {
      CellsOfFlush(s, step.id);
    } else if step.Unlink? || step.WriteRflush? {
      CellsOfLoop(s, step);
    }
  }

  lemma CellsOfFlush(s: State, f: nat)
    requires Lists(s) && Enabled(s, FlushStep(f))
    ensures var n := FlushNext(s, f);
      && |n.ents| == |s.ents| && n.owner == s.owner
      && forall x :: 0 <= x < |s.ents| ==> n.ents[x].cell == s.ents[x].cell
  {
  }

  lemma CellsOfLoop(s: State, step: Step)
    requires Lists(s) && Enabled(s, step) && (step.Unlink? || step.WriteRflush?)
    ensures var n := Next(s, step);
      && |n.ents| == |s.ents| && n.owner == s.owner
      && forall x :: 0 <= x < |s.ents| ==> n.ents[x].cell == s.ents[x].cell
  {
  }

  lemma MemoryStep(s: State, step: Step)
    requires Lists(s) && Chains(s) && Memory(s) && Enabled(s, step)
    ensures Memory(Next(s, step))
  {
    match step {
      case Alloc(cell) => MemoryCleared(s, cell);
      case Add(req, cell) => MemoryTaken(s, req, cell);
      case _ =>
        CellsStep(s, step);
        StepMoves(s, step);
        MemoryStays(s, Next(s, step), Out(s, step));
    }
  }

  lemma MemoryCleared(s: State, cell: nat)
    requires Lists(s) && Memory(s) && Enabled(s, Alloc(cell))
    ensures Memory(Next(s, Alloc(cell)))
  {
  }

  lemma MemoryTaken(s: State, req: Req, cell: nat)
    requires Lists(s) && Memory(s) && Enabled(s, Add(req, cell))
    ensures Memory(Next(s, Add(req, cell)))
  {
  }

  lemma MemoryStays(s: State, n: State, out: seq<Event>)
    requires Memory(s) && AllMove(s, n, out) && n.owner == s.owner && |n.ents| == |s.ents|
    requires forall x :: 0 <= x < |s.ents| ==> n.ents[x].cell == s.ents[x].cell
    ensures Memory(n)
  {
    forall x | 0 <= x < |n.ents|
      ensures n.ents[x].cell < |n.owner| && (Intact(n, x) || Released(n.ents[x].pc))
    {
      assert MoveOf(s, n, out, x);
    }
  }

  /** Memory that was taken does not come back. */
  lemma IntactWas(s: State, step: Step, x: nat)
    requires Lists(s) && Chains(s) && Memory(s) && Enabled(s, step) && x < |s.ents| && Intact(Next(s, step), x)
    ensures Intact(s, x)
  {
    CellsStep(s, step);
  }

  /** Only a working request gets a Tflush on its chain. */
  lemma ChainFixed(s: State, step: Step, x: nat)
    requires Lists(s) && Chains(s) && Enabled(s, step) && x < |s.ents| && !PlaceOf(s.ents[x].pc).OnWork?
    ensures x < |Next(s, step).ents| && Next(s, step).ents[x].chain == s.ents[x].chain
  {
    if step.WriteRflush? { assert ChainOk(s, step.id); }
    if step.Unlink? { assert ChainOk(s, step.id); }
  }

  lemma LossesStep(s: State, step: Step)
    requires Lists(s) && Chains(s) && Memory(s) && Losses(s) && Enabled(s, step)
    ensures Losses(Next(s, step))
  {
    StepMoves(s, step);
    forall t | 0 <= t < |Next(s, step).ents| ensures LossOk(Next(s, step), t) {
      if t < |s.ents| {
        assert LossOk(s, t);
        LossAt(s, step, t);
      }
    }
  }

  lemma LossAt(s: State, step: Step, t: nat)
    requires Lists(s) && Chains(s) && Memory(s) && Enabled(s, step) && t < |s.ents| && LossOk(s, t)
    requires AllMove(s, Next(s, step), Out(s, step))
    ensures LossOk(Next(s, step), t)
  {
    if Behind(Next(s, step).ents[t].pc) {
      BehindWas(s, Next(s, step), Out(s, step), t);
      ChainFixed(s, step, t);
      LossStep(s, step, t);
    }
  }

  lemma BehindWas(s: State, n: State, out: seq<Event>, t: nat)
    requires AllMove(s, n, out) && t < |s.ents| && Behind(n.ents[t].pc)
    ensures !PlaceOf(s.ents[t].pc).OnWork?
  {
    assert MoveOf(s, n, out, t);
  }

  /** The loop ends, or goes astray, only where it stands behind the chain or reads flushreq. */
  lemma EndsBy(s: State, step: Step, t: nat)
    requires Lists(s) && Chains(s) && Enabled(s, step) && t < |s.ents| <= |Next(s, step).ents|
    requires Next(s, step).ents[t].pc != s.ents[t].pc
    requires Next(s, step).ents[t].pc.Done? || Next(s, step).ents[t].pc.Astray?
    ensures step == Finish(t) || step == Advance(t)
  {
  }

  lemma EndsWhere(s: State, step: Step, t: nat)
    requires Within(s) && Enabled(s, step) && (step == Finish(t) || step == Advance(t)) && t < |s.ents|
    ensures var e := Next(s, step).ents[t];
      && e.chain == s.ents[t].chain && Behind(e.pc) && e.pc.sent <= |e.chain|
      && ((e.pc.Done? && e.pc.sent == |e.chain|)
          || (0 < e.pc.sent && (Intact(s, e.chain[e.pc.sent - 1]) ==> e.pc.Flushing?)))
  {
  }

  lemma LossStep(s: State, step: Step, t: nat)
    requires Lists(s) && Chains(s) && Memory(s) && Enabled(s, step) && t < |s.ents| && LossOk(s, t)
    requires |s.ents| <= |Next(s, step).ents| && Next(s, step).ents[t].chain == s.ents[t].chain
    ensures LossOk(Next(s, step), t)
  {
    var n := Next(s, step);
    var e := n.ents[t];
    if e.pc.Done? || e.pc.Astray? {
      if e.pc != s.ents[t].pc {
        EndsBy(s, step, t);
        EndsWhere(s, step, t);
      }
      assert ChainOk(s, t);
      if 0 < e.pc.sent <= |e.chain| && Intact(n, e.chain[e.pc.sent - 1]) {
        IntactWas(s, step, e.chain[e.pc.sent - 1]);
      }
    }
  }

  // ---- the log

  /** Which events have happened, from where the request stands; each happens once. */
  ghost predicate Logged(s: State) {
    && Distinct(s.log)
    && (forall e :: e in s.log ==> e.id < |s.ents|)
    && (forall x :: 0 <= x < |s.ents| ==> (Handle(x) in s.log <==> !s.ents[x].pc.Queued? && !s.ents[x].pc.Dropped?))
    && (forall x :: 0 <= x < |s.ents| ==> (Reply(x) in s.log <==> Replied(s.ents[x].pc)))
    && (forall x :: 0 <= x < |s.ents| ==> (Rflush(x) in s.log <==> s.ents[x].pc.Answered?))
  }

  predicate Replied(pc: Pc) { Behind(pc) && pc.reply }

  /** Handlers start in the order of arrival, and before every queued request's. */
  ghost predicate InOrder(s: State) {
    && (forall i, j :: 0 <= i < j < |s.log| && s.log[i].Handle? && s.log[j].Handle? ==> s.log[i].id < s.log[j].id)
    && (forall i, x :: 0 <= i < |s.log| && s.log[i].Handle? && x in s.queue ==> s.log[i].id < x)
  }

  /** The Rflush of a chained Tflush comes after the reply of its target, if that has one. */
  ghost predicate RepliesFirst(s: State) {
    && (forall j :: 0 <= j < |s.log| && s.log[j].Rflush? ==>
         At(s, s.log[j].id) && AfterTarget(s, s.log[j].id, s.log[..j]))
  }

  ghost predicate AfterTarget(s: State, f: nat, before: seq<Event>)
    requires At(s, f)
  {
    var pc := s.ents[f].pc;
    && pc.Answered? && At(s, pc.target)
    && var t := s.ents[pc.target].pc;
       Behind(t) && (t.reply ==> Reply(pc.target) in before)
  }

  ghost predicate SameEvents(a: Pc, b: Pc) {
    && (a.Queued? || a.Dropped? <==> b.Queued? || b.Dropped?)
    && (Replied(a) <==> Replied(b)) && (a.Answered? <==> b.Answered?)
  }

  lemma LoggedMoves(s: State, n: State, out: seq<Event>)
    requires Logged(s) && AllMove(s, n, out)
    ensures Logged(n)
  {
    if out == [] {
      assert n.log == s.log;
      forall x | 0 <= x < |n.ents|
        ensures x < |s.ents| ==> SameEvents(s.ents[x].pc, n.ents[x].pc)
      {
        if x < |s.ents| { assert MoveOf(s, n, out, x); }
      }
    } else {
      LoggedEmits(s, n, out[0]);
    }
  }

  lemma LoggedEmits(s: State, n: State, e: Event)
    requires Logged(s) && AllMove(s, n, [e])
    ensures Logged(n)
  {
    assert e !in s.log && e.id < |s.ents|;
    forall d ensures d in n.log <==> d in s.log || d == e { assert n.log[|s.log|] == e; }
    forall x | 0 <= x < |n.ents|
      ensures Handle(x) in n.log <==> !n.ents[x].pc.Queued? && !n.ents[x].pc.Dropped?
      ensures Reply(x) in n.log <==> Replied(n.ents[x].pc)
      ensures Rflush(x) in n.log <==> n.ents[x].pc.Answered?
    {
      if x < |s.ents| { LoggedAt(s, n, e, x); }
    }
  }

  lemma LoggedAt(s: State, n: State, e: Event, x: nat)
    requires x < |s.ents| <= |n.ents| && MoveOf(s, n, [e], x) && e.id < |s.ents|
    requires Emits(e.id, s.ents[e.id].pc, n.ents[e.id].pc) == [e]
    ensures var a, b := s.ents[x].pc, n.ents[x].pc;
      && (!b.Queued? && !b.Dropped? <==> (!a.Queued? && !a.Dropped?) || e == Handle(x))
      && (Replied(b) <==> Replied(a) || e == Reply(x))
      && (b.Answered? <==> a.Answered? || e == Rflush(x))
  {
  }

  /** The queue loses requests anywhere, a worker takes its head, and a new request goes to its end. */
  ghost predicate QueueMoves(s: State, n: State, out: seq<Event>) {
    && (forall x :: x in n.queue ==> x in s.queue || x == |s.ents|)
    && (forall e :: e in out && e.Handle? ==> e.id in s.queue && forall x :: x in n.queue ==> e.id < x)
  }

  lemma StepMovesQueue(s: State, step: Step)
    requires Lists(s) && Enabled(s, step)
    ensures QueueMoves(s, Next(s, step), Out(s, step))
  {
    match step {
      case Take => assert s.queue == [s.queue[0]] + s.queue[1..] && s.queue[0] in s.queue;
      case FlushStep(f) => if QueuedTarget(s, f).Some? { WithoutMembers(s.queue, {QueuedTarget(s, f).value}); }
      case Sweep(r) => WithoutMembers(s.queue, Swept(s, ConnOf(s, r)));
      case _ =>
    }
  }

  lemma InOrderMoves(s: State, n: State, out: seq<Event>)
    requires Logged(s) && InOrder(s) && AllMove(s, n, out) && QueueMoves(s, n, out)
    ensures InOrder(n)
  {
    forall i | 0 <= i < |n.log| ensures i < |s.log| ==> n.log[i] == s.log[i] && s.log[i] in s.log { }
    forall i | |s.log| <= i < |n.log| ensures n.log[i] in out && i == |s.log| { }
  }

  lemma RepliesFirstMoves(s: State, n: State, out: seq<Event>)
    requires Logged(s) && RepliesFirst(s) && AllMove(s, n, out)
    requires forall e :: e in out && e.Rflush? ==> At(n, e.id) && AfterTarget(n, e.id, s.log)
    ensures RepliesFirst(n)
  {
    forall j | 0 <= j < |n.log| && n.log[j].Rflush?
      ensures At(n, n.log[j].id) && AfterTarget(n, n.log[j].id, n.log[..j])
    {
      if j < |s.log| {
        assert n.log[..j] == s.log[..j];
        var f := s.log[j].id;
        assert MoveOf(s, n, out, f) && MoveOf(s, n, out, s.ents[f].pc.target);
      } else {
        assert n.log[j] in out && n.log[..j] == s.log;
      }
    }
  }

  lemma RepliesFirstStep(s: State, step: Step)
    requires Lists(s) && Chains(s) && Logged(s) && RepliesFirst(s) && Enabled(s, step)
    ensures RepliesFirst(Next(s, step))
  {
    var n := Next(s, step);
    StepMoves(s, step);
    if step.WriteRflush? {
      assert ChainOk(s, step.id);
      assert AfterTarget(n, Out(s, step)[0].id, s.log);
    }
    RepliesFirstMoves(s, n, Out(s, step));
  }

  // ---- the resets

  ghost predicate NoneQueued(s: State, conn: nat)
    requires Within(s)
  {
    forall x :: x in s.queue ==> s.ents[x].req.conn != conn
  }

  /** A Tversion that resets its connection is in its handler; once the reader's own reset has swept the queue, nothing
      of its connection comes back, for nobody reads any more. */
  ghost predicate ResetOk(s: State, r: Resetter)
    requires Within(s) && r in s.resets
  {
    && (r.ByVersion? ==> r.id < |s.ents| && s.ents[r.id].req.kind.Version?)
    && (r.ByVersion? && Busy(s, r) ==> s.ents[r.id].pc.Handling?)
    && (r.ByReader? && !s.resets[r].Marked? ==> NoneQueued(s, r.conn))
  }

  ghost predicate ResetsOk(s: State)
    requires Within(s)
  {
    forall r :: r in s.resets ==> ResetOk(s, r)
  }

  ghost predicate Admitted(s: State, n: State, x: nat) {
    x < |n.ents| && n.ents[x].req.conn !in s.resetting && ByReader(n.ents[x].req.conn) !in s.resets
  }

  /** A step that no reset takes. */
  ghost predicate Apart(s: State, n: State) {
    && n.resets == s.resets && n.resetting == s.resetting
    && |s.ents| <= |n.ents| && (forall x :: 0 <= x < |s.ents| ==> n.ents[x].req == s.ents[x].req)
    && (forall x :: x in n.queue && x !in s.queue ==> Admitted(s, n, x))
    && forall x :: |s.ents| <= x < |n.ents| ==> Admitted(s, n, x)
  }

  lemma StepApart(s: State, step: Step)
    requires Lists(s) && Chains(s) && Enabled(s, step) && !(step.Mark? || step.Sweep? || step.Pass? || step.Clear?)
    ensures Apart(s, Next(s, step))
  {
    ListsStep(s, step);
    StepMoves(s, step);
    StepMovesQueue(s, step);
  }

  lemma ResetsStay(s: State, n: State)
    requires Lists(s) && Lists(n) && ResetsOk(s) && Apart(s, n)
    requires forall id: nat :: Busy(s, ByVersion(id)) && id < |s.ents| ==> n.ents[id].pc == s.ents[id].pc
    ensures ResetsOk(n)
  {
    forall r | r in n.resets ensures ResetOk(n, r) { assert ResetOk(s, r); }
  }

  lemma ResetsTurn(s: State, step: Step)
    requires Lists(s) && ResetsOk(s) && Enabled(s, step) && (step.Mark? || step.Sweep? || step.Pass? || step.Clear?)
    requires Lists(Next(s, step))
    ensures ResetsOk(Next(s, step))
  {
    var n := Next(s, step);
    forall r | r in n.resets ensures ResetOk(n, r) {
      if r in s.resets { assert ResetOk(s, r); }
      if step.who in s.resets { assert ResetOk(s, step.who); }
    }
  }

  lemma ResetsStep(s: State, step: Step)
    requires Lists(s) && Chains(s) && ResetsOk(s) && Enabled(s, step)
    ensures Lists(Next(s, step)) && ResetsOk(Next(s, step))
  {
    var n := Next(s, step);
    ListsStep(s, step);
    if step.Mark? || step.Sweep? || step.Pass? || step.Clear? {
      ResetsTurn(s, step);
    } else {
      StepApart(s, step);
      forall id: nat | Busy(s, ByVersion(id)) && id < |s.ents| ensures n.ents[id].pc == s.ents[id].pc {
        assert ResetOk(s, ByVersion(id));
        VersionStays(s, step, id);
      }
      ResetsStay(s, n);
    }
  }

  /** A Tversion that is resetting its connection stays in its handler. */
  lemma VersionStays(s: State, step: Step, id: nat)
    requires Lists(s) && Chains(s) && Enabled(s, step) && id < |s.ents| && s.ents[id].pc.Handling?
    requires s.ents[id].req.kind.Version? && Busy(s, ByVersion(id))
    ensures Next(s, step).ents[id].pc == s.ents[id].pc
  {
    StepMoves(s, step);
  }

  // ---- runs

  ghost predicate Inv(s: State) {
    && Lists(s) && Chains(s) && Logged(s) && InOrder(s) && RepliesFirst(s) && ResetsOk(s)
    && Memory(s) && Losses(s)
  }

  lemma InvStep(s: State, step: Step)
    requires Inv(s) && Enabled(s, step)
    ensures Inv(Next(s, step))
  {
    var n := Next(s, step);
    ChainsStep(s, step);
    ResetsStep(s, step);
    StepMoves(s, step);
    StepMovesQueue(s, step);
    LoggedMoves(s, n, Out(s, step));
    InOrderMoves(s, n, Out(s, step));
    RepliesFirstStep(s, step);
    MemoryStep(s, step);
    LossesStep(s, step);
  }

  /** The state a run leads to; None when one of its steps cannot be taken. */
  ghost function From(s: State, steps: seq<Step>): Option<State>
    decreases |steps|
  {
    if steps == [] then Some(s)
    else if Within(s) && Enabled(s, steps[0]) then From(Next(s, steps[0]), steps[1..])
    else None
  }

  /** The lists, the chains, the log and the resets keep their invariants over every run. */
  lemma {:induction false} InvFrom(s: State, steps: seq<Step>)
    requires Inv(s) && From(s, steps).Some?
    ensures Inv(From(s, steps).value)
    decreases |steps|
  {
    if steps != [] {
      InvStep(s, steps[0]);
      InvFrom(Next(s, steps[0]), steps[1..]);
    }
  }

  ghost predicate Reached(s: State) { exists steps :: From(Init(), steps) == Some(s) }

  lemma Reachable(s: State)
    requires Reached(s)
    ensures Inv(s)
  {
    var steps :| From(Init(), steps) == Some(s);
    InvFrom(Init(), steps);
  }

  /** Every accepted request is in exactly one of queued, working and finished, once; and a worker that starts a
      handler starts it for a request that arrived after every one handled before and before every queued one. */
  lemma Conservation(s: State, x: nat)
    requires Reached(s) && x < |s.ents|
    ensures multiset(s.queue)[x] + multiset(s.work)[x] + (if PlaceOf(s.ents[x].pc).Finished? then 1 else 0) == 1
  {
    Reachable(s);
    SortedOnce(s.queue, x);
    DistinctOnce(s.work, x);
  }

  lemma SortedOnce(s: seq<nat>, x: nat)
    requires Sorted(s)
    ensures multiset(s)[x] == if x in s then 1 else 0
  {
    DistinctOnce(s, x);
  }

  lemma {:induction false} DistinctOnce<T>(s: seq<T>, x: T)
    requires Distinct(s)
    ensures multiset(s)[x] == if x in s then 1 else 0
  {
    if s != [] {
      DistinctOnce(s[1..], x);
      assert s == [s[0]] + s[1..];
      assert s[0] !in s[1..];
    }
  }

  lemma HandledInArrivalOrder(s: State, i: nat, j: nat)
    requires Reached(s) && i < j < |s.log| && s.log[i].Handle? && s.log[j].Handle?
    ensures s.log[i].id < s.log[j].id
  {
    Reachable(s);
  }

  /** What no later step takes back. */
  ghost predicate Settled(s: State, n: State, x: nat, y: nat)
    requires x < |s.ents| && y < |s.ents|
  {
    && |s.ents| <= |n.ents|
    && (s.ents[x].pc.Dropped? ==> n.ents[x].pc.Dropped?)
    && (y in s.ents[x].chain ==> y in n.ents[x].chain)
  }

  lemma SettledStep(s: State, step: Step, x: nat, y: nat)
    requires Inv(s) && Enabled(s, step) && x < |s.ents| && y < |s.ents|
    ensures Settled(s, Next(s, step), x, y)
  {
    StepMoves(s, step);
    assert MoveOf(s, Next(s, step), Out(s, step), x);
    ChainStays(s, step, x, y);
  }

  lemma ChainStays(s: State, step: Step, x: nat, y: nat)
    requires Inv(s) && Enabled(s, step) && x < |s.ents| <= |Next(s, step).ents|
    ensures y in s.ents[x].chain ==> y in Next(s, step).ents[x].chain
  {
    if step.FlushStep? && QueuedTarget(s, step.id).None? && WorkingTarget(s, step.id).Some? {
      var t := WorkingTarget(s, step.id).value;
      assert ChainOk(s, step.id);
      assert y in s.ents[t].chain ==> y in [step.id] + s.ents[t].chain;
    }
  }

  lemma {:induction false} SettledFrom(s: State, steps: seq<Step>, x: nat, y: nat)
    requires Inv(s) && From(s, steps).Some? && x < |s.ents| && y < |s.ents|
    ensures Settled(s, From(s, steps).value, x, y)
    decreases |steps|
  {
    if steps != [] {
      InvStep(s, steps[0]);
      SettledStep(s, steps[0], x, y);
      SettledFrom(Next(s, steps[0]), steps[1..], x, y);
    }
  }

  /** A request that a Tflush finds on the queue is never handled and never replied to, before or after. */
  lemma {:induction false} FlushedOffTheQueue(s: State, f: nat, t: nat, more: seq<Step>)
    requires Reached(s) && Within(s) && Enabled(s, FlushStep(f)) && QueuedTarget(s, f) == Some(t)
    requires From(Next(s, FlushStep(f)), more).Some?
    ensures var n := From(Next(s, FlushStep(f)), more).value; Handle(t) !in n.log && Reply(t) !in n.log
  {
    Reachable(s);
    InvStep(s, FlushStep(f));
    FlushDrops(s, f, t);
    DroppedStays(Next(s, FlushStep(f)), t, more);
  }

  lemma FlushDrops(s: State, f: nat, t: nat)
    requires Lists(s) && Enabled(s, FlushStep(f)) && QueuedTarget(s, f) == Some(t)
    ensures t < |FlushNext(s, f).ents| && FlushNext(s, f).ents[t].pc.Dropped?
  {
    assert PlaceOf(s.ents[t].pc) == OnQueue;
  }

  lemma {:induction false} DroppedStays(s: State, t: nat, more: seq<Step>)
    requires Inv(s) && At(s, t) && s.ents[t].pc.Dropped? && From(s, more).Some?
    ensures var n := From(s, more).value; Handle(t) !in n.log && Reply(t) !in n.log
  {
    InvFrom(s, more);
    SettledFrom(s, more, t, t);
  }

  /** The place of the first e in the log. */
  ghost function IndexOf(log: seq<Event>, e: Event): (i: nat)
    requires e in log
    ensures i < |log| && log[i] == e
  {
    if log[0] == e then 0 else 1 + IndexOf(log[1..], e)
  }

  /** No Tflush on the chain but the oldest has lost its memory to another request. */
  ghost predicate ChainKept(n: State, chain: seq<nat>) { forall k :: 0 <= k < |chain| - 1 ==> Intact(n, chain[k]) }

  /** f leaves workreqs with t; f gets at most one Rflush, and has got it when t is done and the memory of the chain was
      let alone; and when f has got it, t's reply, if it has one, was out before. */
  ghost predicate Served(n: State, t: nat, f: nat) {
    && At(n, t) && At(n, f)
    && (f in n.work <==> t in n.work)
    && multiset(n.log)[Rflush(f)] <= 1
    && (n.ents[t].pc.Done? && ChainKept(n, n.ents[t].chain) ==> Rflush(f) in n.log)
    && (Rflush(f) in n.log ==>
          && Behind(n.ents[t].pc)
          && (n.ents[t].pc.reply ==> Reply(t) in n.log && IndexOf(n.log, Reply(t)) < IndexOf(n.log, Rflush(f))))
  }

  lemma ChainedIsServed(n: State, t: nat, f: nat)
    requires Inv(n) && At(n, t) && f in n.ents[t].chain
    ensures Served(n, t, f)
  {
    assert ChainOk(n, t) && LossOk(n, t);
    var k :| 0 <= k < |n.ents[t].chain| && n.ents[t].chain[k] == f;
    assert n.ents[f].pc == LinkPc(n.ents[t].pc, t, k);
    DistinctOnce(n.log, Rflush(f));
    assert f in n.work <==> PlaceOf(n.ents[f].pc) == OnWork;
    assert t in n.work <==> PlaceOf(n.ents[t].pc) == OnWork;
    if Rflush(f) in n.log { RepliedBefore(n, t, f); }
  }

  lemma RepliedBefore(n: State, t: nat, f: nat)
    requires RepliesFirst(n) && At(n, t) && At(n, f) && Linked(n.ents[f].pc) && n.ents[f].pc.target == t
    requires Rflush(f) in n.log && Distinct(n.log)
    ensures Behind(n.ents[t].pc)
    ensures n.ents[t].pc.reply ==> Reply(t) in n.log && IndexOf(n.log, Reply(t)) < IndexOf(n.log, Rflush(f))
  {
    var j := IndexOf(n.log, Rflush(f));
    assert AfterTarget(n, f, n.log[..j]);
    if n.ents[t].pc.reply {
      var i :| 0 <= i < j && n.log[..j][i] == Reply(t);
      var i' := IndexOf(n.log, Reply(t));
    }
  }

  /** A request t that Tflush f finds working, and f itself, in every later state of every run. */
  lemma {:induction false} FlushedAtWork(s: State, f: nat, t: nat, more: seq<Step>)
    requires Reached(s) && Within(s) && Enabled(s, FlushStep(f))
    requires QueuedTarget(s, f).None? && WorkingTarget(s, f) == Some(t)
    requires From(Next(s, FlushStep(f)), more).Some?
    ensures Served(From(Next(s, FlushStep(f)), more).value, t, f)
  {
    Reachable(s);
    var m := Next(s, FlushStep(f));
    InvStep(s, FlushStep(f));
    assert m.ents[t].chain[0] == f;
    InvFrom(m, more);
    SettledFrom(m, more, t, f);
    ChainedIsServed(From(m, more).value, t, f);
  }
}
