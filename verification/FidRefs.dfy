/** Who holds a fid (libnpfs/fcall.c, fidpool.c, srv.c): the references that the handlers take and give back, over every
    interleaving of requests on one connection. A fid that a handler finds or creates is referenced in the same step. */
module FidRefs {
  import opened Bytes

  /** Every handler refers to its first fid until np_respond. Clunk stands for Tclunk and Tremove; New for Twalk to
      another fid and Txattrwalk, which create a second; Second for those that use one (Trename, Trenameat, a Twalk that
      stays on its fid); Plain for the rest. Tlink and Tunlinkat tell np_respond of their first fid only when they have
      found the second, and when the first can be used. */
  datatype Kind = Attach | Clunk | New | Second | Link | Unlinkat | Plain

  datatype Phase = Running | Returned | Answered

  datatype Req = Req(kind: Kind, phase: Phase, fid: Option<nat>, temp: Option<nat>)

  /** held: the client has the fid. maker is the request that created it. lost: the references that nobody will give
      back. */
  datatype Fid = Fid(number: nat, maker: nat, refcount: int, held: bool, pooled: bool, destroys: nat, lost: nat)

  datatype State = State(fids: seq<Fid>, reqs: seq<Req>)

  datatype Step =
    | Begin(kind: Kind, number: nat)      // the handler up to its first fid
    | Take(r: nat, number: nat)           // and to its second
    | Return(r: nat, ok: bool)            // the backend has answered, and the handler returns
    | Respond(r: nat, reply: bool)        // np_respond; reply says whether rc is not NULL

  function Init(): State { State([], []) }

  /** np_fid_find. */
  ghost predicate Finds(s: State, number: nat, id: nat) {
    id < |s.fids| && s.fids[id].pooled && s.fids[id].number == number
  }

  ghost predicate Unused(s: State, number: nat) { forall id :: 0 <= id < |s.fids| ==> !Finds(s, number, id) }

  ghost function Found(s: State, number: nat): (r: Option<nat>)
    ensures r.Some? ==> Finds(s, number, r.value)
    ensures r.None? ==> Unused(s, number)
  {
    if Unused(s, number) then None else var id :| 0 <= id < |s.fids| && Finds(s, number, id); Some(id)
  }

  function Incref(fids: seq<Fid>, id: nat): seq<Fid>
    requires id < |fids|
  {
    fids[id := fids[id].(refcount := fids[id].refcount + 1)]
  }

  /** np_fid_decref, with np_fid_destroy at zero. */
  function Decref(fids: seq<Fid>, id: nat): seq<Fid>
    requires id < |fids|
  {
    var f := fids[id];
    fids[id := if f.refcount == 1 then f.(refcount := 0, pooled := false, destroys := f.destroys + 1)
               else f.(refcount := f.refcount - 1)]
  }

  function Created(fids: seq<Fid>, number: nat, maker: nat): seq<Fid> {
    fids + [Fid(number, maker, 1, false, true, 0, 0)]
  }

  ghost predicate InFlight(s: State, r: nat, phase: Phase) { r < |s.reqs| && s.reqs[r].phase == phase }

  ghost predicate Clunking(s: State, id: nat) {
    exists r :: 0 <= r < |s.reqs| && s.reqs[r].kind.Clunk? && s.reqs[r].phase.Running? && s.reqs[r].fid == Some(id)
  }

  /** The client's rules: it clunks a fid that it holds and is not clunking already, and walks to a number that is not
      in use. */
  ghost predicate Enabled(s: State, step: Step) {
    match step
    case Begin(kind, number) =>
      kind.Clunk? && Found(s, number).Some? ==>
        s.fids[Found(s, number).value].held && !Clunking(s, Found(s, number).value)
    case Take(r, number) =>
      && InFlight(s, r, Running) && s.reqs[r].fid.Some? && s.reqs[r].temp.None?
      && (s.reqs[r].kind.Second? || s.reqs[r].kind.Link? || (s.reqs[r].kind.New? && Unused(s, number)))
    case Return(r, ok) => InFlight(s, r, Running)
    case Respond(r, reply) => InFlight(s, r, Returned)
  }

  ghost predicate Indexed(s: State) {
    forall r :: 0 <= r < |s.reqs| ==>
      && (s.reqs[r].fid.Some? ==> s.reqs[r].fid.value < |s.fids|)
      && (s.reqs[r].temp.Some? ==> s.reqs[r].temp.value < |s.fids|)
  }

  ghost function BeginNext(s: State, kind: Kind, number: nat): State {
    var found := Found(s, number);
    if kind.Attach? then
      if found.Some? then s.(reqs := s.reqs + [Req(kind, Running, None, None)])
      else State(Created(s.fids, number, |s.reqs|), s.reqs + [Req(kind, Running, Some(|s.fids|), None)])
    else if found.None? then s.(reqs := s.reqs + [Req(kind, Running, None, None)])
    else State(Incref(s.fids, found.value), s.reqs + [Req(kind, Running, found, None)])
  }

  ghost function TakeNext(s: State, r: nat, number: nat): State
    requires r < |s.reqs|
  {
    var q, found := s.reqs[r], Found(s, number);
    if q.kind.New? then State(Created(s.fids, number, r), s.reqs[r := q.(temp := Some(|s.fids|))])
    else if found.None? then s
    else State(Incref(s.fids, found.value), s.reqs[r := q.(temp := found)])
  }

  function SetHeld(fids: seq<Fid>, id: nat, held: bool): seq<Fid>
    requires id < |fids|
  {
    fids[id := fids[id].(held := held)]
  }

  /** The handler returns without a word of its first fid. */
  predicate Forgets(q: Req, ok: bool) { q.fid.Some? && ((q.kind.Link? && q.temp.None?) || (q.kind.Unlinkat? && !ok)) }

  function Lose(fids: seq<Fid>, id: nat): seq<Fid>
    requires id < |fids|
  {
    fids[id := fids[id].(lost := fids[id].lost + 1)]
  }

  /** ok: the clunk, the attach or the xattr walk succeeded, the walk reached every name, or the fid of the Tunlinkat
      can be used. The reference of the client is taken before the handler lets go of its own. */
  ghost function ReturnNext(s: State, r: nat, ok: bool): State
    requires r < |s.reqs| && Indexed(s)
  {
    var q := s.reqs[r];
    var done := q.(phase := Returned, temp := None, fid := if Forgets(q, ok) then None else q.fid);
    var fids :=
      if Forgets(q, ok) then Lose(s.fids, q.fid.value)
      else if q.kind.Clunk? && q.fid.Some? && ok then Decref(SetHeld(s.fids, q.fid.value, false), q.fid.value)
      else if q.kind.Attach? && q.fid.Some? && ok then Incref(SetHeld(s.fids, q.fid.value, true), q.fid.value)
      else if q.kind.New? && q.temp.Some? && ok then
        Decref(Incref(SetHeld(s.fids, q.temp.value, true), q.temp.value), q.temp.value)
      else if q.temp.Some? then Decref(s.fids, q.temp.value)
      else s.fids;
    State(fids, s.reqs[r := done])
  }

  ghost function RespondNext(s: State, r: nat, reply: bool): State
    requires r < |s.reqs| && Indexed(s)
  {
    var q := s.reqs[r];
    State(if q.fid.None? then s.fids else if reply then Decref(s.fids, q.fid.value) else Lose(s.fids, q.fid.value),
          s.reqs[r := q.(phase := Answered, fid := None)])
  }

  ghost function Next(s: State, step: Step): State
    requires Indexed(s) && Enabled(s, step)
  {
    match step
    case Begin(kind, number) => BeginNext(s, kind, number)
    case Take(r, number) => TakeNext(s, r, number)
    case Return(r, ok) => ReturnNext(s, r, ok)
    case Respond(r, reply) => RespondNext(s, r, reply)
  }

  // ---- the references add up

  function One(q: Req, id: nat): nat { (if q.fid == Some(id) then 1 else 0) + (if q.temp == Some(id) then 1 else 0) }

  /** The references that the requests hold. */
  function Refs(reqs: seq<Req>, id: nat): nat { if reqs == [] then 0 else One(reqs[0], id) + Refs(reqs[1..], id) }

  lemma {:induction false} RefsAppend(reqs: seq<Req>, q: Req, id: nat)
    ensures Refs(reqs + [q], id) == Refs(reqs, id) + One(q, id)
  {
    if reqs == [] {
      assert reqs + [q] == [q] && [q][1..] == [];
    } else {
      assert (reqs + [q])[1..] == reqs[1..] + [q];
      RefsAppend(reqs[1..], q, id);
    }
  }

  lemma {:induction false} RefsUpdate(reqs: seq<Req>, r: nat, q: Req, id: nat)
    requires r < |reqs|
    ensures Refs(reqs[r := q], id) + One(reqs[r], id) == Refs(reqs, id) + One(q, id)
  {
    if r == 0 {
      assert reqs[r := q][1..] == reqs[1..];
    } else {
      assert reqs[r := q][1..] == reqs[1..][r - 1 := q];
      RefsUpdate(reqs[1..], r - 1, q, id);
    }
  }

  lemma {:induction false} RefsNone(reqs: seq<Req>, id: nat)
    requires forall r :: 0 <= r < |reqs| ==> reqs[r].fid != Some(id) && reqs[r].temp != Some(id)
    ensures Refs(reqs, id) == 0
  {
    if reqs != [] { RefsNone(reqs[1..], id); }
  }

  function Holders(s: State, id: nat): nat
    requires id < |s.fids|
  {
    (if s.fids[id].held then 1 else 0) + Refs(s.reqs, id) + s.fids[id].lost
  }

  ghost predicate FidOk(s: State, id: nat)
    requires id < |s.fids|
  {
    var f := s.fids[id];
    && f.refcount == Holders(s, id) && (f.pooled <==> f.refcount > 0) && f.destroys == (if f.pooled then 0 else 1)
    && f.maker < |s.reqs| && (f.held ==> !s.reqs[f.maker].phase.Running?)
  }

  ghost predicate ReqOk(s: State, r: nat)
    requires r < |s.reqs|
  {
    var q := s.reqs[r];
    && (q.fid.Some? ==> q.fid.value < |s.fids|) && (q.temp.Some? ==> q.temp.value < |s.fids|)
    && (q.kind.Attach? && q.phase.Running? && q.fid.Some? ==> s.fids[q.fid.value].maker == r)
    && (q.kind.New? && q.temp.Some? ==> s.fids[q.temp.value].maker == r)
    && (q.kind.Clunk? && q.phase.Running? && q.fid.Some? ==> s.fids[q.fid.value].held)
    && (q.phase.Answered? ==> q.fid.None?) && (!q.phase.Running? ==> q.temp.None?)
    && (q.kind.Clunk? || q.kind.Attach? || q.kind.Plain? || q.kind.Unlinkat? ==> q.temp.None?)
  }

  /** No fid is being clunked twice, and no number is in use twice. */
  ghost predicate Single(s: State) {
    && (forall a, b :: 0 <= a < b < |s.reqs| && BothClunk(s.reqs[a], s.reqs[b]) ==> s.reqs[a].fid != s.reqs[b].fid)
    && (forall a, b :: 0 <= a < b < |s.fids| && s.fids[a].pooled && s.fids[b].pooled ==>
         s.fids[a].number != s.fids[b].number)
  }

  predicate BothClunk(a: Req, b: Req) {
    a.kind.Clunk? && b.kind.Clunk? && a.phase.Running? && b.phase.Running? && a.fid.Some? && b.fid.Some?
  }

  ghost predicate Inv(s: State) {
    && (forall id :: 0 <= id < |s.fids| ==> FidOk(s, id))
    && (forall r :: 0 <= r < |s.reqs| ==> ReqOk(s, r))
    && Single(s)
  }

  // ---- every step keeps them

  lemma InvIndexed(s: State)
    requires Inv(s)
    ensures Indexed(s)
  {
    forall r | 0 <= r < |s.reqs|
      ensures s.reqs[r].fid.Some? ==> s.reqs[r].fid.value < |s.fids|
      ensures s.reqs[r].temp.Some? ==> s.reqs[r].temp.value < |s.fids|
    {
      assert ReqOk(s, r);
    }
  }

  /** A number that has no fid in the pool gets one. */
  lemma RefsOfNew(s: State)
    requires Inv(s)
    ensures Refs(s.reqs, |s.fids|) == 0
  {
    forall r | 0 <= r < |s.reqs| ensures s.reqs[r].fid != Some(|s.fids|) && s.reqs[r].temp != Some(|s.fids|) {
      assert ReqOk(s, r);
    }
    RefsNone(s.reqs, |s.fids|);
  }

  lemma BeginKeepsFids(s: State, kind: Kind, number: nat)
    requires Inv(s) && Enabled(s, Begin(kind, number))
    ensures var n := BeginNext(s, kind, number); forall id :: 0 <= id < |n.fids| ==> FidOk(n, id)
  {
    var n := BeginNext(s, kind, number);
    RefsOfNew(s);
    forall id | 0 <= id < |n.fids| ensures FidOk(n, id) {
      if id < |s.fids| { assert FidOk(s, id); }
      RefsAppend(s.reqs, n.reqs[|s.reqs|], id);
    }
  }

  lemma BeginKeepsReqs(s: State, kind: Kind, number: nat)
    requires Inv(s) && Enabled(s, Begin(kind, number))
    ensures var n := BeginNext(s, kind, number); (forall r :: 0 <= r < |n.reqs| ==> ReqOk(n, r)) && Single(n)
  {
    var n := BeginNext(s, kind, number);
    forall r | 0 <= r < |n.reqs| ensures ReqOk(n, r) {
      if r < |s.reqs| { assert ReqOk(s, r); }
    }
    forall a, b | 0 <= a < b < |n.reqs| && BothClunk(n.reqs[a], n.reqs[b]) ensures n.reqs[a].fid != n.reqs[b].fid {
      if b < |s.reqs| { assert BothClunk(s.reqs[a], s.reqs[b]); }
    }
    forall a, b | 0 <= a < b < |n.fids| && n.fids[a].pooled && n.fids[b].pooled
      ensures n.fids[a].number != n.fids[b].number
    {
      assert a < |s.fids| && s.fids[a].pooled;
      if b == |s.fids| { assert !Finds(s, number, a); }
    }
  }

  lemma TakeKeepsFids(s: State, r: nat, number: nat)
    requires Inv(s) && Enabled(s, Take(r, number))
    ensures var n := TakeNext(s, r, number); forall id :: 0 <= id < |n.fids| ==> FidOk(n, id)
  {
    var n := TakeNext(s, r, number);
    RefsOfNew(s);
    assert ReqOk(s, r);
    forall id | 0 <= id < |n.fids| ensures FidOk(n, id) {
      if id < |s.fids| { assert FidOk(s, id); }
      RefsUpdate(s.reqs, r, n.reqs[r], id);
    }
  }

  lemma TakeKeepsReqs(s: State, r: nat, number: nat)
    requires Inv(s) && Enabled(s, Take(r, number))
    ensures var n := TakeNext(s, r, number); (forall q :: 0 <= q < |n.reqs| ==> ReqOk(n, q)) && Single(n)
  {
    var n := TakeNext(s, r, number);
    forall q | 0 <= q < |n.reqs| ensures ReqOk(n, q) { assert ReqOk(s, q); }
    forall a, b | 0 <= a < b < |n.reqs| && BothClunk(n.reqs[a], n.reqs[b]) ensures n.reqs[a].fid != n.reqs[b].fid {
      assert BothClunk(s.reqs[a], s.reqs[b]);
    }
    forall a, b | 0 <= a < b < |n.fids| && n.fids[a].pooled && n.fids[b].pooled
      ensures n.fids[a].number != n.fids[b].number
    {
      assert a < |s.fids| && s.fids[a].pooled;
      if b == |s.fids| { assert !Finds(s, number, a); }
    }
  }

  lemma RespondKeeps(s: State, r: nat, reply: bool)
    requires Inv(s) && Enabled(s, Respond(r, reply)) && Indexed(s)
    ensures Inv(RespondNext(s, r, reply))
  {
    var n := RespondNext(s, r, reply);
    assert ReqOk(s, r);
    forall id | 0 <= id < |n.fids| ensures FidOk(n, id) {
      assert FidOk(s, id);
      RefsUpdate(s.reqs, r, n.reqs[r], id);
    }
    forall q | 0 <= q < |n.reqs| ensures ReqOk(n, q) { assert ReqOk(s, q); }
    forall a, b | 0 <= a < b < |n.reqs| && BothClunk(n.reqs[a], n.reqs[b]) ensures n.reqs[a].fid != n.reqs[b].fid {
      assert BothClunk(s.reqs[a], s.reqs[b]);
    }
  }

  lemma ReturnKeepsFid(s: State, r: nat, ok: bool, id: nat)
    requires Inv(s) && Enabled(s, Return(r, ok)) && Indexed(s) && id < |s.fids|
    ensures |ReturnNext(s, r, ok).fids| == |s.fids| && FidOk(ReturnNext(s, r, ok), id)
  {
    var q, done := s.reqs[r], ReturnNext(s, r, ok).reqs[r];
    assert ReqOk(s, r) && FidOk(s, id);
    RefsUpdate(s.reqs, r, done, id);
    RefsUpdate(s.reqs, r, Req(Plain, Answered, None, None), id);
    ReturnEffect(s, r, ok, id);
  }

  /** What the return does to one fid. */
  lemma ReturnEffect(s: State, r: nat, ok: bool, id: nat)
    requires Inv(s) && Enabled(s, Return(r, ok)) && Indexed(s) && id < |s.fids|
    ensures var q, n := s.reqs[r], ReturnNext(s, r, ok);
      var mine, other := q.fid == Some(id), q.temp == Some(id);
      && |n.fids| == |s.fids|
      && var f, g := s.fids[id], n.fids[id];
      && g.maker == f.maker && g.number == f.number
      && g.lost == f.lost + (if mine && Forgets(q, ok) then 1 else 0)
      && g.held == (if mine && ok && q.kind.Clunk? then false
                    else if (mine && ok && q.kind.Attach?) || (other && ok && q.kind.New?) then true else f.held)
      && g.refcount == f.refcount + (if mine && ok && q.kind.Attach? then 1 else 0)
                       - (if mine && ok && q.kind.Clunk? then 1 else 0)
                       - (if other && !(q.kind.New? && ok) then 1 else 0)
      && (g.refcount == f.refcount || g.refcount > 0 ==> g.pooled == f.pooled && g.destroys == f.destroys)
      && (g.refcount == 0 && f.refcount > 0 ==> !g.pooled && g.destroys == f.destroys + 1)
  {
    assert ReqOk(s, r) && FidOk(s, id);
    RefsUpdate(s.reqs, r, Req(Plain, Answered, None, None), id);
  }

  lemma ReturnKeepsFids(s: State, r: nat, ok: bool)
    requires Inv(s) && Enabled(s, Return(r, ok)) && Indexed(s)
    ensures var n := ReturnNext(s, r, ok); forall id :: 0 <= id < |n.fids| ==> FidOk(n, id)
  {
    forall id | 0 <= id < |ReturnNext(s, r, ok).fids| ensures FidOk(ReturnNext(s, r, ok), id) {
      assert |ReturnNext(s, r, ok).fids| == |s.fids|;
      ReturnKeepsFid(s, r, ok, id);
    }
  }

  lemma ReturnKeepsReqs(s: State, r: nat, ok: bool)
    requires Inv(s) && Enabled(s, Return(r, ok)) && Indexed(s)
    ensures var n := ReturnNext(s, r, ok); (forall q :: 0 <= q < |n.reqs| ==> ReqOk(n, q)) && Single(n)
  {
    var n := ReturnNext(s, r, ok);
    forall q | 0 <= q < |n.reqs| ensures ReqOk(n, q) {
      assert ReqOk(s, q);
      assert q < r ==> (BothClunk(s.reqs[q], s.reqs[r]) ==> s.reqs[q].fid != s.reqs[r].fid);
      assert r < q ==> (BothClunk(s.reqs[r], s.reqs[q]) ==> s.reqs[r].fid != s.reqs[q].fid);
    }
    forall a, b | 0 <= a < b < |n.reqs| && BothClunk(n.reqs[a], n.reqs[b]) ensures n.reqs[a].fid != n.reqs[b].fid {
      assert BothClunk(s.reqs[a], s.reqs[b]);
    }
  }

  lemma InvStep(s: State, step: Step)
    requires Inv(s) && Indexed(s) && Enabled(s, step)
    ensures Inv(Next(s, step)) && Indexed(Next(s, step))
  {
    match step {
      case Begin(kind, number) => BeginKeepsFids(s, kind, number); BeginKeepsReqs(s, kind, number);
      case Take(r, number) => TakeKeepsFids(s, r, number); TakeKeepsReqs(s, r, number);
      case Return(r, ok) => ReturnKeepsFids(s, r, ok); ReturnKeepsReqs(s, r, ok);
      case Respond(r, reply) => RespondKeeps(s, r, reply);
    }
    InvIndexed(Next(s, step));
  }

  // ---- runs

  ghost predicate CanRun(s: State, steps: seq<Step>)
    decreases |steps|
  {
    steps == [] || (Indexed(s) && Enabled(s, steps[0]) && CanRun(Next(s, steps[0]), steps[1..]))
  }

  ghost function From(s: State, steps: seq<Step>): State
    requires CanRun(s, steps)
    decreases |steps|
  {
    if steps == [] then s else From(Next(s, steps[0]), steps[1..])
  }

  lemma {:induction false} InvFrom(s: State, steps: seq<Step>)
    requires Inv(s) && CanRun(s, steps)
    ensures Inv(From(s, steps))
    decreases |steps|
  {
    if steps != [] {
      InvStep(s, steps[0]);
      InvFrom(Next(s, steps[0]), steps[1..]);
    }
  }

  /** Over every run, the reference count of a fid is one for the client, if it holds the fid, one for each handler and
      unanswered request that refers to it, and those lost; the fid is in the pool while that is not zero, and is
      destroyed once. */
  lemma {:induction false} Conservation(steps: seq<Step>, id: nat)
    requires CanRun(Init(), steps) && id < |From(Init(), steps).fids|
    ensures var s := From(Init(), steps);
      var f := s.fids[id];
      f.refcount == Holders(s, id) && (f.pooled <==> Holders(s, id) > 0) && f.destroys == (if f.pooled then 0 else 1)
  {
    InvFrom(Init(), steps);
    assert FidOk(From(Init(), steps), id);
  }

  /** When nothing is in flight, the pool holds just the fids that the client holds, each with one reference, and those
      of which references were lost. */
  lemma {:induction false} AtRest(steps: seq<Step>, id: nat)
    requires CanRun(Init(), steps) && id < |From(Init(), steps).fids|
    requires forall r :: 0 <= r < |From(Init(), steps).reqs| ==> From(Init(), steps).reqs[r].phase.Answered?
    ensures var f := From(Init(), steps).fids[id];
      f.refcount == (if f.held then 1 else 0) + f.lost && (f.pooled <==> f.held || f.lost > 0)
  {
    var s := From(Init(), steps);
    InvFrom(Init(), steps);
    assert FidOk(s, id);
    forall r | 0 <= r < |s.reqs| ensures s.reqs[r].fid != Some(id) && s.reqs[r].temp != Some(id) { assert ReqOk(s, r); }
    RefsNone(s.reqs, id);
  }

  /** A step destroys a fid just when it takes the last holder away. */
  lemma DestroyedByTheLast(s: State, step: Step, id: nat)
    requires Inv(s) && Indexed(s) && Enabled(s, step) && id < |s.fids|
    ensures var n := Next(s, step);
      && id < |n.fids| && (s.fids[id].destroys < n.fids[id].destroys <==> Holders(s, id) > 0 && Holders(n, id) == 0)
      && (n.fids[id].destroys > 0 ==> Holders(n, id) == 0)
  {
    InvStep(s, step);
    assert FidOk(s, id) && FidOk(Next(s, step), id);
  }

  /** The step loses a reference to the fid: a Tlink that does not find its second fid, a Tunlinkat of a fid that cannot
      be used, or a response without a reply. */
  ghost predicate Loses(s: State, step: Step, id: nat)
    requires Indexed(s) && Enabled(s, step)
  {
    match step
    case Return(r, ok) => Forgets(s.reqs[r], ok) && s.reqs[r].fid == Some(id)
    case Respond(r, reply) => !reply && s.reqs[r].fid == Some(id)
    case _ => false
  }

  /** Nothing else loses one, and nothing finds one again. */
  lemma LostExactly(s: State, step: Step, id: nat)
    requires Inv(s) && Indexed(s) && Enabled(s, step) && id < |s.fids|
    ensures id < |Next(s, step).fids|
    ensures Next(s, step).fids[id].lost == s.fids[id].lost + if Loses(s, step, id) then 1 else 0
  {
    if step.Return? || step.Respond? || step.Take? { assert ReqOk(s, step.r); }
  }

  ghost predicate NoneLost(s: State) { forall id :: 0 <= id < |s.fids| ==> s.fids[id].lost == 0 }

  ghost predicate LosesNone(s: State, step: Step)
    requires Indexed(s) && Enabled(s, step)
  {
    forall id :: 0 <= id < |s.fids| ==> !Loses(s, step, id)
  }

  lemma NoneLostStep(s: State, step: Step)
    requires Inv(s) && Indexed(s) && Enabled(s, step)
    ensures NoneLost(Next(s, step)) <==> NoneLost(s) && LosesNone(s, step)
  {
    var n := Next(s, step);
    if step.Return? || step.Respond? || step.Take? { assert ReqOk(s, step.r); }
    forall id | 0 <= id < |s.fids|
      ensures id < |n.fids| && n.fids[id].lost == s.fids[id].lost + if Loses(s, step, id) then 1 else 0
    {
      LostExactly(s, step, id);
    }
  }

  ghost predicate Careful(s: State, steps: seq<Step>)
    requires CanRun(s, steps)
    decreases |steps|
  {
    steps == [] || (LosesNone(s, steps[0]) && Careful(Next(s, steps[0]), steps[1..]))
  }

  lemma {:induction false} CarefulFrom(s: State, steps: seq<Step>)
    requires Inv(s) && CanRun(s, steps)
    ensures NoneLost(From(s, steps)) <==> NoneLost(s) && Careful(s, steps)
    decreases |steps|
  {
    if steps != [] {
      InvStep(s, steps[0]);
      NoneLostStep(s, steps[0]);
      CarefulFrom(Next(s, steps[0]), steps[1..]);
    }
  }

  /** The references of every fid are just the client's and those of the requests, as they ought to be, if and only if
      none of the three things has happened. */
  lemma {:induction false} ConservedExactly(steps: seq<Step>)
    requires CanRun(Init(), steps)
    ensures var s := From(Init(), steps);
      (forall id :: 0 <= id < |s.fids| ==> s.fids[id].refcount == (if s.fids[id].held then 1 else 0) + Refs(s.reqs, id))
      <==> Careful(Init(), steps)
  {
    var s := From(Init(), steps);
    InvFrom(Init(), steps);
    CarefulFrom(Init(), steps);
    forall id | 0 <= id < |s.fids|
      ensures s.fids[id].refcount == (if s.fids[id].held then 1 else 0) + Refs(s.reqs, id) + s.fids[id].lost
    {
      assert FidOk(s, id);
    }
  }

  // ---- what a request does to the fids it names

  /** The step with which request r lets go of its first fid. */
  ghost predicate LetsGo(s: State, step: Step, r: nat) {
    match step
    case Respond(q, _) => q == r
    case Return(q, ok) =>
      && q == r < |s.reqs|
      && ((s.reqs[r].kind.Unlinkat? && !ok) || (s.reqs[r].kind.Link? && s.reqs[r].temp.None?))
    case _ => false
  }

  /** r does not let go of it on the way. */
  ghost predicate KeepsHold(s: State, steps: seq<Step>, r: nat)
    requires CanRun(s, steps)
    decreases |steps|
  {
    steps == [] || (!LetsGo(s, steps[0], r) && KeepsHold(Next(s, steps[0]), steps[1..], r))
  }

  ghost predicate NoReturn(steps: seq<Step>, r: nat) { forall ok :: Return(r, ok) !in steps }

  /** The references to the fid that are not those of request r. */
  function Others(s: State, r: nat, id: nat): nat
    requires r < |s.reqs| && id < |s.fids|
  {
    (if s.fids[id].held then 1 else 0) + Refs(s.reqs[r := Req(Plain, Answered, None, None)], id) + s.fids[id].lost
  }

  ghost predicate Refers(s: State, r: nat, id: nat) {
    r < |s.reqs| && id < |s.fids| && (s.reqs[r].fid == Some(id) || s.reqs[r].temp == Some(id))
  }

  lemma ReferredCounts(s: State, r: nat, id: nat)
    requires Inv(s) && Refers(s, r, id)
    ensures s.fids[id].pooled && s.fids[id].refcount > Others(s, r, id)
  {
    assert FidOk(s, id);
    RefsUpdate(s.reqs, r, Req(Plain, Answered, None, None), id);
  }

  lemma FoundIs(s: State, number: nat, id: nat)
    requires Inv(s) && Finds(s, number, id)
    ensures Found(s, number) == Some(id)
  {
  }

  lemma RefersStep(s: State, step: Step, r: nat, id: nat)
    requires Inv(s) && Indexed(s) && Enabled(s, step) && r < |s.reqs| && s.reqs[r].fid == Some(id)
    requires !LetsGo(s, step, r)
    ensures var n := Next(s, step);
      && r < |n.reqs| && n.reqs[r].fid == Some(id) && n.reqs[r].kind == s.reqs[r].kind
      && id < |s.fids| <= |n.fids| && n.fids[id].number == s.fids[id].number
      && (s.reqs[r].phase.Running? && !(step.Return? && step.r == r) ==> n.reqs[r].phase.Running?)
  {
    assert ReqOk(s, r);
    if step.Return? || step.Respond? || step.Take? { assert ReqOk(s, step.r); }
  }

  lemma {:induction false} RefersFrom(s: State, steps: seq<Step>, r: nat, id: nat)
    requires Inv(s) && CanRun(s, steps) && r < |s.reqs| && s.reqs[r].fid == Some(id) && KeepsHold(s, steps, r)
    ensures var n := From(s, steps);
      && Inv(n) && r < |n.reqs| && n.reqs[r].fid == Some(id) && n.reqs[r].kind == s.reqs[r].kind
      && id < |s.fids| && id < |n.fids| && n.fids[id].number == s.fids[id].number
      && (s.reqs[r].phase.Running? && NoReturn(steps, r) ==> n.reqs[r].phase.Running?)
    decreases |steps|
  {
    assert ReqOk(s, r);
    if steps != [] {
      assert steps[0] in steps && forall e :: e in steps[1..] ==> e in steps;
      RefersStep(s, steps[0], r, id);
      InvStep(s, steps[0]);
      RefersFrom(Next(s, steps[0]), steps[1..], r, id);
    }
  }

  /** A handler that finds a fid under its number has a reference to it: the fid stays in the pool, with more references
      than all the others account for, until the request is answered or the handler forgets it. */
  lemma {:induction false} BegunHolds(s: State, kind: Kind, number: nat, id: nat, more: seq<Step>)
    requires Inv(s) && Indexed(s) && Finds(s, number, id) && !kind.Attach? && Enabled(s, Begin(kind, number))
    requires CanRun(Next(s, Begin(kind, number)), more) && KeepsHold(Next(s, Begin(kind, number)), more, |s.reqs|)
    ensures var n := From(Next(s, Begin(kind, number)), more);
      && |s.reqs| < |n.reqs| && n.reqs[|s.reqs|].kind == kind
      && (NoReturn(more, |s.reqs|) ==> n.reqs[|s.reqs|].phase.Running?)
      && Finds(n, number, id) && n.fids[id].refcount > Others(n, |s.reqs|, id)
  {
    FoundIs(s, number, id);
    InvStep(s, Begin(kind, number));
    RefersFrom(Next(s, Begin(kind, number)), more, |s.reqs|, id);
    ReferredCounts(From(Next(s, Begin(kind, number)), more), |s.reqs|, id);
  }

  // ---- a clunk

  lemma NotHeldStep(s: State, step: Step, id: nat)
    requires Inv(s) && Indexed(s) && Enabled(s, step) && id < |s.fids| && !s.fids[id].held
    requires s.fids[id].maker < |s.reqs| && !s.reqs[s.fids[id].maker].phase.Running?
    ensures var n := Next(s, step);
      && id < |n.fids| && !n.fids[id].held && n.fids[id].maker < |n.reqs| && !n.reqs[n.fids[id].maker].phase.Running?
  {
    if step.Return? || step.Respond? || step.Take? { assert ReqOk(s, step.r); }
  }

  lemma {:induction false} NotHeldFrom(s: State, steps: seq<Step>, id: nat)
    requires Inv(s) && CanRun(s, steps) && id < |s.fids| && !s.fids[id].held
    requires s.fids[id].maker < |s.reqs| && !s.reqs[s.fids[id].maker].phase.Running?
    ensures var n := From(s, steps); Inv(n) && id < |n.fids| && !n.fids[id].held
    decreases |steps|
  {
    if steps != [] {
      NotHeldStep(s, steps[0], id);
      InvStep(s, steps[0]);
      NotHeldFrom(Next(s, steps[0]), steps[1..], id);
    }
  }

  lemma ClunkLeaves(s: State, r: nat, id: nat)
    requires Inv(s) && Indexed(s) && Enabled(s, Return(r, true)) && s.reqs[r].kind.Clunk? && s.reqs[r].fid == Some(id)
    ensures var n := Next(s, Return(r, true));
      && id < |s.fids| && id < |n.fids| && !n.fids[id].held && n.reqs[r].fid == Some(id)
      && n.fids[id].maker < |n.reqs| && !n.reqs[n.fids[id].maker].phase.Running?
  {
    assert ReqOk(s, r) && FidOk(s, id);
  }

  /** The client clunks the fid with this number: the handler begins, and returns when its backend has answered well,
      with anything between and behind. */
  datatype Clunk = Clunk(number: nat, upto: seq<Step>, behind: seq<Step>)

  ghost function AtReturn(s: State, c: Clunk): State
    requires Indexed(s) && Enabled(s, Begin(Kind.Clunk, c.number))
    requires CanRun(Next(s, Begin(Kind.Clunk, c.number)), c.upto)
  {
    From(Next(s, Begin(Kind.Clunk, c.number)), c.upto)
  }

  /** From then on the client does not hold the fid. It has the references of requests and those lost, and is in the
      pool only for these; so it is out of it, destroyed, when nobody else refers to it and none was lost. */
  lemma {:induction false} ClunkReleases(s: State, c: Clunk, id: nat)
    requires Inv(s) && Indexed(s) && Finds(s, c.number, id) && Enabled(s, Begin(Kind.Clunk, c.number))
    requires CanRun(Next(s, Begin(Kind.Clunk, c.number)), c.upto)
    requires var r, m := |s.reqs|, AtReturn(s, c);
      Indexed(m) && Enabled(m, Return(r, true)) && CanRun(Next(m, Return(r, true)), c.behind)
    requires KeepsHold(Next(s, Begin(Kind.Clunk, c.number)), c.upto, |s.reqs|)
    ensures var n := From(Next(AtReturn(s, c), Return(|s.reqs|, true)), c.behind);
      && id < |n.fids| && !n.fids[id].held && n.fids[id].refcount == Refs(n.reqs, id) + n.fids[id].lost
      && (n.fids[id].pooled <==> Refs(n.reqs, id) + n.fids[id].lost > 0)
      && (Refs(n.reqs, id) + n.fids[id].lost == 0 ==> n.fids[id].destroys == 1)
  {
    FoundIs(s, c.number, id);
    InvStep(s, Begin(Kind.Clunk, c.number));
    RefersFrom(Next(s, Begin(Kind.Clunk, c.number)), c.upto, |s.reqs|, id);
    ClunkLeaves(AtReturn(s, c), |s.reqs|, id);
    InvStep(AtReturn(s, c), Return(|s.reqs|, true));
    var n := From(Next(AtReturn(s, c), Return(|s.reqs|, true)), c.behind);
    NotHeldFrom(Next(AtReturn(s, c), Return(|s.reqs|, true)), c.behind, id);
    assert FidOk(n, id);
  }

  /** And when the reply is out, the request does not refer to it either. */
  lemma {:induction false} ClunkAnswered(s: State, r: nat, id: nat, more: seq<Step>)
    requires Inv(s) && Indexed(s) && Enabled(s, Respond(r, true)) && CanRun(Next(s, Respond(r, true)), more)
    ensures var n := From(Next(s, Respond(r, true)), more); r < |n.reqs| && !Refers(n, r, id)
  {
    InvStep(s, Respond(r, true));
    AnsweredFrom(Next(s, Respond(r, true)), r, more);
    assert ReqOk(From(Next(s, Respond(r, true)), more), r);
  }

  lemma {:induction false} AnsweredFrom(s: State, r: nat, more: seq<Step>)
    requires Inv(s) && CanRun(s, more) && r < |s.reqs| && s.reqs[r].phase.Answered?
    ensures var n := From(s, more); Inv(n) && r < |n.reqs| && n.reqs[r].phase.Answered?
    decreases |more|
  {
    if more != [] {
      InvStep(s, more[0]);
      AnsweredFrom(Next(s, more[0]), r, more[1..]);
    }
  }

  // ---- the second fid

  lemma TempStep(s: State, step: Step, r: nat, id: nat)
    requires Inv(s) && Indexed(s) && Enabled(s, step) && r < |s.reqs| && s.reqs[r].temp == Some(id)
    requires !(step.Return? && step.r == r)
    ensures var n := Next(s, step);
      && r < |n.reqs| && n.reqs[r].temp == Some(id) && n.reqs[r].kind == s.reqs[r].kind
      && id < |s.fids| <= |n.fids| && n.fids[id].number == s.fids[id].number
  {
    assert ReqOk(s, r);
    if step.Return? || step.Respond? || step.Take? { assert ReqOk(s, step.r); }
  }

  lemma {:induction false} TempFrom(s: State, steps: seq<Step>, r: nat, id: nat)
    requires Inv(s) && CanRun(s, steps) && r < |s.reqs| && s.reqs[r].temp == Some(id) && NoReturn(steps, r)
    ensures var n := From(s, steps);
      && Inv(n) && r < |n.reqs| && n.reqs[r].temp == Some(id) && n.reqs[r].kind == s.reqs[r].kind
      && id < |s.fids| && id < |n.fids| && n.fids[id].number == s.fids[id].number
    decreases |steps|
  {
    assert ReqOk(s, r);
    if steps != [] {
      assert steps[0] in steps && forall e :: e in steps[1..] ==> e in steps;
      TempStep(s, steps[0], r, id);
      InvStep(s, steps[0]);
      TempFrom(Next(s, steps[0]), steps[1..], r, id);
    }
  }

  /** A handler that finds its second fid refers to that one, too, until it returns. */
  lemma {:induction false} TakenHolds(s: State, r: nat, number: nat, id: nat, more: seq<Step>)
    requires Inv(s) && Indexed(s) && Enabled(s, Take(r, number)) && Finds(s, number, id) && !s.reqs[r].kind.New?
    requires CanRun(Next(s, Take(r, number)), more) && NoReturn(more, r)
    ensures var n := From(Next(s, Take(r, number)), more);
      r < |n.reqs| && Finds(n, number, id) && n.fids[id].refcount > Others(n, r, id)
  {
    FoundIs(s, number, id);
    InvStep(s, Take(r, number));
    TempFrom(Next(s, Take(r, number)), more, r, id);
    ReferredCounts(From(Next(s, Take(r, number)), more), r, id);
  }

  /** A new fid is in the pool under its number while its handler is at work. When that returns well, the client holds
      it, and it stays in the pool; otherwise only others could keep it there. */
  lemma {:induction false} NewIsHeld(s: State, r: nat, number: nat, more: seq<Step>, ok: bool)
    requires Inv(s) && Indexed(s) && Enabled(s, Take(r, number)) && s.reqs[r].kind.New?
    requires CanRun(Next(s, Take(r, number)), more) && NoReturn(more, r)
    requires var m := From(Next(s, Take(r, number)), more); Indexed(m) && Enabled(m, Return(r, ok))
    ensures var m, id := From(Next(s, Take(r, number)), more), |s.fids|;
      && Finds(m, number, id)
      && var n := Next(m, Return(r, ok));
         && id < |n.fids| && (ok ==> Finds(n, number, id) && n.fids[id].held)
         && (!ok && !m.fids[id].held ==> (n.fids[id].pooled <==> Refs(n.reqs, id) + n.fids[id].lost > 0))
  {
    var id := |s.fids|;
    InvStep(s, Take(r, number));
    TempFrom(Next(s, Take(r, number)), more, r, id);
    var m := From(Next(s, Take(r, number)), more);
    ReferredCounts(m, r, id);
    InvStep(m, Return(r, ok));
    NewReturns(m, r, ok, id);
  }

  lemma {:induction false} NewReturns(m: State, r: nat, ok: bool, id: nat)
    requires Inv(m) && Indexed(m) && Enabled(m, Return(r, ok)) && m.reqs[r].kind.New? && m.reqs[r].temp == Some(id)
    requires Inv(Next(m, Return(r, ok))) && id < |m.fids| && m.fids[id].pooled
    ensures var n := Next(m, Return(r, ok));
      && id < |n.fids| && n.fids[id].number == m.fids[id].number && (ok ==> n.fids[id].pooled && n.fids[id].held)
      && (!ok && !m.fids[id].held ==> (n.fids[id].pooled <==> Refs(n.reqs, id) + n.fids[id].lost > 0))
  {
    ReturnEffect(m, r, ok, id);
    assert FidOk(Next(m, Return(r, ok)), id);
  }

  /** So is the fid a Tattach makes, which the handler and the client refer to when it returns well. */
  lemma {:induction false} AttachIsHeld(s: State, number: nat, more: seq<Step>)
    requires Inv(s) && Indexed(s) && Unused(s, number) && CanRun(Next(s, Begin(Attach, number)), more)
    requires KeepsHold(Next(s, Begin(Attach, number)), more, |s.reqs|)
    requires var m := From(Next(s, Begin(Attach, number)), more); Indexed(m) && Enabled(m, Return(|s.reqs|, true))
    ensures var m, id := From(Next(s, Begin(Attach, number)), more), |s.fids|;
      && Finds(m, number, id)
      && var n := Next(m, Return(|s.reqs|, true));
         Finds(n, number, id) && n.fids[id].held && n.fids[id].refcount >= 2
  {
    var id, r := |s.fids|, |s.reqs|;
    InvStep(s, Begin(Attach, number));
    RefersFrom(Next(s, Begin(Attach, number)), more, r, id);
    var m := From(Next(s, Begin(Attach, number)), more);
    ReferredCounts(m, r, id);
    InvStep(m, Return(r, true));
    ReturnEffect(m, r, true, id);
    AttachReturns(m, r, id);
  }

  lemma {:induction false} AttachReturns(m: State, r: nat, id: nat)
    requires Inv(m) && Indexed(m) && Enabled(m, Return(r, true)) && m.reqs[r].kind.Attach? && m.reqs[r].fid == Some(id)
    requires Inv(Next(m, Return(r, true))) && id < |m.fids| && m.fids[id].pooled
    ensures var n := Next(m, Return(r, true));
      && id < |n.fids| && n.fids[id].number == m.fids[id].number && n.fids[id].pooled && n.fids[id].held
      && n.fids[id].refcount >= 2
  {
    assert FidOk(m, id);
  }
}
