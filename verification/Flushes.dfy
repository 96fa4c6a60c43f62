/** The loop of np_respond (libnpfs/srv.c) that answers the Tflushes on a request's chain. It gives each Tflush back
    before it reads where that one leads, and np_req_alloc may have cleared it by then: what this costs, and exactly
    when. */
module Flushes {
  import opened Bytes
  import opened Engine
  import opened Resets

  /** Some run leads from s to n. */
  ghost predicate Later(s: State, n: State) { exists steps :: From(s, steps) == Some(n) }

  lemma Already(s: State)
    ensures Later(s, s)
  {
    assert From(s, []) == Some(s);
  }

  lemma Onwards(s: State, m: State, step: Step) returns (n: State)
    requires Later(s, m) && Within(m) && Enabled(m, step)
    ensures n == Next(m, step) && Later(s, n)
  {
    var steps :| From(s, steps) == Some(m);
    FromSnoc(s, steps, step);
    n := Next(m, step);
  }

  /** t has its own reply out and its loop has ended, and a Tflush that hung on it goes without an Rflush. */
  ghost predicate Forgets(n: State, t: nat) {
    At(n, t) && n.ents[t].pc.Done? && exists f :: f in n.ents[t].chain && Rflush(f) !in n.log
  }

  /** The loop works on a request that never hung on t. */
  ghost predicate Strays(n: State, t: nat) { At(n, t) && n.ents[t].pc.Astray? }

  // ---- what holds in every state

  /** The Tflushes are answered from the newest on, as many as the loop has come by. */
  lemma AnsweredExactly(n: State, t: nat, k: nat)
    requires Reached(n) && At(n, t) && k < |n.ents[t].chain|
    ensures Rflush(n.ents[t].chain[k]) in n.log <==> Behind(n.ents[t].pc) && k < n.ents[t].pc.sent
  {
    Reachable(n);
    LoggedLink(n, t, k);
  }

  lemma LoggedLink(n: State, t: nat, k: nat)
    requires Inv(n) && At(n, t) && k < |n.ents[t].chain|
    ensures At(n, n.ents[t].chain[k]) && n.ents[n.ents[t].chain[k]].pc == LinkPc(n.ents[t].pc, t, k)
    ensures Rflush(n.ents[t].chain[k]) in n.log <==> Behind(n.ents[t].pc) && k < n.ents[t].pc.sent
  {
    assert ChainOk(n, t);
  }

  /** Once a request is off workreqs, its chain stays as it is. */
  lemma {:induction false} ChainStays(s: State, steps: seq<Step>, t: nat)
    requires Inv(s) && From(s, steps).Some? && At(s, t) && PlaceOf(s.ents[t].pc).Finished?
    ensures var n := From(s, steps).value;
      Inv(n) && At(n, t) && PlaceOf(n.ents[t].pc).Finished? && n.ents[t].chain == s.ents[t].chain
    decreases |steps|
  {
    if steps != [] {
      InvStep(s, steps[0]);
      StaysFinished(s, steps[0], t);
      ChainStays(Next(s, steps[0]), steps[1..], t);
    }
  }

  lemma StaysFinished(s: State, step: Step, t: nat)
    requires Inv(s) && Enabled(s, step) && At(s, t) && PlaceOf(s.ents[t].pc).Finished?
    ensures var n := Next(s, step); At(n, t) && PlaceOf(n.ents[t].pc).Finished? && n.ents[t].chain == s.ents[t].chain
  {
    ChainFixed(s, step, t);
    StepMoves(s, step);
    FinishedMoves(s, Next(s, step), Out(s, step), t);
  }

  lemma FinishedMoves(s: State, n: State, out: seq<Event>, t: nat)
    requires AllMove(s, n, out) && At(s, t) && PlaceOf(s.ents[t].pc).Finished?
    ensures PlaceOf(n.ents[t].pc).Finished?
  {
    assert MoveOf(s, n, out, t);
  }

  lemma ForgetsFew(n: State, t: nat)
    requires Inv(n) && Forgets(n, t)
    ensures |n.ents[t].chain| > 1
  {
    var chain := n.ents[t].chain;
    var f :| f in chain && Rflush(f) !in n.log;
    var k :| 0 <= k < |chain| && chain[k] == f;
    LoggedLink(n, t, k);
    assert ChainOk(n, t);
  }

  lemma StraysFew(n: State, t: nat)
    requires Inv(n) && Strays(n, t)
    ensures n.ents[t].chain != []
  {
    assert LossOk(n, t);
  }

  lemma LoopBy(s: State, step: Step, t: nat)
    requires Lists(s) && Chains(s) && Enabled(s, step) && At(s, t) && At(Next(s, step), t)
    requires Behind(s.ents[t].pc) && Behind(Next(s, step).ents[t].pc)
    requires step != WriteRflush(t) && step != Advance(t) && step != Finish(t)
    ensures Next(s, step).ents[t].pc == s.ents[t].pc
  {
  }

  /** The loop of t is moved by its own steps alone. */
  lemma StaysPut(s: State, step: Step, t: nat)
    requires Lists(s) && Chains(s) && Enabled(s, step) && At(s, t) && Behind(s.ents[t].pc)
    requires step != WriteRflush(t) && step != Advance(t) && step != Finish(t)
    ensures At(Next(s, step), t) && Next(s, step).ents[t].pc == s.ents[t].pc
  {
    StepMoves(s, step);
    BehindMoves(s, Next(s, step), Out(s, step), t);
    LoopBy(s, step, t);
  }

  lemma BehindMoves(s: State, n: State, out: seq<Event>, t: nat)
    requires AllMove(s, n, out) && At(s, t) && Behind(s.ents[t].pc)
    ensures Behind(n.ents[t].pc)
  {
    assert MoveOf(s, n, out, t);
  }

  // ---- runs on which nobody takes the memory

  lemma IntactStays(s: State, step: Step, x: nat)
    requires Inv(s) && Enabled(s, step) && At(s, x) && Intact(s, x) && step != Alloc(s.ents[x].cell)
    ensures var n := Next(s, step); At(n, x) && Intact(n, x) && n.ents[x].cell == s.ents[x].cell
  {
    CellsStep(s, step);
  }

  lemma {:induction false} IntactFrom(s: State, steps: seq<Step>, x: nat)
    requires Inv(s) && From(s, steps).Some? && At(s, x) && Intact(s, x) && Alloc(s.ents[x].cell) !in steps
    ensures Intact(From(s, steps).value, x)
    decreases |steps|
  {
    if steps != [] {
      assert steps[0] in steps && forall e :: e in steps[1..] ==> e in steps;
      InvStep(s, steps[0]);
      IntactStays(s, steps[0], x);
      IntactFrom(Next(s, steps[0]), steps[1..], x);
    }
  }

  /** While np_req_alloc keeps off the Tflushes on the chain, but for the oldest, all of them get their Rflushes. */
  lemma {:induction false} AllAnswered(s: State, t: nat, more: seq<Step>, f: nat)
    requires Reached(s) && At(s, t) && s.ents[t].pc.Unlinked? && From(s, more).Some? && f in s.ents[t].chain
    requires forall k :: 0 <= k < |s.ents[t].chain| - 1 ==>
      At(s, s.ents[t].chain[k]) ==> Alloc(s.ents[s.ents[t].chain[k]].cell) !in more
    requires var n := From(s, more).value; At(n, t) && n.ents[t].pc.Done?
    ensures Rflush(f) in From(s, more).value.log
  {
    Reachable(s);
    ChainStays(s, more, t);
    var n := From(s, more).value;
    assert ChainOk(s, t);
    forall k | 0 <= k < |n.ents[t].chain| - 1 ensures Intact(n, n.ents[t].chain[k]) {
      assert Intact(s, s.ents[t].chain[k]);
      IntactFrom(s, more, s.ents[t].chain[k]);
    }
    ChainedIsServed(n, t, f);
  }

  // ---- runs on which somebody does

  /** The place on the chain of the first Tflush whose flushreq the loop has still to read. */
  function Pending(pc: Pc): nat {
    match pc
    case Flushing(_, n) => n
    case Between(_, n) => if n > 0 then n - 1 else 0
    case _ => 0
  }

  /** The loop of t has still to come by the k-th Tflush, which no reset holds on to, and has found its way so far. */
  ghost predicate OnTheWay(s: State, t: nat, k: nat) {
    && Inv(s) && At(s, t) && (s.ents[t].pc.Unlinked? || s.ents[t].pc.Flushing? || s.ents[t].pc.Between?)
    && Pending(s.ents[t].pc) <= k < |s.ents[t].chain| && !Held(s, s.ents[t].chain[k])
    && forall i :: Pending(s.ents[t].pc) <= i < |s.ents[t].chain| ==> Intact(s, s.ents[t].chain[i])
  }

  function LoopStep(pc: Pc, t: nat): Step {
    if pc.Unlinked? then WriteReply(t) else if pc.Flushing? then WriteRflush(t) else Advance(t)
  }

  function Turns(pc: Pc, k: nat): int {
    match pc
    case Unlinked(_) => 2 * k + 2
    case Flushing(_, n) => 2 * (k - n) + 1
    case Between(_, n) => 2 * (k - n) + 2
    case _ => 0
  }

  /** The loop's next step touches the pcs of t and its chain alone. */
  lemma LoopStepIs(s: State, t: nat, k: nat)
    requires OnTheWay(s, t, k) && !(s.ents[t].pc.Between? && s.ents[t].pc.sent == k + 1)
    ensures var step := LoopStep(s.ents[t].pc, t);
      && Enabled(s, step)
      && var pc, n := s.ents[t].pc, Next(s, step);
         && n.resets == s.resets && n.owner == s.owner && |n.ents| == |s.ents|
         && n.ents[t] == s.ents[t].(pc := n.ents[t].pc)
         && n.ents[t].pc == (if pc.Unlinked? then Flushing(pc.reply, 0)
                             else if pc.Flushing? then Between(pc.reply, pc.sent + 1)
                             else Flushing(pc.reply, pc.sent))
         && forall x :: 0 <= x < |s.ents| ==> n.ents[x].cell == s.ents[x].cell
  {
    if s.ents[t].pc.Between? { assert ChainOk(s, t) && Intact(s, s.ents[t].chain[Pending(s.ents[t].pc)]); }
    if s.ents[t].pc.Flushing? {
      LoggedLink(s, t, s.ents[t].pc.sent);
      AnswerIs(s, t);
    }
  }

  lemma AnswerIs(s: State, t: nat)
    requires Chains(s) && Within(s) && At(s, t) && s.ents[t].pc.Flushing? && s.ents[t].pc.sent < |s.ents[t].chain|
    ensures Enabled(s, WriteRflush(t))
    ensures var n, pc := Next(s, WriteRflush(t)), s.ents[t].pc;
      && n.resets == s.resets && n.owner == s.owner && |n.ents| == |s.ents|
      && n.ents[t] == s.ents[t].(pc := Between(pc.reply, pc.sent + 1))
      && forall x :: 0 <= x < |s.ents| ==> n.ents[x].cell == s.ents[x].cell
  {
    assert ChainOk(s, t);
  }

  lemma LoopMovesOn(s: State, t: nat, k: nat)
    requires OnTheWay(s, t, k) && !(s.ents[t].pc.Between? && s.ents[t].pc.sent == k + 1)
    ensures var step := LoopStep(s.ents[t].pc, t);
      && Enabled(s, step) && OnTheWay(Next(s, step), t, k) && Next(s, step).ents[t].chain == s.ents[t].chain
      && 0 <= Turns(Next(s, step).ents[t].pc, k) < Turns(s.ents[t].pc, k)
  {
    var step := LoopStep(s.ents[t].pc, t);
    LoopStepIs(s, t, k);
    InvStep(s, step);
    StillOnTheWay(s, Next(s, step), t, k);
    assert ChainOk(s, t);
  }

  lemma StillOnTheWay(s: State, n: State, t: nat, k: nat)
    requires OnTheWay(s, t, k) && Inv(n) && n.resets == s.resets && n.owner == s.owner && |n.ents| == |s.ents|
    requires n.ents[t].chain == s.ents[t].chain && Pending(s.ents[t].pc) <= Pending(n.ents[t].pc) <= k
    requires n.ents[t].pc.Flushing? || n.ents[t].pc.Between?
    requires forall x :: 0 <= x < |s.ents| ==> n.ents[x].cell == s.ents[x].cell
    ensures OnTheWay(n, t, k)
  {
    assert forall r, x :: HeldBy(n, r, x) ==> HeldBy(s, r, x);
    forall i | Pending(n.ents[t].pc) <= i < |n.ents[t].chain| ensures Intact(n, n.ents[t].chain[i]) {
      assert Intact(s, s.ents[t].chain[i]);
    }
  }

  /** The loop comes to the point where it has given the k-th Tflush back. */
  lemma {:induction false} LoopComes(start: State, s: State, t: nat, k: nat) returns (n: State)
    requires Later(start, s) && OnTheWay(s, t, k)
    ensures Later(start, n) && OnTheWay(n, t, k) && n.ents[t].chain == s.ents[t].chain
    ensures n.ents[t].pc.Between? && n.ents[t].pc.sent == k + 1
    decreases Turns(s.ents[t].pc, k)
  {
    if s.ents[t].pc.Between? && s.ents[t].pc.sent == k + 1 {
      n := s;
    } else {
      LoopMovesOn(s, t, k);
      var m := Onwards(start, s, LoopStep(s.ents[t].pc, t));
      n := LoopComes(start, m, t, k);
    }
  }

  /** The loop has just given the k-th Tflush back, and its memory can be taken. */
  ghost predicate Exposed(s: State, t: nat, k: nat) {
    OnTheWay(s, t, k) && s.ents[t].pc.Between? && s.ents[t].pc.sent == k + 1
  }

  lemma Takeable(s: State, t: nat, k: nat)
    requires Exposed(s, t, k)
    ensures At(s, s.ents[t].chain[k]) && Enabled(s, Alloc(s.ents[s.ents[t].chain[k]].cell))
    ensures var n := Next(s, Alloc(s.ents[s.ents[t].chain[k]].cell)); n.ents == s.ents && Enabled(n, Advance(t))
  {
    LoggedLink(s, t, k);
    assert Intact(s, s.ents[t].chain[k]);
  }

  /** A reader takes it and clears flushreq, and the loop ends. */
  lemma {:induction false} Loses(start: State, s: State, t: nat, k: nat) returns (n: State)
    requires Later(start, s) && Exposed(s, t, k) && k + 1 < |s.ents[t].chain|
    ensures Later(start, n) && Forgets(n, t)
  {
    Takeable(s, t, k);
    LoggedLink(s, t, k + 1);
    var m := Onwards(start, s, Alloc(s.ents[s.ents[t].chain[k]].cell));
    n := Onwards(start, m, Advance(t));
    assert s.ents[t].chain[k + 1] in n.ents[t].chain;
  }

  /** The reset has nothing left to wait for. */
  ghost predicate Ending(s: State, r: Resetter) {
    Within(s) && Engine.Resets(s, r) && (s.resets[r].Passed? || (s.resets[r].Waiting? && Quiet(s, r)))
  }

  /** No reset that has still to wait for a request holds on to the k-th Tflush on the chain. */
  ghost predicate Loose(s: State, t: nat, k: nat)
    requires At(s, t)
  {
    k < |s.ents[t].chain| && forall r :: HeldBy(s, r, s.ents[t].chain[k]) ==> Ending(s, r)
  }

  lemma Ends(start: State, s: State, r: Resetter) returns (n: State)
    requires Later(start, s) && Inv(s) && Ending(s, r)
    ensures Later(start, n) && Inv(n)
    ensures n == s.(resetting := n.resetting, resets := s.resets[r := Closed])
  {
    var m := s;
    if s.resets[r].Waiting? {
      InvStep(s, Pass(r));
      m := Onwards(start, s, Pass(r));
    }
    InvStep(m, Clear(r));
    n := Onwards(start, m, Clear(r));
  }

  /** The resets that have nothing left to wait for end. */
  lemma {:induction false} EndAll(start: State, s: State) returns (n: State)
    requires Later(start, s) && Inv(s)
    ensures Later(start, n) && Inv(n) && n == s.(resetting := n.resetting, resets := n.resets)
    ensures forall r, x :: HeldBy(n, r, x) ==> HeldBy(s, r, x) && !Ending(s, r)
    decreases |set r | r in s.resets && Ending(s, r)|
  {
    var ending := set r | r in s.resets && Ending(s, r);
    assert forall r :: r in s.resets && Ending(s, r) ==> r in ending;
    if ending == {} {
      n := s;
    } else {
      var r :| r in ending;
      var m := Ends(start, s, r);
      assert forall q :: q != r ==> (Ending(m, q) <==> Ending(s, q));
      assert (set q | q in m.resets && Ending(m, q)) == ending - {r};
      n := EndAll(start, m);
    }
  }

  lemma {:induction false} OnTheWayAtFirst(start: State, s: State, t: nat, k: nat) returns (n: State)
    requires Later(start, s) && Inv(s) && At(s, t) && s.ents[t].pc.Unlinked? && Loose(s, t, k)
    ensures Later(start, n) && OnTheWay(n, t, k) && n.ents == s.ents
  {
    n := EndAll(start, s);
    forall i | 0 <= i < |n.ents[t].chain| ensures Intact(n, n.ents[t].chain[i]) { LoggedLink(n, t, i); }
  }

  // ---- how the resets of a connection come to their end

  /** Every Tflush of the connection that has looked for its target, or has still to, finds one that is neither a Tflush
      nor a Tversion, or none. */
  ghost predicate Steady(s: State, c: nat)
    requires Within(s)
  {
    forall f :: f in s.work && s.ents[f].req.conn == c && s.ents[f].req.kind.Flush? ==> SteadyFlush(s, f)
  }

  ghost predicate SteadyFlush(s: State, f: nat)
    requires Within(s) && At(s, f) && s.ents[f].req.kind.Flush?
  {
    var e := s.ents[f];
    && (e.pc.Handling? ==> forall x :: x in s.work && Named(s.ents[x], e.req.conn, e.req.kind.oldtag) ==>
          s.ents[x].req.kind.Other?)
    && (e.pc.Chained? ==> At(s, e.pc.target) && s.ents[e.pc.target].req.kind.Other?)
  }

  /** A step by which working requests and resets come nearer to their end. */
  ghost predicate Drives(step: Step) {
    step.FlushStep? || step.Respond? || step.Unlink? || step.Sweep? || step.Pass? || step.Clear?
  }

  ghost predicate NoneWorking(s: State, c: nat)
    requires Within(s)
  {
    forall x :: x in s.work ==> s.ents[x].req.conn != c
  }

  /** Nothing is taken, added or finished on the way. */
  ghost predicate Kept(s: State, n: State) {
    && |n.ents| == |s.ents| && n.owner == s.owner
    && (forall x :: 0 <= x < |s.ents| ==> n.ents[x].req == s.ents[x].req && n.ents[x].cell == s.ents[x].cell)
    && (forall x :: 0 <= x < |s.ents| && PlaceOf(s.ents[x].pc).Finished? ==> n.ents[x] == s.ents[x])
    && forall x :: x in n.work ==> x in s.work
  }

  lemma DriveKeeps(s: State, step: Step)
    requires Inv(s) && Enabled(s, step) && Drives(step)
    ensures Kept(s, Next(s, step))
  {
    StepMoves(s, step);
    CellsStep(s, step);
    match step {
      case Unlink(id) => UnlinkKept(s, id);
      case FlushStep(f) => FlushKept(s, f);
      case Sweep(r) =>
      case _ =>
    }
  }

  lemma UnlinkKept(s: State, id: nat)
    requires Inv(s) && Enabled(s, Unlink(id))
    ensures var n := Next(s, Unlink(id));
      && |n.ents| == |s.ents| && (forall x :: x in n.work ==> x in s.work)
      && forall x :: 0 <= x < |s.ents| && PlaceOf(s.ents[x].pc).Finished? ==> n.ents[x] == s.ents[x]
  {
    assert ChainOk(s, id);
    WithoutMembers(s.work, Together(s, id));
  }

  lemma FlushKept(s: State, f: nat)
    requires Inv(s) && Enabled(s, FlushStep(f))
    ensures var n := Next(s, FlushStep(f));
      && |n.ents| == |s.ents| && n.work == s.work
      && forall x :: 0 <= x < |s.ents| && PlaceOf(s.ents[x].pc).Finished? ==> n.ents[x] == s.ents[x]
  {
    if QueuedTarget(s, f).Some? {
      assert s.ents[QueuedTarget(s, f).value].pc.Queued?;
    } else if WorkingTarget(s, f).Some? {
      HungOn(s, f, WorkingTarget(s, f).value);
    }
  }

  lemma DriveSteady(s: State, step: Step, c: nat)
    requires Inv(s) && Enabled(s, step) && Drives(step) && Steady(s, c) && Kept(s, Next(s, step))
    requires Inv(Next(s, step))
    ensures Steady(Next(s, step), c)
  {
    var n := Next(s, step);
    StepMoves(s, step);
    forall f | f in n.work && n.ents[f].req.conn == c && n.ents[f].req.kind.Flush? ensures SteadyFlush(n, f) {
      assert SteadyFlush(s, f);
      if n.ents[f].pc.Chained? { ChainedSteady(s, step, f); }
      HandlingWas(s, n, Out(s, step), f);
    }
  }

  lemma HandlingWas(s: State, n: State, out: seq<Event>, f: nat)
    requires AllMove(s, n, out) && f in s.work && At(s, f) && PlaceOf(s.ents[f].pc).OnWork?
    ensures n.ents[f].pc.Handling? ==> s.ents[f].pc.Handling?
  {
    assert MoveOf(s, n, out, f);
  }

  lemma ChainedSteady(s: State, step: Step, f: nat)
    requires Inv(s) && Enabled(s, step) && Drives(step) && f in s.work && s.ents[f].req.kind.Flush? && SteadyFlush(s, f)
    requires |Next(s, step).ents| == |s.ents| && Next(s, step).ents[f].pc.Chained?
    ensures var t := Next(s, step).ents[f].pc.target; At(s, t) && s.ents[t].req.kind.Other?
  {
    if Hangs(s, step) {
      HungOn(s, step.id, WorkingTarget(s, step.id).value);
    } else {
      NoneHung(s, step);
    }
  }

  /** The working requests that are in their handlers, or are Tflushes about to be answered. */
  function AtWork(s: State, handling: bool): set<nat>
    requires Within(s)
  {
    set x | x in s.work && if handling then s.ents[x].pc.Handling? else s.ents[x].pc.Answering?
  }

  /** The resets with so many steps to go. */
  function InPhase(s: State, left: nat): set<Resetter> { set r | r in s.resets && StepsLeft(s.resets[r]) == left }

  function StepsLeft(phase: Phase): nat {
    match phase case Marked => 3 case Waiting(_) => 2 case Passed(_) => 1 case Closed => 0
  }

  ghost predicate Nearer(s: State, n: State)
    requires Within(s) && Within(n)
  {
    || |n.work| < |s.work|
    || (n.work == s.work && |AtWork(n, true)| < |AtWork(s, true)|)
    || (n.work == s.work && AtWork(n, true) == AtWork(s, true) && |AtWork(n, false)| < |AtWork(s, false)|)
    || (n.work == s.work && AtWork(n, true) == AtWork(s, true) && AtWork(n, false) == AtWork(s, false)
        && ResetsNearer(s, n))
  }

  ghost predicate ResetsNearer(s: State, n: State) {
    || |InPhase(n, 3)| < |InPhase(s, 3)|
    || (InPhase(n, 3) == InPhase(s, 3) && |InPhase(n, 2)| < |InPhase(s, 2)|)
    || (InPhase(n, 3) == InPhase(s, 3) && InPhase(n, 2) == InPhase(s, 2) && |InPhase(n, 1)| < |InPhase(s, 1)|)
  }

  lemma {:induction false} WithoutShorter<T>(list: seq<T>, drop: set<T>)
    ensures |Without(list, drop)| <= |list| && ((exists x :: x in list && x in drop) ==> |Without(list, drop)| < |list|)
  {
    if list != [] { WithoutShorter(list[1..], drop); }
  }

  lemma UnlinkNearer(s: State, id: nat)
    requires Inv(s) && Enabled(s, Unlink(id)) && Inv(Next(s, Unlink(id)))
    ensures Nearer(s, Next(s, Unlink(id)))
  {
    assert id in s.work && id in Together(s, id);
    WithoutShorter(s.work, Together(s, id));
  }

  lemma Smaller<T>(a: set<T>, b: set<T>, x: T)
    requires a == b - {x} && x in b
    ensures |a| < |b|
  {
  }

  lemma HandledNearer(s: State, step: Step, x: nat)
    requires Inv(s) && Enabled(s, step) && x in s.work && s.ents[x].pc.Handling? && Inv(Next(s, step))
    requires step == FlushStep(x) || (exists reply :: step == Respond(x, reply))
    ensures Nearer(s, Next(s, step))
  {
    var n := Next(s, step);
    HandledAlone(s, step, x);
    HandlesLess(s, n, x);
    Smaller(AtWork(n, true), AtWork(s, true), x);
  }

  lemma HandledAlone(s: State, step: Step, x: nat)
    requires Inv(s) && Enabled(s, step) && x in s.work && s.ents[x].pc.Handling?
    requires step == FlushStep(x) || (exists reply :: step == Respond(x, reply))
    ensures var n := Next(s, step);
      && |n.ents| == |s.ents| && n.work == s.work && !n.ents[x].pc.Handling?
      && forall y :: y in s.work && y != x ==> n.ents[y].pc == s.ents[y].pc
  {
    if step.FlushStep? {
      if QueuedTarget(s, x).Some? {
        assert s.ents[QueuedTarget(s, x).value].pc.Queued?;
      } else if WorkingTarget(s, x).Some? {
        HungOn(s, x, WorkingTarget(s, x).value);
      }
    }
  }

  lemma HandlesLess(s: State, n: State, x: nat)
    requires Within(s) && Within(n) && Lists(s) && n.work == s.work && x in s.work
    requires s.ents[x].pc.Handling? && !n.ents[x].pc.Handling?
    requires forall y :: y in s.work && y != x ==> n.ents[y].pc == s.ents[y].pc
    ensures AtWork(n, true) == AtWork(s, true) - {x}
  {
  }

  lemma AnsweringNearer(s: State, x: nat)
    requires Inv(s) && Enabled(s, Respond(x, true)) && x in s.work && s.ents[x].pc.Answering?
    requires Inv(Next(s, Respond(x, true)))
    ensures Nearer(s, Next(s, Respond(x, true)))
  {
    var n := Next(s, Respond(x, true));
    assert AtWork(n, true) == AtWork(s, true);
    Smaller(AtWork(n, false), AtWork(s, false), x);
  }

  lemma ResetNearer(s: State, v: nat)
    requires Inv(s) && Busy(s, ByVersion(v)) && Enabled(s, Onward(s, v)) && Inv(Next(s, Onward(s, v)))
    ensures Nearer(s, Next(s, Onward(s, v)))
  {
    var n, q := Next(s, Onward(s, v)), ByVersion(v);
    assert n.resets == s.resets[q := n.resets[q]] && StepsLeft(n.resets[q]) + 1 == StepsLeft(s.resets[q]);
    assert n.work == s.work && AtWork(n, true) == AtWork(s, true) && AtWork(n, false) == AtWork(s, false) by {
      assert forall x :: x in s.work ==> n.ents[x].pc == s.ents[x].pc;
    }
    PhaseLess(s, n, q);
  }

  lemma PhaseLess(s: State, n: State, q: Resetter)
    requires q in s.resets && q in n.resets && n.resets == s.resets[q := n.resets[q]]
    requires StepsLeft(n.resets[q]) + 1 == StepsLeft(s.resets[q])
    ensures ResetsNearer(s, n)
  {
    var left := StepsLeft(s.resets[q]);
    assert forall r :: r in s.resets && r != q ==> n.resets[r] == s.resets[r];
    Smaller(InPhase(n, left), InPhase(s, left), q);
    if left < 3 { assert InPhase(n, 3) == InPhase(s, 3); }
    if left < 2 { assert InPhase(n, 2) == InPhase(s, 2); }
  }

  /** A Tflush on a chain leaves with the request whose chain it is. */
  lemma TargetWorks(s: State, f: nat)
    requires Inv(s) && f in s.work && s.ents[f].pc.Chained?
    ensures var t := s.ents[f].pc.target;
      t in s.work && At(s, t) && (s.ents[t].pc.Handling? || s.ents[t].pc.Responding?)
  {
    var t := s.ents[f].pc.target;
    assert LinkOk(s, f) && ChainOk(s, t);
    var k :| 0 <= k < |s.ents[t].chain| && s.ents[t].chain[k] == f;
    assert s.ents[s.ents[t].chain[k]].pc == LinkPc(s.ents[t].pc, t, k);
  }

  lemma OtherNotBusy(s: State, x: nat)
    requires Inv(s) && x < |s.ents| && s.ents[x].req.kind.Other?
    ensures !Busy(s, ByVersion(x))
  {
    assert ByVersion(x) in s.resets ==> ResetOk(s, ByVersion(x));
  }

  /** Request x can go on: it is at the end, or in a handler that need not wait. */
  ghost predicate Free(s: State, x: nat) {
    && At(s, x) && x in s.work
    && (s.ents[x].pc.Responding? || s.ents[x].pc.Answering? || (s.ents[x].pc.Handling? && !Busy(s, ByVersion(x))))
  }

  lemma FreeSteps(s: State, x: nat) returns (step: Step)
    requires Inv(s) && Free(s, x) && (s.ents[x].req.kind.Flush? ==> SteadyFlush(s, x))
    ensures Drives(step) && Enabled(s, step) && Inv(Next(s, step)) && Nearer(s, Next(s, step))
  {
    assert ChainOk(s, x);
    if s.ents[x].pc.Responding? {
      step := Unlink(x);
      InvStep(s, step);
      UnlinkNearer(s, x);
    } else if s.ents[x].pc.Answering? {
      step := Respond(x, true);
      InvStep(s, step);
      AnsweringNearer(s, x);
    } else {
      step := if s.ents[x].req.kind.Flush? then FlushStep(x) else Respond(x, false);
      InvStep(s, step);
      HandledNearer(s, step, x);
    }
  }

  /** While a request of the connection is working, some step brings its end nearer. */
  lemma SomeStep(s: State, c: nat) returns (step: Step)
    requires Inv(s) && Steady(s, c) && !NoneWorking(s, c)
    ensures Drives(step) && Enabled(s, step) && Inv(Next(s, step)) && Nearer(s, Next(s, step))
  {
    if x :| x in s.work && s.ents[x].req.conn == c && Free(s, x) {
      step := FreeSteps(s, x);
    } else if f :| f in s.work && s.ents[f].req.conn == c && s.ents[f].pc.Chained? {
      TargetWorks(s, f);
      assert ChainOk(s, f) && SteadyFlush(s, f);
      OtherNotBusy(s, s.ents[f].pc.target);
      step := FreeSteps(s, s.ents[f].pc.target);
    } else {
      var v :| v in s.work && s.ents[v].req.conn == c;
      assert !Free(s, v);
      step := Onward(s, v);
      AllBusy(s, c, v);
      InvStep(s, step);
      ResetNearer(s, v);
    }
  }

  lemma AllBusy(s: State, c: nat, v: nat)
    requires Inv(s) && v in s.work && s.ents[v].req.conn == c
    requires forall x :: x in s.work && s.ents[x].req.conn == c ==> !Free(s, x) && !s.ents[x].pc.Chained?
    ensures Busy(s, ByVersion(v)) && Enabled(s, Onward(s, v)) && Drives(Onward(s, v))
  {
    forall x | x in s.work && s.ents[x].req.conn == c ensures Busy(s, ByVersion(x)) && s.ents[x].req.kind.Version? {
      assert !Free(s, x) && At(s, x);
      assert ResetOk(s, ByVersion(x));
    }
  }

  /** So they come to their end. */
  lemma {:induction false} Settle(start: State, s: State, c: nat) returns (n: State)
    requires Later(start, s) && Inv(s) && Steady(s, c)
    ensures Later(start, n) && Inv(n) && NoneWorking(n, c) && Kept(s, n)
    decreases |s.work|, |AtWork(s, true)|, |AtWork(s, false)|, |InPhase(s, 3)|, |InPhase(s, 2)|, |InPhase(s, 1)|
  {
    if NoneWorking(s, c) {
      n := s;
    } else {
      var step := SomeStep(s, c);
      DriveKeeps(s, step);
      DriveSteady(s, step, c);
      var m := Onwards(start, s, step);
      n := Settle(start, m, c);
    }
  }

  /** A reset holds on to requests of its own connection. */
  ghost predicate HoldsOwn(s: State) {
    forall r, x: nat :: HeldBy(s, r, x) ==> Engine.Resets(s, r) && At(s, x) && s.ents[x].req.conn == ConnOf(s, r)
  }

  lemma HoldsOwnStep(s: State, step: Step)
    requires Inv(s) && HoldsOwn(s) && Enabled(s, step)
    ensures HoldsOwn(Next(s, step))
  {
    var n := Next(s, step);
    StepMoves(s, step);
    forall r, x: nat | HeldBy(n, r, x) ensures Engine.Resets(n, r) && At(n, x) && n.ents[x].req.conn == ConnOf(n, r) {
      if !HeldBy(s, r, x) { NewlyHeld(s, step, r, x); }
    }
  }

  lemma NewlyHeld(s: State, step: Step, r: Resetter, x: nat)
    requires Inv(s) && Enabled(s, step) && HeldBy(Next(s, step), r, x) && !HeldBy(s, r, x)
    ensures step == Sweep(r) && At(s, x) && s.ents[x].req.conn == ConnOf(s, r)
  {
  }

  lemma {:induction false} HoldsOwnFrom(s: State, steps: seq<Step>)
    requires Inv(s) && HoldsOwn(s) && From(s, steps).Some?
    ensures HoldsOwn(From(s, steps).value)
    decreases |steps|
  {
    if steps != [] {
      InvStep(s, steps[0]);
      HoldsOwnStep(s, steps[0]);
      HoldsOwnFrom(Next(s, steps[0]), steps[1..]);
    }
  }

  /** Until the reset has ended, it holds the request, and the request its memory. */
  ghost predicate Spared(s: State, r: Resetter, x: nat) {
    At(s, x) && r in s.resets && (s.resets[r].Closed? || (HeldBy(s, r, x) && Intact(s, x)))
  }

  lemma SparedStep(s: State, step: Step, r: Resetter, x: nat)
    requires Inv(s) && Spared(s, r, x) && Enabled(s, step)
    ensures Spared(Next(s, step), r, x)
  {
    PhaseStep(s, step, r);
    if s.resets[r].Closed? {
      StepMoves(s, step);
    } else {
      assert Held(s, x) && step != Alloc(s.ents[x].cell);
      IntactStays(s, step, x);
    }
  }

  /** What a reset holds on to, it holds to its end, and it ends once. */
  lemma PhaseStep(s: State, step: Step, r: Resetter)
    requires Within(s) && Enabled(s, step) && r in s.resets
    ensures var n := Next(s, step); r in n.resets && (s.resets[r].Closed? ==> n.resets[r].Closed?)
    ensures var n := Next(s, step); forall x: nat :: HeldBy(s, r, x) ==> n.resets[r].Closed? || HeldBy(n, r, x)
  {
  }

  lemma {:induction false} SparedFrom(s: State, steps: seq<Step>, r: Resetter, x: nat)
    requires Inv(s) && Spared(s, r, x) && From(s, steps).Some?
    ensures Spared(From(s, steps).value, r, x)
    decreases |steps|
  {
    if steps != [] {
      InvStep(s, steps[0]);
      SparedStep(s, steps[0], r, x);
      SparedFrom(Next(s, steps[0]), steps[1..], r, x);
    }
  }

  /** A request of the connection that a sweep finds working, if it is not a Tversion or the reset is the reader's,
      keeps its memory until that reset has ended, wherever the request has got to by then. */
  lemma {:induction false} SweptKeepMemory(s: State, r: Resetter, x: nat, more: seq<Step>)
    requires Reached(s) && Within(s) && Enabled(s, Sweep(r)) && From(Next(s, Sweep(r)), more).Some?
    requires x in s.work && s.ents[x].req.conn == ConnOf(s, r) && (r.ByReader? || !s.ents[x].req.kind.Version?)
    ensures var n := From(Next(s, Sweep(r)), more).value; r in n.resets && (n.resets[r].Closed? || Intact(n, x))
  {
    Reachable(s);
    InvStep(s, Sweep(r));
    StepMoves(s, Sweep(r));
    assert x in s.work && Awaits(s, r, x) && Intact(s, x);
    IntactStays(s, Sweep(r), x);
    SparedFrom(Next(s, Sweep(r)), more, r, x);
  }

  /** Among the first m Tflushes on the chain is one that can come to be held by no reset: none that has still to wait
      holds on to it now, or the connection's requests can all come to their end. */
  ghost predicate CanLetGo(s: State, t: nat, m: int) {
    Within(s) && At(s, t) && m <= |s.ents[t].chain|
    && ((exists k: nat :: k < m && Loose(s, t, k)) || (m > 0 && Steady(s, s.ents[t].req.conn)))
  }

  lemma {:induction false} LetGo(s: State, t: nat, m: int) returns (n: State, k: nat)
    requires Reached(s) && At(s, t) && s.ents[t].pc.Unlinked? && CanLetGo(s, t, m)
    ensures Later(s, n) && k < m && OnTheWay(n, t, k) && n.ents[t] == s.ents[t]
  {
    Reachable(s);
    Already(s);
    if i: nat :| i < m && Loose(s, t, i) {
      k := i;
      n := OnTheWayAtFirst(s, s, t, k);
    } else {
      k := 0;
      n := Settle(s, s, s.ents[t].req.conn);
      ChainSameConn(s, t, k);
      SettledLoose(s, n, t, k);
      n := OnTheWayAtFirst(s, n, t, k);
    }
  }

  lemma SettledLoose(s: State, n: State, t: nat, k: nat)
    requires Reached(s) && Later(s, n) && Inv(n) && At(s, t) && Kept(s, n) && NoneWorking(n, s.ents[t].req.conn)
    requires PlaceOf(s.ents[t].pc).Finished? && k < |s.ents[t].chain| && At(s, s.ents[t].chain[k])
    requires s.ents[s.ents[t].chain[k]].req.conn == s.ents[t].req.conn
    ensures Loose(n, t, k)
  {
    var first :| From(Init(), first) == Some(s);
    var steps :| From(s, steps) == Some(n);
    Reachable(s);
    HoldsOwnFrom(Init(), first);
    HoldsOwnFrom(s, steps);
    forall r | HeldBy(n, r, n.ents[t].chain[k]) ensures Ending(n, r) { }
  }

  // ---- a Tflush hangs on a request of its own connection

  ghost predicate SameConn(s: State, t: nat)
    requires t < |s.ents|
  {
    forall f :: f in s.ents[t].chain ==> f < |s.ents| && s.ents[f].req.conn == s.ents[t].req.conn
  }

  lemma SameConnStep(s: State, step: Step, t: nat)
    requires Inv(s) && Enabled(s, step) && t < |Next(s, step).ents| && (t < |s.ents| ==> SameConn(s, t))
    ensures SameConn(Next(s, step), t)
  {
    StepMoves(s, step);
    if t >= |s.ents| {
      NewChainless(s, step, t);
    } else if Hangs(s, step) {
      HungOn(s, step.id, WorkingTarget(s, step.id).value);
    } else {
      StepLeads(s, step);
    }
  }

  lemma {:induction false} SameConnFrom(s: State, steps: seq<Step>, t: nat)
    requires Inv(s) && From(s, steps).Some? && At(From(s, steps).value, t) && (At(s, t) ==> SameConn(s, t))
    ensures SameConn(From(s, steps).value, t)
    decreases |steps|
  {
    if steps != [] {
      InvStep(s, steps[0]);
      if At(Next(s, steps[0]), t) { SameConnStep(s, steps[0], t); }
      SameConnFrom(Next(s, steps[0]), steps[1..], t);
    }
  }

  lemma ChainSameConn(s: State, t: nat, k: nat)
    requires Reached(s) && At(s, t) && k < |s.ents[t].chain|
    ensures At(s, s.ents[t].chain[k]) && s.ents[s.ents[t].chain[k]].req.conn == s.ents[t].req.conn
  {
    ReachedSameConn(s, t);
    assert s.ents[t].chain[k] in s.ents[t].chain;
  }

  lemma ReachedSameConn(s: State, t: nat)
    requires Reached(s) && At(s, t)
    ensures SameConn(s, t)
  {
    var first :| From(Init(), first) == Some(s);
    SameConnFrom(Init(), first, t);
  }

  // ---- a Tflush that hangs on a Tversion

  /** The Tversion resets the connection, and its reset waits for the Tflush that waits for the Tversion. */
  ghost predicate Knotted(s: State, v: nat, f: nat) {
    && Inv(s) && At(s, v) && At(s, f) && SameConn(s, v) && f in s.ents[v].chain && s.ents[f].pc == Chained(v)
    && s.ents[v].req.kind.Version? && Underway(s, ByVersion(v))
  }

  lemma KnotStays(s: State, step: Step, v: nat, f: nat)
    requires Knotted(s, v, f) && Enabled(s, step)
    ensures Knotted(Next(s, step), v, f)
  {
    var n := Next(s, step);
    InvStep(s, step);
    StepMoves(s, step);
    assert ResetOk(s, ByVersion(v));
    VersionStays(s, step, v);
    SameConnStep(s, step, v);
    Engine.ChainStays(s, step, v, f);
    LinkedTo(n, v, f);
    assert ChainOk(n, v);
    CannotPass(s, step, v, f);
  }

  lemma CannotPass(s: State, step: Step, v: nat, f: nat)
    requires Knotted(s, v, f) && Enabled(s, step) && |s.ents| <= |Next(s, step).ents|
    ensures Underway(Next(s, step), ByVersion(v))
  {
    assert ChainOk(s, f) && f in s.work;
    assert Awaits(s, ByVersion(v), f);
  }

  /** In no continuation does the reset pass its wait, and neither of the two is ever answered. */
  lemma {:induction false} KnotHolds(s: State, v: nat, f: nat, more: seq<Step>)
    requires Knotted(s, v, f) && From(s, more).Some?
    ensures var n := From(s, more).value;
      Underway(n, ByVersion(v)) && Reply(v) !in n.log && Rflush(f) !in n.log
    decreases |more|
  {
    if more == [] {
      assert ResetOk(s, ByVersion(v));
    } else {
      KnotStays(s, more[0], v, f);
      KnotHolds(Next(s, more[0]), v, f, more[1..]);
    }
  }

  /** So it is once a Tversion begins to reset its connection with a Tflush hanging on it. */
  lemma {:induction false} FlushedVersionWaits(s: State, v: nat, f: nat, more: seq<Step>)
    requires Reached(s) && At(s, f) && s.ents[f].pc == Chained(v) && Within(s) && Enabled(s, Mark(ByVersion(v)))
    requires From(Next(s, Mark(ByVersion(v))), more).Some?
    ensures var n := From(Next(s, Mark(ByVersion(v))), more).value;
      Underway(n, ByVersion(v)) && Reply(v) !in n.log && Rflush(f) !in n.log
  {
    Reachable(s);
    InvStep(s, Mark(ByVersion(v)));
    ReachedSameConn(s, v);
    assert LinkOk(s, f);
    KnotHolds(Next(s, Mark(ByVersion(v))), v, f, more);
  }

  /** Such a state can be reached. */
  lemma {:induction false} FlushedVersion() returns (s: State)
    ensures Reached(s) && At(s, 1) && s.ents[1].pc == Chained(0) && Within(s) && Enabled(s, Mark(ByVersion(0)))
  {
    var a, f := Req(0, 1, Version), Req(0, 2, Flush(1));
    BothHandledReached(a, f);
    Reachable(BothHandled(a, f));
    HungOn(BothHandled(a, f), 1, 0);
    s := OneMore(BothHandled(a, f), FlushStep(1));
    Reachable(s);
  }

  // ---- exactly when a Tflush can be forgotten

  /** np_respond is sure to answer every Tflush that hung on the request just when there was no more than one, whatever
      happens between its steps; unless, for each but the oldest, a reset that has still to wait holds on to it, and the
      connection has a Tflush aimed at a Tflush or at a Tversion. */
  lemma {:induction false} ForgetsExactly(s: State, t: nat)
    requires Reached(s) && At(s, t) && s.ents[t].pc.Unlinked?
    requires |s.ents[t].chain| > 1 ==> CanLetGo(s, t, |s.ents[t].chain| - 1)
    ensures (forall n :: Later(s, n) ==> !Forgets(n, t)) <==> |s.ents[t].chain| <= 1
  {
    Reachable(s);
    if |s.ents[t].chain| <= 1 {
      forall n | Later(s, n) ensures !Forgets(n, t) {
        var steps :| From(s, steps) == Some(n);
        ChainStays(s, steps, t);
        if Forgets(n, t) { ForgetsFew(n, t); }
      }
    } else {
      var m, k := LetGo(s, t, |s.ents[t].chain| - 1);
      m := LoopComes(s, m, t, k);
      var n := Loses(s, m, t, k);
    }
  }

  // ---- and how the loop comes by a request that never hung on t

  /** The queue is empty and all else is as it was, but for the handlers that were started. */
  ghost predicate Drained(s: State, n: State) {
    && n.queue == [] && n.owner == s.owner && n.resets == s.resets && n.resetting == s.resetting
    && |n.ents| == |s.ents| && (forall x :: 0 <= x < |s.ents| ==>
         n.ents[x] == if x in s.queue then s.ents[x].(pc := Handling) else s.ents[x])
  }

  lemma {:induction false} Drain(start: State, s: State) returns (n: State)
    requires Later(start, s) && Inv(s)
    ensures Later(start, n) && Inv(n) && Drained(s, n)
    decreases |s.queue|
  {
    if s.queue == [] {
      n := s;
    } else {
      assert s.queue[0] in s.queue && s.queue == [s.queue[0]] + s.queue[1..];
      InvStep(s, Take);
      var m := Onwards(start, s, Take);
      n := Drain(start, m);
    }
  }

  /** A connection nobody has used yet. */
  ghost predicate Unused(s: State, conn: nat) {
    && conn !in s.resetting && ByReader(conn) !in s.resets
    && forall x :: 0 <= x < |s.ents| ==> s.ents[x].req.conn != conn
  }

  lemma {:induction false} Bounded(used: set<nat>) returns (bound: nat)
    ensures forall c :: c in used ==> c < bound
  {
    bound := 0;
    if used != {} {
      var c :| c in used;
      bound := Bounded(used - {c});
      assert forall d :: d in used ==> d == c || d in used - {c};
      if bound <= c { bound := c + 1; }
    }
  }

  lemma SomeUnused(s: State) returns (conn: nat)
    ensures Unused(s, conn)
  {
    var read := set r | r in s.resets && r.ByReader? :: r.conn;
    var there := set x | 0 <= x < |s.ents| :: s.ents[x].req.conn;
    conn := Bounded(s.resetting + read + there);
    assert forall r :: r in s.resets && r.ByReader? ==> r.conn in read;
    assert forall x :: 0 <= x < |s.ents| ==> s.ents[x].req.conn in there;
  }

  /** Request h is in its handler, the only one of its connection with tag 0, and nothing is on the queue or keeps its
      reader from adding more. */
  ghost predicate Alone(s: State, h: nat) {
    && Inv(s) && At(s, h) && s.queue == [] && s.ents[h].pc.Handling?
    && s.ents[h].req.kind.Other? && s.ents[h].req.tag == 0
    && s.ents[h].req.conn !in s.resetting && ByReader(s.ents[h].req.conn) !in s.resets
    && forall x :: 0 <= x < |s.ents| && x != h ==> s.ents[x].req.conn != s.ents[h].req.conn || s.ents[x].req.tag != 0
  }

  lemma Anew(start: State, s: State, cell: nat) returns (n: State, h: nat)
    requires Later(start, s) && Inv(s) && cell < |s.owner| && s.owner[cell].None?
    ensures Later(start, n) && h == |s.ents| && Alone(n, h) && n.ents[h].cell == cell && Intact(n, h)
    ensures forall x :: 0 <= x < h ==> n.ents[x].cell == s.ents[x].cell && (x !in s.queue ==> n.ents[x] == s.ents[x])
  {
    var conn := SomeUnused(s);
    h := |s.ents|;
    var step := Add(Req(conn, 0, Other), cell);
    InvStep(s, step);
    var m := Onwards(start, s, step);
    assert m.queue[|s.queue|] == h;
    n := Drain(start, m);
  }

  /** A Tflush for it comes in and is handled. */
  lemma GetsFlush(start: State, s: State, h: nat, tag: nat) returns (n: State)
    requires Later(start, s) && Alone(s, h) && tag != 0
    ensures Later(start, n) && Alone(n, h) && |n.ents| == |s.ents| + 1 && n.resets == s.resets
    ensures n.ents[h] == s.ents[h].(chain := [|s.ents|] + s.ents[h].chain)
    ensures forall x :: 0 <= x < |s.ents| && x != h ==> n.ents[x] == s.ents[x]
    ensures Intact(s, h) ==> Intact(n, h)
  {
    var m, f := HandlesFlush(start, s, h, tag);
    FindsAlone(m, h, f);
    InvStep(m, FlushStep(f));
    HungOn(m, f, h);
    n := Onwards(start, m, FlushStep(f));
  }

  lemma HandlesFlush(start: State, s: State, h: nat, tag: nat) returns (n: State, f: nat)
    requires Later(start, s) && Alone(s, h) && tag != 0
    ensures Later(start, n) && Alone(n, h) && f == |s.ents| && |n.ents| == f + 1 && n.resets == s.resets
    ensures forall x :: 0 <= x < f ==> n.ents[x] == s.ents[x]
    ensures n.ents[f].pc.Handling? && n.ents[f].req == Req(s.ents[h].req.conn, tag, Flush(0))
    ensures Intact(s, h) ==> Intact(n, h)
  {
    var req := Req(s.ents[h].req.conn, tag, Flush(0));
    f := |s.ents|;
    InvStep(s, Add(req, |s.owner|));
    AddTake(s, req);
    var m := Onwards(start, s, Add(req, |s.owner|));
    InvStep(m, Take);
    n := Onwards(start, m, Take);
  }

  /** A new request that finds the queue empty goes to its handler. */
  lemma AddTake(s: State, req: Req)
    requires Within(s) && s.queue == [] && req.conn !in s.resetting && ByReader(req.conn) !in s.resets
    ensures Enabled(s, Add(req, |s.owner|))
    ensures var m := Next(s, Add(req, |s.owner|));
      && Within(m) && Enabled(m, Take)
      && var n := Next(m, Take);
         && n.ents == s.ents + [Entry(req, Handling, [], |s.owner|)] && n.queue == []
         && n.owner == s.owner + [Some(|s.ents|)] && n.resets == s.resets && n.resetting == s.resetting
  {
    var m := Next(s, Add(req, |s.owner|));
    assert m.queue == [|s.ents|] && m.queue[1..] == [];
    assert Next(m, Take).ents == s.ents + [Entry(req, Handling, [], |s.owner|)];
  }

  lemma HungOn(s: State, f: nat, t: nat)
    requires Lists(s) && Enabled(s, FlushStep(f)) && QueuedTarget(s, f).None? && WorkingTarget(s, f) == Some(t)
    ensures f != t && t < |s.ents|
    ensures Next(s, FlushStep(f)) == s.(ents := s.ents[f := s.ents[f].(pc := Chained(t))]
                                               [t := s.ents[t].(chain := [f] + s.ents[t].chain)])
  {
  }

  lemma FindsAlone(s: State, h: nat, f: nat)
    requires Alone(s, h) && At(s, f) && s.ents[f].pc.Handling? && s.ents[f].req.kind == Flush(0)
    requires s.ents[f].req.conn == s.ents[h].req.conn
    ensures QueuedTarget(s, f).None? && WorkingTarget(s, f) == Some(h) && Enabled(s, FlushStep(f))
  {
    assert h in s.work;
  }

  /** A reader takes the memory for a new request, which gets a Tflush of its own; and the loop goes on there. */
  lemma {:induction false} GoesAstray(start: State, s: State, t: nat, k: nat) returns (n: State)
    requires Later(start, s) && Exposed(s, t, k)
    ensures Later(start, n) && Strays(n, t)
  {
    Takeable(s, t, k);
    var f := s.ents[t].chain[k];
    InvStep(s, Alloc(s.ents[f].cell));
    var m1 := Onwards(start, s, Alloc(s.ents[f].cell));
    assert t !in m1.queue;
    var m2, h := Anew(start, m1, s.ents[f].cell);
    var m3 := GetsFlush(start, m2, h, 1);
    FollowsNewest(m3, t, f, h);
    n := Onwards(start, m3, Advance(t));
  }

  lemma FollowsNewest(s: State, t: nat, f: nat, h: nat)
    requires Within(s) && Enabled(s, Advance(t)) && f == s.ents[t].chain[s.ents[t].pc.sent - 1] && f != h
    requires At(s, h) && Intact(s, h) && s.ents[f].cell == s.ents[h].cell
    requires s.ents[h].pc.Handling? && s.ents[h].chain != []
    ensures Strays(Next(s, Advance(t)), t)
  {
    assert Reads(s, f) == LeadsTo(s, h);
  }

  /** And np_respond is sure never to leave the request's own Tflushes for another's just when there was none. */
  lemma {:induction false} StraysExactly(s: State, t: nat)
    requires Reached(s) && At(s, t) && s.ents[t].pc.Unlinked?
    requires s.ents[t].chain != [] ==> CanLetGo(s, t, |s.ents[t].chain|)
    ensures (forall n :: Later(s, n) ==> !Strays(n, t)) <==> s.ents[t].chain == []
  {
    Reachable(s);
    if s.ents[t].chain == [] {
      forall n | Later(s, n) ensures !Strays(n, t) {
        var steps :| From(s, steps) == Some(n);
        ChainStays(s, steps, t);
        if Strays(n, t) { StraysFew(n, t); }
      }
    } else {
      var m, k := LetGo(s, t, |s.ents[t].chain|);
      m := LoopComes(s, m, t, k);
      var n := GoesAstray(s, m, t, k);
    }
  }

  /** Two Tflushes for one request, and np_respond before it answers the first of them. */
  lemma TwoFlushes() returns (s: State)
    ensures Reached(s) && At(s, 0) && s.ents[0].pc.Unlinked? && |s.ents[0].chain| == 2 && s.resets == map[]
  {
    var m := OneRequest();
    m := GetsFlush(Init(), m, 0, 1);
    m := GetsFlush(Init(), m, 0, 2);
    var n := Onwards(Init(), m, Respond(0, true));
    InvStep(m, Respond(0, true));
    s := Onwards(Init(), n, Unlink(0));
  }

  lemma OneRequest() returns (s: State)
    ensures Later(Init(), s) && Alone(s, 0) && s.ents[0].chain == [] && s.resets == map[]
  {
    Already(Init());
    var m := Onwards(Init(), Init(), Add(Req(0, 0, Other), 0));
    s := Onwards(Init(), m, Take);
    Reachable(s);
  }

  /** So a reachable state has a request done with and a Tflush for it that never gets an Rflush. */
  lemma RflushLost() returns (s: State, n: State)
    ensures Reached(s) && At(s, 0) && s.ents[0].pc.Unlinked? && |s.ents[0].chain| == 2
    ensures Later(s, n) && Forgets(n, 0)
  {
    s := TwoFlushes();
    Reachable(s);
    assert Loose(s, 0, 0);
    ForgetsExactly(s, 0);
    n :| Later(s, n) && Forgets(n, 0);
  }

  // ---- where flushreq leads

  lemma {:induction false} AfterAt(chain: seq<nat>, k: nat)
    requires Distinct(chain) && k < |chain|
    ensures After(chain, chain[k]) == if k + 1 < |chain| then Some(chain[k + 1]) else None
  {
    if k > 0 { AfterAt(chain[1..], k - 1); }
  }

  lemma {:induction false} AfterIn(chain: seq<nat>, x: nat)
    ensures After(chain, x).Some? ==> After(chain, x).value in chain
  {
    if chain != [] {
      AfterIn(chain[1..], x);
      assert forall y :: y in chain[1..] ==> y in chain;
    }
  }

  /** While a Tflush keeps its memory, it leads to the next on the chain it hangs on. */
  lemma {:induction false} LeadsOn(s: State, t: nat, k: nat)
    requires Inv(s) && At(s, t) && k < |s.ents[t].chain|
    ensures var chain := s.ents[t].chain;
      At(s, chain[k]) && LeadsTo(s, chain[k]) == if k + 1 < |chain| then Some(chain[k + 1]) else None
  {
    LoggedLink(s, t, k);
    assert ChainOk(s, t);
    AfterAt(s.ents[t].chain, k);
  }

  /** What flushreq says of the requests there were stays. */
  ghost predicate SameLeads(s: State, n: State) {
    && |s.ents| <= |n.ents|
    && (forall x :: 0 <= x < |s.ents| ==> n.ents[x].chain == s.ents[x].chain && n.ents[x].cell == s.ents[x].cell)
    && (forall x :: 0 <= x < |s.ents| ==> (Linked(n.ents[x].pc) <==> Linked(s.ents[x].pc)))
    && (forall x :: 0 <= x < |s.ents| && Linked(s.ents[x].pc) ==> n.ents[x].pc.target == s.ents[x].pc.target)
  }

  ghost predicate Hangs(s: State, step: Step)
    requires Within(s) && Enabled(s, step)
  {
    step.FlushStep? && QueuedTarget(s, step.id).None? && WorkingTarget(s, step.id).Some?
  }

  lemma LeadsStay(s: State, n: State, x: nat)
    requires Inv(s) && SameLeads(s, n) && At(s, x)
    ensures LeadsTo(n, x) == LeadsTo(s, x)
  {
    assert LinkOk(s, x);
  }

  lemma StepLeads(s: State, step: Step)
    requires Inv(s) && Enabled(s, step) && !Hangs(s, step)
    ensures SameLeads(s, Next(s, step))
  {
    StepMoves(s, step);
    CellsStep(s, step);
    ChainsSame(s, step);
    NoneHung(s, step);
    LinksSame(s, Next(s, step), Out(s, step));
  }

  lemma ChainsSame(s: State, step: Step)
    requires Inv(s) && Enabled(s, step) && !Hangs(s, step) && |s.ents| <= |Next(s, step).ents|
    ensures forall x :: 0 <= x < |s.ents| ==> Next(s, step).ents[x].chain == s.ents[x].chain
  {
  }

  lemma NoneHung(s: State, step: Step)
    requires Inv(s) && Enabled(s, step) && !Hangs(s, step) && |s.ents| <= |Next(s, step).ents|
    ensures forall x :: 0 <= x < |s.ents| && Next(s, step).ents[x].pc.Chained? ==>
      s.ents[x].pc == Next(s, step).ents[x].pc
  {
  }

  lemma LinksSame(s: State, n: State, out: seq<Event>)
    requires AllMove(s, n, out)
    requires forall x :: 0 <= x < |s.ents| ==> n.ents[x].chain == s.ents[x].chain && n.ents[x].cell == s.ents[x].cell
    requires forall x :: 0 <= x < |s.ents| && n.ents[x].pc.Chained? ==> s.ents[x].pc == n.ents[x].pc
    ensures SameLeads(s, n)
  {
    forall x | 0 <= x < |s.ents|
      ensures Linked(n.ents[x].pc) <==> Linked(s.ents[x].pc)
      ensures Linked(s.ents[x].pc) ==> n.ents[x].pc.target == s.ents[x].pc.target
    {
      assert MoveOf(s, n, out, x);
    }
  }

  /** A Tflush that is hung on t gets t's flushreq, and t's leads to it. */
  lemma HangLeads(s: State, f: nat, t: nat, x: nat)
    requires Inv(s) && Enabled(s, FlushStep(f)) && QueuedTarget(s, f).None? && WorkingTarget(s, f) == Some(t)
    requires At(s, x)
    ensures f != t && At(s, t) && LeadsTo(s, f) == None
    ensures LeadsTo(Next(s, FlushStep(f)), x) ==
      if x == t then Some(f) else if x == f then LeadsTo(s, t) else LeadsTo(s, x)
  {
    HungOn(s, f, t);
    assert ChainOk(s, t) && ChainOk(s, f) && LinkOk(s, x);
    assert ([f] + s.ents[t].chain)[1..] == s.ents[t].chain;
  }

  // ---- the loop astray is on nothing of its own

  /** A request and the Tflushes that hang on it are in different cells. */
  ghost predicate OwnCells(s: State, t: nat)
    requires At(s, t)
  {
    var chain := s.ents[t].chain;
    && (forall k :: 0 <= k < |chain| ==> At(s, chain[k]) && s.ents[chain[k]].cell != s.ents[t].cell)
    && (forall j, k :: 0 <= j < k < |chain| && At(s, chain[j]) && At(s, chain[k]) ==>
          s.ents[chain[j]].cell != s.ents[chain[k]].cell)
  }

  lemma WorkingOwnCells(s: State, t: nat)
    requires Inv(s) && At(s, t) && PlaceOf(s.ents[t].pc).OnWork?
    ensures OwnCells(s, t)
  {
    assert ChainOk(s, t);
    forall k | 0 <= k < |s.ents[t].chain| ensures Intact(s, s.ents[t].chain[k]) { LoggedLink(s, t, k); }
  }

  lemma OwnCellsStep(s: State, step: Step, t: nat)
    requires Inv(s) && Enabled(s, step) && At(s, t) && OwnCells(s, t) && Inv(Next(s, step))
    ensures At(Next(s, step), t) && OwnCells(Next(s, step), t)
  {
    CellsStep(s, step);
    if PlaceOf(Next(s, step).ents[t].pc).OnWork? {
      WorkingOwnCells(Next(s, step), t);
    } else {
      ChainSame(s, step, t);
    }
  }

  lemma ChainSame(s: State, step: Step, t: nat)
    requires Inv(s) && Enabled(s, step) && At(s, t) && At(Next(s, step), t)
    requires !PlaceOf(Next(s, step).ents[t].pc).OnWork?
    ensures Next(s, step).ents[t].chain == s.ents[t].chain
  {
    if Hangs(s, step) {
      HungOn(s, step.id, WorkingTarget(s, step.id).value);
    } else {
      StepLeads(s, step);
    }
  }

  lemma {:induction false} OwnCellsFrom(s: State, steps: seq<Step>, t: nat)
    requires Inv(s) && From(s, steps).Some? && At(From(s, steps).value, t)
    requires At(s, t) ==> OwnCells(s, t)
    ensures OwnCells(From(s, steps).value, t)
    decreases |steps|
  {
    if steps != [] {
      InvStep(s, steps[0]);
      if At(s, t) {
        OwnCellsStep(s, steps[0], t);
      } else {
        NewChainless(s, steps[0], t);
      }
      OwnCellsFrom(Next(s, steps[0]), steps[1..], t);
    }
  }

  lemma NewChainless(s: State, step: Step, t: nat)
    requires Inv(s) && Enabled(s, step) && !At(s, t)
    ensures At(Next(s, step), t) ==> Next(s, step).ents[t].chain == []
  {
    StepMoves(s, step);
  }

  lemma LinkedTo(s: State, t: nat, x: nat)
    requires Inv(s) && At(s, t) && x in s.ents[t].chain
    ensures At(s, x) && Linked(s.ents[x].pc) && s.ents[x].pc.target == t
  {
    var k :| 0 <= k < |s.ents[t].chain| && s.ents[t].chain[k] == x;
    LoggedLink(s, t, k);
  }

  /** flushreq leads to a Tflush on the request's own chain, or on the one that the request itself hangs on. */
  lemma LeadsInto(s: State, h: nat)
    requires Inv(s) && At(s, h) && LeadsTo(s, h).Some?
    ensures Linked(s.ents[h].pc) ==>
      At(s, s.ents[h].pc.target) && LeadsTo(s, h).value in s.ents[s.ents[h].pc.target].chain
    ensures !Linked(s.ents[h].pc) ==> LeadsTo(s, h).value in s.ents[h].chain
    ensures At(s, LeadsTo(s, h).value)
  {
    assert LinkOk(s, h);
    if Linked(s.ents[h].pc) {
      AfterIn(s.ents[s.ents[h].pc.target].chain, h);
      LinkedTo(s, s.ents[h].pc.target, LeadsTo(s, h).value);
    } else {
      LinkedTo(s, h, LeadsTo(s, h).value);
    }
  }

  /** flushreq leads into a chain only from the request whose chain it is and from the Tflushes on it. */
  lemma {:induction false} LeadsFrom(s: State, t: nat, h: nat)
    requires Inv(s) && At(s, t) && At(s, h) && LeadsTo(s, h).Some? && LeadsTo(s, h).value in s.ents[t].chain
    ensures h == t || h in s.ents[t].chain
  {
    var x := LeadsTo(s, h).value;
    LinkedTo(s, t, x);
    LeadsInto(s, h);
    LinkedTo(s, if Linked(s.ents[h].pc) then s.ents[h].pc.target else h, x);
    assert LinkOk(s, h);
  }

  lemma {:induction false} SharesNoCell(s: State, t: nat, k: nat, h: nat)
    requires Inv(s) && At(s, t) && OwnCells(s, t) && k < |s.ents[t].chain| && At(s, h)
    requires h == t || h in s.ents[t].chain
    ensures s.ents[t].chain[k] < |s.ents|
    ensures s.ents[h].cell == s.ents[s.ents[t].chain[k]].cell ==> h == s.ents[t].chain[k]
  {
    if h != t {
      var j :| 0 <= j < |s.ents[t].chain| && s.ents[t].chain[j] == h;
    }
  }

  /** Where the loop goes on astray is no Tflush of the request's own. */
  lemma {:induction false} StraysElsewhere(s: State, t: nat)
    requires Reached(s) && Within(s) && Enabled(s, Advance(t)) && Strays(Next(s, Advance(t)), t)
    ensures var f := s.ents[t].chain[s.ents[t].pc.sent - 1];
      Reads(s, f).Some? && Reads(s, f).value !in s.ents[t].chain
  {
    ReachedOwnCells(s, t);
    StraysReading(s, t);
    ReadsElsewhere(s, t, s.ents[t].pc.sent - 1);
  }

  lemma ReachedOwnCells(s: State, t: nat)
    requires Reached(s) && At(s, t)
    ensures Inv(s) && OwnCells(s, t)
  {
    Reachable(s);
    var steps :| From(Init(), steps) == Some(s);
    OwnCellsFrom(Init(), steps, t);
  }

  lemma StraysReading(s: State, t: nat)
    requires Within(s) && Enabled(s, Advance(t)) && Strays(Next(s, Advance(t)), t)
    ensures var f := s.ents[t].chain[s.ents[t].pc.sent - 1]; At(s, f) && !Intact(s, f) && Reads(s, f).Some?
  {
  }

  lemma ReadsElsewhere(s: State, t: nat, k: nat)
    requires Inv(s) && At(s, t) && OwnCells(s, t) && k < |s.ents[t].chain| && At(s, s.ents[t].chain[k])
    requires !Intact(s, s.ents[t].chain[k]) && Reads(s, s.ents[t].chain[k]).Some?
    ensures Reads(s, s.ents[t].chain[k]).value !in s.ents[t].chain
  {
    var h := s.owner[s.ents[s.ents[t].chain[k]].cell].value;
    if Reads(s, s.ents[t].chain[k]).value in s.ents[t].chain {
      LeadsFrom(s, t, h);
      SharesNoCell(s, t, k, h);
    }
  }
}
