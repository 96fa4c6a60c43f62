/** Connection reset (np_conn_reset of libnpfs/conn.c) on the request engine: what it is for, and exactly when it does
    not do it. */
module Resets {
  import opened Bytes
  import opened Engine

  /** The queued requests of one connection, in order. */
  function Only(s: State, queue: seq<nat>, conn: nat): seq<nat>
    requires Valid(s.ents, queue)
  {
    if queue == [] then []
    else
      assert queue[0] in queue && forall x :: x in queue[1..] ==> x in queue;
      if s.ents[queue[0]].req.conn == conn then [queue[0]] + Only(s, queue[1..], conn) else Only(s, queue[1..], conn)
  }

  /** A reset takes nothing from the other connections, and keeps their requests in order. */
  lemma {:induction false} SweepKeepsOthers(s: State, r: Resetter, conn: nat)
    requires Lists(s) && Enabled(s, Sweep(r)) && conn != ConnOf(s, r)
    ensures var n := Next(s, Sweep(r)); Lists(n) && Only(n, n.queue, conn) == Only(s, s.queue, conn)
    ensures var n := Next(s, Sweep(r)); NoneQueued(n, ConnOf(s, r)) && n.work == s.work
  {
    var gone := Swept(s, ConnOf(s, r));
    PlacedDrops(s.ents, s.queue, s.work, gone);
    OnlyWithout(s, Next(s, Sweep(r)), s.queue, gone, conn);
  }

  lemma {:induction false} OnlyWithout(s: State, n: State, queue: seq<nat>, gone: set<nat>, conn: nat)
    requires Valid(s.ents, queue) && |n.ents| == |s.ents| && Valid(n.ents, Without(queue, gone))
    requires forall x :: 0 <= x < |s.ents| ==> n.ents[x].req == s.ents[x].req
    requires forall x :: x in gone && x < |s.ents| ==> s.ents[x].req.conn != conn
    ensures Only(n, Without(queue, gone), conn) == Only(s, queue, conn)
    decreases |queue|
  {
    if queue != [] {
      assert queue[0] in queue && forall x :: x in queue[1..] ==> x in queue;
      WithoutMembers(queue, gone);
      WithoutMembers(queue[1..], gone);
      OnlyWithout(s, n, queue[1..], gone, conn);
      assert Without(queue, gone)[if queue[0] in gone then 0 else 1..] == Without(queue[1..], gone);
    }
  }

  lemma {:induction false} FromSnoc(s: State, steps: seq<Step>, last: Step)
    requires From(s, steps).Some? && Within(From(s, steps).value) && Enabled(From(s, steps).value, last)
    ensures From(s, steps + [last]) == Some(Next(From(s, steps).value, last))
    decreases |steps|
  {
    if steps == [] {
      assert [last][1..] == [];
      assert From(Next(s, last), []) == Some(Next(s, last));
    } else {
      assert (steps + [last])[1..] == steps[1..] + [last];
      FromSnoc(Next(s, steps[0]), steps[1..], last);
    }
  }

  lemma OneMore(s: State, step: Step) returns (n: State)
    requires Reached(s) && Within(s) && Enabled(s, step)
    ensures n == Next(s, step) && Reached(n)
  {
    var steps :| From(Init(), steps) == Some(s);
    FromSnoc(Init(), steps, step);
    n := Next(s, step);
  }

  ghost predicate VersionOf(s: State, conn: nat, v: nat) {
    At(s, v) && s.ents[v].req.kind.Version? && s.ents[v].req.conn == conn
  }

  /** A Tversion of the connection, other than r's, that may yet reset it. */
  ghost predicate Rival(s: State, r: Resetter, v: nat)
    requires Resets(s, r)
  {
    && VersionOf(s, ConnOf(s, r), v) && ByVersion(v) != r
    && (s.ents[v].pc.Queued? || (s.ents[v].pc.Handling? && (ByVersion(v) in s.resets ==> Busy(s, ByVersion(v)))))
  }

  /** The reader lets no request in: it has left, or the resetting flag is up. */
  ghost predicate Barred(s: State, r: Resetter)
    requires Resets(s, r)
  {
    ByReader(ConnOf(s, r)) in s.resets || ConnOf(s, r) in s.resetting
  }

  /** And so it stays until r ends. */
  ghost predicate Secure(s: State, r: Resetter)
    requires Resets(s, r)
  {
    || ByReader(ConnOf(s, r)) in s.resets
    || (ConnOf(s, r) in s.resetting && forall v :: 0 <= v < |s.ents| ==> !Rival(s, r, v))
  }

  ghost predicate Underway(s: State, r: Resetter) { Resets(s, r) && (s.resets[r].Marked? || s.resets[r].Waiting?) }

  /** A reset is at the point where np_conn_reset goes on behind its wait. */
  ghost predicate Passes(s: State, r: Resetter) { Within(s) && Enabled(s, Pass(r)) }

  /** The step ends another Tversion's reset of the connection, while the reader is there. */
  ghost predicate EndsOther(s: State, step: Step, r: Resetter)
    requires Resets(s, r)
  {
    && step.Clear? && step.who.ByVersion? && step.who != r && Resets(s, step.who) && ConnOf(s, step.who) == ConnOf(s, r)
    && ByReader(ConnOf(s, r)) !in s.resets
  }

  ghost predicate Holding(s: State, r: Resetter)
    requires Within(s)
  {
    Resets(s, r) && (Underway(s, r) ==> Barred(s, r))
    && (Underway(s, r) && s.resets[r].Waiting? ==> NoneQueued(s, ConnOf(s, r)))
  }

  lemma HoldingStep(s: State, step: Step, r: Resetter)
    requires Inv(s) && Enabled(s, step) && Holding(s, r) && (Underway(s, r) ==> !EndsOther(s, step, r))
    ensures var n := Next(s, step); Inv(n) && Holding(n, r) && ConnOf(n, r) == ConnOf(s, r)
    ensures Underway(Next(s, step), r) ==> Underway(s, r)
  {
    InvStep(s, step);
    if step.Mark? || step.Sweep? || step.Pass? || step.Clear? {
      HoldingTurn(s, step, r);
    } else {
      StepApart(s, step);
      HoldingStays(s, Next(s, step), r);
    }
  }

  lemma HoldingStays(s: State, n: State, r: Resetter)
    requires Within(s) && Within(n) && Holding(s, r) && Apart(s, n)
    ensures Holding(n, r) && ConnOf(n, r) == ConnOf(s, r)
  {
  }

  lemma HoldingTurn(s: State, step: Step, r: Resetter)
    requires Lists(s) && Enabled(s, step) && Holding(s, r) && (Underway(s, r) ==> !EndsOther(s, step, r))
    requires Lists(Next(s, step)) && (step.Mark? || step.Sweep? || step.Pass? || step.Clear?)
    ensures Holding(Next(s, step), r) && (Underway(Next(s, step), r) ==> Underway(s, r))
  {
  }

  /** No other Tversion's reset of the connection ends on the way. */
  ghost predicate Undisturbed(s: State, steps: seq<Step>, r: Resetter)
    decreases |steps|
  {
    steps == [] || (Within(s) && Enabled(s, steps[0]) && Resets(s, r) && !EndsOther(s, steps[0], r)
                    && Undisturbed(Next(s, steps[0]), steps[1..], r))
  }

  lemma {:induction false} HoldingFrom(s: State, steps: seq<Step>, r: Resetter)
    requires Inv(s) && Holding(s, r) && From(s, steps).Some? && Undisturbed(s, steps, r)
    ensures var n := From(s, steps).value; Inv(n) && Holding(n, r) && ConnOf(n, r) == ConnOf(s, r)
    decreases |steps|
  {
    if steps != [] {
      HoldingStep(s, steps[0], r);
      HoldingFrom(Next(s, steps[0]), steps[1..], r);
    }
  }

  /** A reset during which no other Tversion's reset of the connection ends passes its wait with nothing of the
      connection on the queue. */
  lemma {:induction false} ResetClaim(s: State, r: Resetter, more: seq<Step>)
    requires Reached(s) && Within(s) && Enabled(s, Mark(r)) && Undisturbed(Next(s, Mark(r)), more, r)
    requires From(Next(s, Mark(r)), more).Some? && Passes(From(Next(s, Mark(r)), more).value, r)
    ensures var n := From(Next(s, Mark(r)), more).value; NoneQueued(n, ConnOf(n, r))
  {
    Reachable(s);
    InvStep(s, Mark(r));
    HoldingFrom(Next(s, Mark(r)), more, r);
  }

  /** The reader's own reset needs no such condition, and nothing of the connection is left on either list. */
  lemma ReaderResetClaim(s: State, conn: nat)
    requires Reached(s) && Passes(s, ByReader(conn))
    ensures forall x :: x in s.queue || x in s.work ==> x < |s.ents| && s.ents[x].req.conn != conn
  {
    Reachable(s);
    assert ResetOk(s, ByReader(conn));
  }

  lemma EndedByRival(s: State, step: Step, r: Resetter)
    requires Lists(s) && ResetsOk(s) && Enabled(s, step) && Resets(s, r) && EndsOther(s, step, r)
    ensures Rival(s, r, step.who.id)
  {
    assert ResetOk(s, step.who);
  }

  /** A reset once begun stays on record, and once ended ended; only its end lowers the flag. */
  ghost predicate ResetsMove(s: State, n: State, step: Step) {
    && (forall q :: q in s.resets ==> q in n.resets && (s.resets[q].Closed? ==> n.resets[q].Closed?))
    && (forall c :: c in s.resetting && c !in n.resetting ==>
          step.Clear? && Resets(s, step.who) && s.resets[step.who].Passed? && ConnOf(s, step.who) == c)
    && |s.ents| <= |n.ents| && (forall x :: |s.ents| <= x < |n.ents| ==> Admitted(s, n, x))
  }

  lemma StepMovesResets(s: State, step: Step)
    requires Lists(s) && Chains(s) && Enabled(s, step)
    ensures ResetsMove(s, Next(s, step), step)
  {
    if !(step.Mark? || step.Sweep? || step.Pass? || step.Clear?) { StepApart(s, step); }
  }

  lemma RivalWas(s: State, n: State, step: Step, r: Resetter, v: nat)
    requires Resets(s, r) && Resets(n, r) && AllMove(s, n, Out(s, step)) && ResetsMove(s, n, step)
    requires v < |s.ents| && Rival(n, r, v)
    ensures Rival(s, r, v)
  {
    assert MoveOf(s, n, Out(s, step), v);
  }

  lemma SecureStep(s: State, step: Step, r: Resetter)
    requires Inv(s) && Enabled(s, step) && Underway(s, r) && Secure(s, r)
    ensures !EndsOther(s, step, r) && (Underway(Next(s, step), r) ==> Secure(Next(s, step), r))
  {
    var n := Next(s, step);
    StepMoves(s, step);
    if EndsOther(s, step, r) { EndedByRival(s, step, r); }
    StepMovesResets(s, step);
    if Underway(n, r) { SecureMoved(s, n, step, r); }
  }

  lemma SecureMoved(s: State, n: State, step: Step, r: Resetter)
    requires Underway(s, r) && Underway(n, r) && Secure(s, r) && AllMove(s, n, Out(s, step)) && ResetsMove(s, n, step)
    requires !EndsOther(s, step, r)
    ensures Secure(n, r)
  {
    assert ConnOf(n, r) == ConnOf(s, r);
    forall v | 0 <= v < |n.ents| && ByReader(ConnOf(s, r)) !in s.resets ensures !Rival(n, r, v) {
      if v >= |s.ents| {
        assert Admitted(s, n, v);
      } else if Rival(n, r, v) {
        RivalWas(s, n, step, r, v);
      }
    }
  }

  lemma {:induction false} SecureFrom(s: State, steps: seq<Step>, r: Resetter)
    requires Inv(s) && Holding(s, r) && (Underway(s, r) ==> Secure(s, r)) && From(s, steps).Some?
    ensures var n := From(s, steps).value;
      Inv(n) && Holding(n, r) && ConnOf(n, r) == ConnOf(s, r) && (Underway(n, r) ==> Underway(s, r) && Secure(n, r))
    decreases |steps|
  {
    if steps != [] {
      if Underway(s, r) { SecureStep(s, steps[0], r); }
      HoldingStep(s, steps[0], r);
      SecureFrom(Next(s, steps[0]), steps[1..], r);
    }
  }

  /** Entry v is no Tversion of the connection but r's, or is finished. */
  ghost predicate Aside(s: State, r: Resetter, v: nat)
    requires Resets(s, r) && At(s, v)
  {
    VersionOf(s, ConnOf(s, r), v) ==> ByVersion(v) == r || PlaceOf(s.ents[v].pc).Finished?
  }

  /** What a client can see to: while one of its Tversions resets the connection, no other is about. */
  ghost predicate Alone(s: State, r: Resetter)
    requires Resets(s, r)
  {
    Barred(s, r) && forall v :: 0 <= v < |s.ents| ==> Aside(s, r, v)
  }

  lemma AloneMoved(s: State, n: State, step: Step, r: Resetter)
    requires Underway(s, r) && Underway(n, r) && Alone(s, r) && AllMove(s, n, Out(s, step)) && ResetsMove(s, n, step)
    requires !EndsOther(s, step, r)
    ensures Alone(n, r)
  {
    assert ConnOf(n, r) == ConnOf(s, r);
    forall v | 0 <= v < |n.ents| ensures Aside(n, r, v) {
      if v < |s.ents| {
        assert Aside(s, r, v) && MoveOf(s, n, Out(s, step), v);
      } else {
        assert Admitted(s, n, v);
      }
    }
  }

  lemma AloneSecure(s: State, r: Resetter)
    requires Resets(s, r) && Alone(s, r)
    ensures Secure(s, r)
  {
    forall v | 0 <= v < |s.ents| ensures !Rival(s, r, v) { assert Aside(s, r, v); }
  }

  lemma {:induction false} AloneFrom(s: State, steps: seq<Step>, r: Resetter)
    requires Inv(s) && Holding(s, r) && (Underway(s, r) ==> Alone(s, r)) && From(s, steps).Some?
    ensures var n := From(s, steps).value;
      Inv(n) && Holding(n, r) && ConnOf(n, r) == ConnOf(s, r) && (Underway(n, r) ==> Underway(s, r) && Alone(n, r))
    decreases |steps|
  {
    if steps != [] {
      var n := Next(s, steps[0]);
      if Underway(s, r) {
        AloneSecure(s, r);
        SecureStep(s, steps[0], r);
      }
      HoldingStep(s, steps[0], r);
      if Underway(n, r) {
        StepMoves(s, steps[0]);
        StepMovesResets(s, steps[0]);
        AloneMoved(s, n, steps[0], r);
      }
      AloneFrom(n, steps[1..], r);
    }
  }

  lemma AloneAtFirst(s: State, id: nat)
    requires Reached(s) && Within(s) && Enabled(s, Mark(ByVersion(id)))
    requires forall v :: v in s.queue || v in s.work ==> v == id || !VersionOf(s, s.ents[id].req.conn, v)
    ensures var m := Next(s, Mark(ByVersion(id)));
      Inv(m) && Holding(m, ByVersion(id)) && Underway(m, ByVersion(id)) && Alone(m, ByVersion(id))
  {
    var r, m := ByVersion(id), Next(s, Mark(ByVersion(id)));
    Reachable(s);
    InvStep(s, Mark(r));
    forall v | 0 <= v < |m.ents| ensures Aside(m, r, v) { }
  }

  /** A Tversion that begins to reset its connection while no other Tversion of it is queued or working is the only
      request of the connection left on either list when the reset passes its wait. */
  lemma {:induction false} LoneReset(s: State, id: nat, more: seq<Step>)
    requires Reached(s) && Within(s) && Enabled(s, Mark(ByVersion(id)))
    requires forall v :: v in s.queue || v in s.work ==> v == id || !VersionOf(s, s.ents[id].req.conn, v)
    requires From(Next(s, Mark(ByVersion(id))), more).Some?
    requires Passes(From(Next(s, Mark(ByVersion(id))), more).value, ByVersion(id))
    ensures var n := From(Next(s, Mark(ByVersion(id))), more).value;
      forall x :: x in n.queue || x in n.work ==>
        x < |n.ents| && (n.ents[x].req.conn == s.ents[id].req.conn ==> x == id)
  {
    var r, m := ByVersion(id), Next(s, Mark(ByVersion(id)));
    AloneAtFirst(s, id);
    AloneFrom(m, more, r);
    LeftAlone(From(m, more).value, id);
  }

  lemma LeftAlone(n: State, id: nat)
    requires Inv(n) && Holding(n, ByVersion(id)) && Underway(n, ByVersion(id)) && Alone(n, ByVersion(id))
    requires Passes(n, ByVersion(id))
    ensures forall x :: x in n.queue || x in n.work ==>
      x < |n.ents| && (n.ents[x].req.conn == ConnOf(n, ByVersion(id)) ==> x == id)
  {
    forall x | x in n.work && x < |n.ents| && n.ents[x].req.conn == ConnOf(n, ByVersion(id)) ensures x == id {
      assert Aside(n, ByVersion(id), x);
    }
  }

  // ---- and exactly when it goes wrong

  ghost predicate StaysEmpty(s: State, more: seq<Step>, r: Resetter)
    requires Resets(s, r)
  {
    From(s, more).Some? && Passes(From(s, more).value, r) ==> NoneQueued(From(s, more).value, ConnOf(s, r))
  }

  /** r can pass its wait, and a Tversion v of the connection may yet reset it, or the flag is down already. */
  ghost predicate Racing(s: State, r: Resetter, v: nat) {
    && Inv(s) && Passes(s, r) && r.ByVersion? && NoneQueued(s, ConnOf(s, r)) && ByReader(ConnOf(s, r)) !in s.resets
    && (ConnOf(s, r) in s.resetting ==> Rival(s, r, v))
  }

  function Ahead(s: State, r: Resetter, v: nat): nat
    requires Resets(s, r)
  {
    if ConnOf(s, r) !in s.resetting then 0
    else if ByVersion(v) !in s.resets then 4
    else match s.resets[ByVersion(v)] case Marked => 3 case Waiting(_) => 2 case Passed(_) => 1 case Closed => 5
  }

  /** The rival's next step. */
  function Onward(s: State, v: nat): Step {
    if ByVersion(v) !in s.resets then Mark(ByVersion(v))
    else match s.resets[ByVersion(v)]
      case Marked => Sweep(ByVersion(v)) case Waiting(_) => Pass(ByVersion(v)) case _ => Clear(ByVersion(v))
  }

  lemma RivalMovesOn(s: State, r: Resetter, v: nat)
    requires Racing(s, r, v) && ConnOf(s, r) in s.resetting
    ensures Enabled(s, Onward(s, v))
    ensures var n := Next(s, Onward(s, v));
      Racing(n, r, v) && ConnOf(n, r) == ConnOf(s, r) && Ahead(n, r, v) < Ahead(s, r, v)
  {
    InvStep(s, Onward(s, v));
    OnwardMoves(s, r, v);
  }

  lemma OnwardMoves(s: State, r: Resetter, v: nat)
    requires Racing(s, r, v) && ConnOf(s, r) in s.resetting
    ensures Enabled(s, Onward(s, v))
    ensures var n, q, c := Next(s, Onward(s, v)), ByVersion(v), ConnOf(s, r);
      && n.ents == s.ents && n.work == s.work && (forall x :: x in n.queue ==> x in s.queue)
      && n.resetting == (if Onward(s, v).Clear? then s.resetting - {c} else s.resetting)
      && q in n.resets && n.resets == s.resets[q := n.resets[q]]
      && if q !in s.resets then n.resets[q].Marked?
         else match s.resets[q]
           case Marked => n.resets[q].Waiting? case Waiting(_) => n.resets[q].Passed? case _ => n.resets[q].Closed?
  {
    var step := Onward(s, v);
    if step.Sweep? {
      assert Swept(s, ConnOf(s, r)) == {};
      WithoutMembers(s.queue, {});
    }
  }

  lemma {:induction false} RaceLost(s: State, r: Resetter, v: nat) returns (more: seq<Step>)
    requires Racing(s, r, v)
    ensures !StaysEmpty(s, more, r)
    decreases Ahead(s, r, v)
  {
    if ConnOf(s, r) !in s.resetting {
      var step := Add(Req(ConnOf(s, r), 0, Other), |s.owner|);
      var n := Next(s, step);
      more := [step];
      assert From(n, more[1..]) == Some(n);
      assert |s.ents| in n.queue;
    } else {
      RivalMovesOn(s, r, v);
      var step := Onward(s, v);
      var rest := RaceLost(Next(s, step), r, v);
      more := [step] + rest;
      assert more[1..] == rest;
    }
  }

  /** A reset that can pass its wait is sure to find nothing of its connection queued, however long it takes to pass,
      just when nothing is now and the reader lets nothing in until then: it has left, or the resetting flag is up and
      no other Tversion of the connection that has not yet ended its own reset is queued or in its handler. */
  lemma ResetExactly(s: State, r: Resetter)
    requires Reached(s) && Passes(s, r)
    ensures (forall more :: StaysEmpty(s, more, r)) <==> NoneQueued(s, ConnOf(s, r)) && Secure(s, r)
  {
    Reachable(s);
    if NoneQueued(s, ConnOf(s, r)) && Secure(s, r) {
      forall more ensures StaysEmpty(s, more, r) {
        if From(s, more).Some? { SecureFrom(s, more, r); }
      }
    } else if !NoneQueued(s, ConnOf(s, r)) {
      assert !StaysEmpty(s, [], r);
    } else {
      var v: nat := 0;
      if ConnOf(s, r) in s.resetting { v :| v < |s.ents| && Rival(s, r, v); }
      var more := RaceLost(s, r, v);
    }
  }

  /** So it is with a reset that is secure when it begins, at any time later... */
  lemma SecureReset(s: State, r: Resetter, more: seq<Step>)
    requires Reached(s) && Within(s) && Enabled(s, Mark(r)) && Secure(Next(s, Mark(r)), r)
    ensures StaysEmpty(Next(s, Mark(r)), more, r)
  {
    Begins(s, r);
    if From(Next(s, Mark(r)), more).Some? {
      SecureFrom(Next(s, Mark(r)), more, r);
      NothingLeft(From(Next(s, Mark(r)), more).value, r);
    }
  }

  lemma Begins(s: State, r: Resetter)
    requires Reached(s) && Within(s) && Enabled(s, Mark(r))
    ensures Inv(Next(s, Mark(r))) && Holding(Next(s, Mark(r)), r)
  {
    Reachable(s);
    InvStep(s, Mark(r));
  }

  lemma NothingLeft(n: State, r: Resetter)
    requires Inv(n) && Holding(n, r) && (Underway(n, r) ==> Secure(n, r))
    ensures Passes(n, r) ==> NoneQueued(n, ConnOf(n, r))
  {
  }

  /** ...and one that could pass its wait as soon as it has swept the queue has just this condition to meet. */
  lemma SweptExactly(s: State, r: Resetter)
    requires Reached(s) && Within(s) && Enabled(s, Sweep(r)) && Passes(Next(s, Sweep(r)), r)
    ensures (forall more :: StaysEmpty(Next(s, Sweep(r)), more, r)) <==> Secure(Next(s, Sweep(r)), r)
  {
    Reachable(s);
    SweepKeepsOthers(s, r, ConnOf(s, r) + 1);
    var n := OneMore(s, Sweep(r));
    ResetExactly(n, r);
  }

  /** Two requests in their handlers, and nothing else. */
  function BothHandled(a: Req, b: Req): State {
    BothQueued(a, b).(ents := [Entry(a, Handling, [], 0), Entry(b, Handling, [], 1)], queue := [], work := [1, 0],
                      log := [Handle(0), Handle(1)])
  }

  function BothQueued(a: Req, b: Req): State {
    State([Entry(a, Queued, [], 0), Entry(b, Queued, [], 1)], [0, 1], [], [], {}, map[], [Some(0), Some(1)])
  }

  lemma BothQueuedReached(a: Req, b: Req)
    ensures Reached(BothQueued(a, b))
  {
    assert From(Init(), []) == Some(Init());
    var s1 := OneMore(Init(), Add(a, 0));
    var s2 := OneMore(s1, Add(b, 1));
    assert s2 == BothQueued(a, b);
  }

  lemma BothHandledReached(a: Req, b: Req)
    ensures Reached(BothHandled(a, b))
  {
    BothQueuedReached(a, b);
    var s1 := OneMore(BothQueued(a, b), Take);
    var s2 := OneMore(s1, Take);
    assert s2 == BothHandled(a, b);
  }

  /** Two Tversions of one connection at once: while the first reset waits, the second ends, a request comes in, and the
      first passes its wait with that request on the queue. */
  lemma OverlappingResets() returns (s: State, r: Resetter, more: seq<Step>)
    ensures Reached(s) && Passes(s, r) && NoneQueued(s, ConnOf(s, r)) && !StaysEmpty(s, more, r)
  {
    OneWaitsReached();
    s, r := OneWaits(), ByVersion(0);
    Reachable(s);
    assert Rival(s, r, 1);
    more := RaceLost(s, r, 1);
  }

  /** Two Tversions of connection 0 in their handlers, the first of them behind the sweep of its reset. */
  function OneWaits(): State {
    var v := Req(0, 1, Version);
    BothHandled(v, v).(resetting := {0}, resets := map[ByVersion(0) := Waiting({})])
  }

  lemma OneWaitsReached()
    ensures Reached(OneWaits())
  {
    var v, r := Req(0, 1, Version), ByVersion(0);
    BothHandledReached(v, v);
    var s1 := OneMore(BothHandled(v, v), Mark(r));
    assert s1.resetting == {0} && s1.resets == map[r := Marked];
    SweepsNothing(s1, r);
    var s2 := OneMore(s1, Sweep(r));
    assert s2.resets == map[r := Waiting({})];
  }

  lemma SweepsNothing(s: State, r: Resetter)
    requires Within(s) && Enabled(s, Sweep(r)) && s.queue == [] && Quiet(s, r)
    ensures Next(s, Sweep(r)) == s.(resets := s.resets[r := Waiting({})])
  {
    assert Next(s, Sweep(r)).ents == s.ents;
    assert (set x | x in s.work && Awaits(s, r, x)) == {};
  }

  /** A Tflush can find its target on the queue while its connection is being reset. Then np_flush holds the server's
      lock when np_conn_respond asks for it once more. */
  lemma FlushMeetsReset() returns (s: State, f: nat)
    ensures Reached(s) && Within(s) && Enabled(s, FlushStep(f)) && QueuedTarget(s, f).Some?
    ensures s.ents[f].req.conn in s.resetting
  {
    var v, t := Req(0, 1, Version), Req(0, 2, Flush(3));
    BothHandledReached(v, t);
    var s1 := OneMore(BothHandled(v, t), Add(Req(0, 3, Other), 2));
    s := OneMore(s1, Mark(ByVersion(0)));
    f := 1;
    assert s.queue == [2] && s.ents[1].req == t && s.ents[2].req == Req(0, 3, Other);
  }
}
