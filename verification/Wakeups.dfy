/** The sleep of a reset (np_conn_reset of libnpfs/conn.c) on resetcond, and the broadcast in np_conn_respond that ends
    it: when a reset that could go on is sure to be woken. */
module Wakeups {
  import opened Bytes
  import opened Engine
  import F = Flushes
  import R = Resets

  /** The engine, and the resets that are inside pthread_cond_wait. */
  datatype Watch = Watch(s: State, asleep: set<Resetter>)

  datatype Act = Do(step: Step) | Sleep(who: Resetter)

  function Init(): Watch { Watch(Engine.Init(), {}) }

  /** The connection on which the step calls np_conn_respond, but for the requests a Tflush finds queued. */
  function Responds(s: State, step: Step): Option<nat>
    requires Valid(s.ents, s.queue)
  {
    match step
    case WriteReply(id) =>
      if id < |s.ents| && s.ents[id].pc.Unlinked? && s.ents[id].pc.reply then Some(s.ents[id].req.conn) else None
    case WriteRflush(id) =>
      if id < |s.ents| && s.ents[id].pc.Flushing? && s.ents[id].pc.sent < |s.ents[id].chain|
         && s.ents[id].chain[s.ents[id].pc.sent] < |s.ents|
      then Some(s.ents[s.ents[id].chain[s.ents[id].pc.sent]].req.conn) else None
    case Sweep(r) =>
      if (r.ByVersion? ==> r.id < |s.ents|) && exists x :: x in s.queue && s.ents[x].req.conn == ConnOf(s, r)
      then Some(ConnOf(s, r)) else None
    case _ => None
  }

  /** The step broadcasts resetcond of the reset's connection. */
  ghost predicate Wakes(s: State, step: Step, r: Resetter)
    requires Valid(s.ents, s.queue)
  {
    && Engine.Resets(s, r) && ConnOf(s, r) in s.resetting && Responds(s, step) == Some(ConnOf(s, r))
  }

  ghost predicate Can(w: Watch, act: Act) {
    && Within(w.s)
    && match act
       case Do(step) => Enabled(w.s, step) && (step.Pass? ==> step.who !in w.asleep)
       case Sleep(r) => Engine.Resets(w.s, r) && w.s.resets[r].Waiting? && !Quiet(w.s, r) && r !in w.asleep
  }

  ghost function Afterwards(w: Watch, act: Act): Watch
    requires Can(w, act)
  {
    match act
    case Do(step) => Watch(Next(w.s, step), set r | r in w.asleep && !Wakes(w.s, step, r))
    case Sleep(r) => w.(asleep := w.asleep + {r})
  }

  /** The state a run leads to; None when one of its steps cannot be taken. */
  ghost function Run(w: Watch, acts: seq<Act>): Option<Watch>
    decreases |acts|
  {
    if acts == [] then Some(w) else if Can(w, acts[0]) then Run(Afterwards(w, acts[0]), acts[1..]) else None
  }

  ghost predicate Reached(w: Watch) { exists acts :: Run(Init(), acts) == Some(w) }

  // ---- what every run keeps

  ghost predicate Sleeps(s: State, r: Resetter) { Engine.Resets(s, r) && s.resets[r].Waiting? }

  ghost predicate Sound(w: Watch) {
    && Inv(w.s) && (forall t :: 0 <= t < |w.s.ents| ==> F.SameConn(w.s, t))
    && forall r :: r in w.asleep ==> Sleeps(w.s, r)
  }

  lemma SleepsOn(w: Watch, step: Step, r: Resetter)
    requires Sound(w) && Can(w, Do(step)) && r in w.asleep
    ensures Sleeps(Next(w.s, step), r) && ConnOf(Next(w.s, step), r) == ConnOf(w.s, r)
  {
    StepMoves(w.s, step);
  }

  lemma SoundStep(w: Watch, act: Act)
    requires Sound(w) && Can(w, act)
    ensures Sound(Afterwards(w, act))
  {
    match act {
      case Sleep(r) =>
      case Do(step) =>
        InvStep(w.s, step);
        forall t | 0 <= t < |Next(w.s, step).ents| ensures F.SameConn(Next(w.s, step), t) {
          F.SameConnStep(w.s, step, t);
        }
        forall r | r in Afterwards(w, act).asleep ensures Sleeps(Next(w.s, step), r) { SleepsOn(w, step, r); }
    }
  }

  lemma {:induction false} SoundRun(w: Watch, acts: seq<Act>)
    requires Sound(w) && Run(w, acts).Some?
    ensures Sound(Run(w, acts).value)
    decreases |acts|
  {
    if acts != [] {
      SoundStep(w, acts[0]);
      SoundRun(Afterwards(w, acts[0]), acts[1..]);
    }
  }

  lemma ReachedSound(w: Watch)
    requires Reached(w)
    ensures Sound(w)
  {
    var acts :| Run(Init(), acts) == Some(w);
    SoundRun(Init(), acts);
  }

  // ---- what is still to come from a request that has left workreqs

  /** The thread that responds to x has still to call np_conn_respond. */
  ghost predicate Owes(s: State, x: nat)
    requires x < |s.ents|
  {
    var e := s.ents[x];
    match e.pc
    case Unlinked(reply) => reply || e.chain != []
    case Flushing(_, n) => n < |e.chain|
    case Between(_, n) => 0 < n < |e.chain| && Intact(s, e.chain[n - 1])
    case _ => false
  }

  ghost predicate SomeOwes(s: State, conn: nat) {
    exists x :: 0 <= x < |s.ents| && s.ents[x].req.conn == conn && Owes(s, x)
  }

  /** np_req_alloc takes the Tflush from under the loop of x. */
  ghost predicate Robs(s: State, step: Step, x: nat)
    requires x < |s.ents|
  {
    var e := s.ents[x];
    step.Alloc? && e.pc.Between? && 0 < e.pc.sent <= |e.chain| && e.chain[e.pc.sent - 1] < |s.ents|
    && s.ents[e.chain[e.pc.sent - 1]].cell == step.cell
  }

  function OwnStep(step: Step, x: nat): bool {
    step == WriteReply(x) || step == WriteRflush(x) || step == Advance(x) || step == Finish(x)
  }

  lemma OwesStays(s: State, step: Step, x: nat)
    requires Inv(s) && Enabled(s, step) && x < |s.ents| && F.SameConn(s, x) && Owes(s, x) && !Robs(s, step, x)
    ensures x < |Next(s, step).ents| && Next(s, step).ents[x].req == s.ents[x].req
    ensures Owes(Next(s, step), x) || Responds(s, step) == Some(s.ents[x].req.conn)
  {
    F.StaysFinished(s, step, x);
    if OwnStep(step, x) {
      OwnStepOwes(s, step, x);
    } else {
      OtherStepStays(s, step, x);
      StillOwes(s, step, x);
    }
  }

  lemma OwnStepOwes(s: State, step: Step, x: nat)
    requires Inv(s) && Enabled(s, step) && x < |s.ents| && F.SameConn(s, x) && Owes(s, x) && OwnStep(step, x)
    ensures x < |Next(s, step).ents| && Next(s, step).ents[x].req == s.ents[x].req
    ensures Owes(Next(s, step), x) || Responds(s, step) == Some(s.ents[x].req.conn)
  {
    if step.WriteRflush? {
      AnswerResponds(s, x);
    } else {
      assert ChainOk(s, x);
    }
  }

  lemma AnswerResponds(s: State, x: nat)
    requires Inv(s) && Enabled(s, WriteRflush(x)) && F.SameConn(s, x)
    ensures Responds(s, WriteRflush(x)) == Some(s.ents[x].req.conn)
    ensures x < |Next(s, WriteRflush(x)).ents| && Next(s, WriteRflush(x)).ents[x].req == s.ents[x].req
  {
    F.AnswerIs(s, x);
    assert s.ents[x].chain[s.ents[x].pc.sent] in s.ents[x].chain;
  }

  /** What other threads do leaves a request that has left workreqs where it stands. */
  lemma OtherStepStays(s: State, step: Step, x: nat)
    requires Inv(s) && Enabled(s, step) && x < |s.ents| && PlaceOf(s.ents[x].pc).Finished? && !OwnStep(step, x)
    requires Behind(s.ents[x].pc) || s.ents[x].pc.Unlinked?
    ensures x < |Next(s, step).ents| && Next(s, step).ents[x].pc == s.ents[x].pc
    ensures Next(s, step).ents[x].req == s.ents[x].req && Next(s, step).ents[x].chain == s.ents[x].chain
  {
    F.StaysFinished(s, step, x);
    if Behind(s.ents[x].pc) { F.StaysPut(s, step, x); } else { UnlinkedStays(s, step, x); }
    StepMoves(s, step);
  }

  lemma UnlinkedStays(s: State, step: Step, x: nat)
    requires Inv(s) && Enabled(s, step) && x < |s.ents| && s.ents[x].pc.Unlinked? && step != WriteReply(x)
    ensures x < |Next(s, step).ents| && Next(s, step).ents[x].pc == s.ents[x].pc
  {
    StepMoves(s, step);
    UnlinkedMoves(s, Next(s, step), Out(s, step), x);
    if Next(s, step).ents[x].pc.Flushing? { RepliesBy(s, step, x); }
  }

  lemma UnlinkedMoves(s: State, n: State, out: seq<Event>, x: nat)
    requires AllMove(s, n, out) && x < |s.ents| && s.ents[x].pc.Unlinked?
    ensures n.ents[x].pc == s.ents[x].pc || n.ents[x].pc.Flushing?
  {
    assert MoveOf(s, n, out, x);
  }

  lemma RepliesBy(s: State, step: Step, x: nat)
    requires Inv(s) && Enabled(s, step) && x < |s.ents| <= |Next(s, step).ents| && s.ents[x].pc.Unlinked?
    requires Next(s, step).ents[x].pc.Flushing?
    ensures step == WriteReply(x)
  {
  }

  lemma StillOwes(s: State, step: Step, x: nat)
    requires Inv(s) && Enabled(s, step) && x < |s.ents| <= |Next(s, step).ents| && Owes(s, x) && !Robs(s, step, x)
    requires Next(s, step).ents[x].pc == s.ents[x].pc && Next(s, step).ents[x].chain == s.ents[x].chain
    ensures Owes(Next(s, step), x)
  {
    var e := s.ents[x];
    if e.pc.Between? {
      F.LoggedLink(s, x, e.pc.sent - 1);
      F.IntactStays(s, step, e.chain[e.pc.sent - 1]);
    }
  }

  /** And one that has nothing to answer any more never has again. */
  lemma OwesNever(s: State, step: Step, x: nat)
    requires Inv(s) && Enabled(s, step) && x < |s.ents| && PlaceOf(s.ents[x].pc).Finished? && !Owes(s, x)
    ensures x < |Next(s, step).ents| && !Owes(Next(s, step), x)
  {
    F.StaysFinished(s, step, x);
    if OwnStep(step, x) {
      OwnStepNever(s, step, x);
    } else if Behind(s.ents[x].pc) || s.ents[x].pc.Unlinked? {
      OtherStepStays(s, step, x);
      StillNever(s, step, x);
    } else {
      StepMoves(s, step);
      NeverMoves(s, Next(s, step), Out(s, step), x);
    }
  }

  lemma NeverMoves(s: State, n: State, out: seq<Event>, x: nat)
    requires AllMove(s, n, out) && x < |s.ents| && PlaceOf(s.ents[x].pc).Finished?
    requires !Behind(s.ents[x].pc) && !s.ents[x].pc.Unlinked?
    ensures !Owes(n, x)
  {
    assert MoveOf(s, n, out, x);
  }

  lemma OwnStepNever(s: State, step: Step, x: nat)
    requires Inv(s) && Enabled(s, step) && x < |s.ents| && !Owes(s, x) && OwnStep(step, x)
    ensures x < |Next(s, step).ents| && !Owes(Next(s, step), x)
  {
    assert ChainOk(s, x);
  }

  lemma StillNever(s: State, step: Step, x: nat)
    requires Inv(s) && Enabled(s, step) && x < |s.ents| <= |Next(s, step).ents| && !Owes(s, x)
    requires Next(s, step).ents[x].pc == s.ents[x].pc && Next(s, step).ents[x].chain == s.ents[x].chain
    ensures !Owes(Next(s, step), x)
  {
    var e := s.ents[x];
    if e.pc.Between? && 0 < e.pc.sent < |e.chain| && Intact(Next(s, step), e.chain[e.pc.sent - 1]) {
      F.LoggedLink(s, x, e.pc.sent - 1);
      IntactWas(s, step, e.chain[e.pc.sent - 1]);
    }
  }

  // ---- what keeps a reset from being left asleep

  /** A request that the reset waits for leaves workreqs without a reply and without a Tflush on it. */
  ghost predicate Silent(s: State, step: Step, r: Resetter)
    requires Engine.Resets(s, r)
  {
    step.Unlink? && step.id < |s.ents| && s.ents[step.id].pc == Responding(false) && s.ents[step.id].chain == []
    && Awaits(s, r, step.id)
  }

  /** Another reset of the connection ends. */
  ghost predicate Lowers(s: State, step: Step, r: Resetter)
    requires Engine.Resets(s, r)
  {
    step.Clear? && step.who != r && Engine.Resets(s, step.who) && ConnOf(s, step.who) == ConnOf(s, r)
  }

  /** The steps that can leave a reset asleep. */
  ghost predicate Mutes(s: State, step: Step, r: Resetter)
    requires Engine.Resets(s, r)
  {
    || Silent(s, step, r) || Lowers(s, step, r)
    || exists x :: 0 <= x < |s.ents| && s.ents[x].req.conn == ConnOf(s, r) && Robs(s, step, x)
  }

  /** The flag is up until the reset ends; and if it sleeps though it could go on, np_conn_respond is still to be called
      on its connection, which then wakes it. */
  ghost predicate Attended(w: Watch, r: Resetter) {
    && Within(w.s) && Engine.Resets(w.s, r)
    && (Busy(w.s, r) ==> ConnOf(w.s, r) in w.s.resetting)
    && (r in w.asleep && Quiet(w.s, r) ==> SomeOwes(w.s, ConnOf(w.s, r)))
  }

  lemma LeavesWork(s: State, step: Step, y: nat)
    requires Inv(s) && Enabled(s, step) && y in s.work && y !in Next(s, step).work
    ensures step.Unlink? && step.id < |s.ents| && (y == step.id || y in s.ents[step.id].chain)
  {
    if step.Unlink? { WithoutMembers(s.work, Together(s, step.id)); }
  }

  lemma Quietens(s: State, step: Step, r: Resetter)
    requires Inv(s) && Enabled(s, step) && Engine.Resets(s, r) && Engine.Resets(Next(s, step), r) && Inv(Next(s, step))
    requires !Quiet(s, r) && Quiet(Next(s, step), r) && !Silent(s, step, r)
    requires forall t :: 0 <= t < |s.ents| ==> F.SameConn(s, t)
    ensures SomeOwes(Next(s, step), ConnOf(s, r))
  {
    var y :| y in s.work && Awaits(s, r, y);
    StillAwaits(s, step, r, y);
    LeavesWork(s, step, y);
    assert F.SameConn(s, step.id);
    UnlinkOwes(s, step.id, y);
  }

  lemma StillAwaits(s: State, step: Step, r: Resetter, y: nat)
    requires Inv(s) && Enabled(s, step) && Engine.Resets(s, r) && y < |s.ents|
    ensures y < |Next(s, step).ents| && (r.ByVersion? ==> r.id < |Next(s, step).ents|)
    ensures Awaits(Next(s, step), r, y) <==> Awaits(s, r, y)
  {
    StepMoves(s, step);
  }

  lemma UnlinkOwes(s: State, id: nat, y: nat)
    requires Inv(s) && Enabled(s, Unlink(id)) && F.SameConn(s, id) && (y == id || y in s.ents[id].chain) && y < |s.ents|
    requires s.ents[id].pc.reply || s.ents[id].chain != []
    ensures var n := Next(s, Unlink(id)); id < |n.ents| && n.ents[id].req.conn == s.ents[y].req.conn && Owes(n, id)
  {
    assert ChainOk(s, id);
  }

  lemma FlagStays(s: State, step: Step, r: Resetter)
    requires Inv(s) && Enabled(s, step) && Engine.Resets(s, r) && !Lowers(s, step, r)
    requires Busy(s, r) ==> ConnOf(s, r) in s.resetting
    ensures var n := Next(s, step);
      && Engine.Resets(n, r) && ConnOf(n, r) == ConnOf(s, r) && (Busy(n, r) ==> ConnOf(n, r) in n.resetting)
  {
    StepMoves(s, step);
  }

  lemma AttendedStep(w: Watch, act: Act, r: Resetter)
    requires Sound(w) && Can(w, act) && Attended(w, r) && (act.Do? ==> !Mutes(w.s, act.step, r))
    ensures Attended(Afterwards(w, act), r)
  {
    SoundStep(w, act);
    if act.Do? {
      FlagStays(w.s, act.step, r);
      var n := Afterwards(w, act);
      if r in n.asleep && Quiet(n.s, r) {
        if Quiet(w.s, r) { DueStays(w, act.step, r); } else { Quietens(w.s, act.step, r); }
      }
    }
  }

  lemma DueStays(w: Watch, step: Step, r: Resetter)
    requires Sound(w) && Can(w, Do(step)) && Engine.Resets(w.s, r) && !Mutes(w.s, step, r)
    requires ConnOf(w.s, r) in w.s.resetting && SomeOwes(w.s, ConnOf(w.s, r)) && !Wakes(w.s, step, r)
    ensures SomeOwes(Next(w.s, step), ConnOf(w.s, r))
  {
    var x :| 0 <= x < |w.s.ents| && w.s.ents[x].req.conn == ConnOf(w.s, r) && Owes(w.s, x);
    assert F.SameConn(w.s, x);
    OwesStays(w.s, step, x);
  }

  /** No step of the run can leave the reset asleep. */
  ghost predicate Unmuted(w: Watch, acts: seq<Act>, r: Resetter)
    decreases |acts|
  {
    acts == [] || (Can(w, acts[0]) && Engine.Resets(w.s, r) && (acts[0].Do? ==> !Mutes(w.s, acts[0].step, r))
                   && Unmuted(Afterwards(w, acts[0]), acts[1..], r))
  }

  lemma {:induction false} AttendedRun(w: Watch, acts: seq<Act>, r: Resetter)
    requires Sound(w) && Attended(w, r) && Run(w, acts).Some? && Unmuted(w, acts, r)
    ensures Attended(Run(w, acts).value, r)
    decreases |acts|
  {
    if acts != [] {
      AttendedStep(w, acts[0], r);
      SoundStep(w, acts[0]);
      AttendedRun(Afterwards(w, acts[0]), acts[1..], r);
    }
  }

  /** A reset is never left asleep: whenever it sleeps though nothing is left to wait for, the flag is up and a call of
      np_conn_respond is due on its connection. For that, since it began, no request it waited for may have ended
      without reply and Tflush, no other reset of the connection have ended, and no loop over the connection's Tflushes
      have lost its way. */
  lemma {:induction false} NeverLeftAsleep(w: Watch, r: Resetter, acts: seq<Act>)
    requires Reached(w) && Can(w, Do(Mark(r))) && Run(Afterwards(w, Do(Mark(r))), acts).Some?
    requires Unmuted(Afterwards(w, Do(Mark(r))), acts, r)
    ensures var n := Run(Afterwards(w, Do(Mark(r))), acts).value;
      && Within(n.s) && Engine.Resets(n.s, r)
      && (r in n.asleep && Quiet(n.s, r) ==> ConnOf(n.s, r) in n.s.resetting && SomeOwes(n.s, ConnOf(n.s, r)))
  {
    ReachedSound(w);
    var m := Afterwards(w, Do(Mark(r)));
    SoundStep(w, Do(Mark(r)));
    AttendedRun(m, acts, r);
    SoundRun(m, acts);
  }

  // ---- what leaves one asleep for ever

  /** The request is queued or working. */
  ghost predicate Listed(s: State, x: nat, conn: nat) {
    x < |s.ents| && s.ents[x].req.conn == conn && (x in s.queue || x in s.work)
  }

  /** It will end without a reply, and no Tflush hangs on it. */
  predicate Mute(s: State, x: nat)
    requires x < |s.ents|
  {
    s.ents[x].pc == Responding(false) && s.ents[x].chain == []
  }

  /** A Tversion that has not reset its connection yet. */
  ghost predicate Fresh(s: State, v: nat, conn: nat) {
    && v < |s.ents| && s.ents[v].req.conn == conn && s.ents[v].req.kind.Version? && ByVersion(v) !in s.resets
    && (s.ents[v].pc.Queued? || s.ents[v].pc.Handling?)
  }

  ghost predicate Idle(w: Watch, x: nat)
    requires x < |w.s.ents|
  {
    ByVersion(x) in w.asleep || Mute(w.s, x)
  }

  /** The Tversion is in its own reset. */
  ghost predicate Resetting(s: State, x: nat)
    requires x < |s.ents|
  {
    s.ents[x].pc.Handling? && Busy(s, ByVersion(x))
  }

  /** The reader is there, the flag up, and all else of the connection asleep or about to end in silence. */
  ghost predicate StuckReading(w: Watch, c: nat) {
    && c in w.s.resetting && ByReader(c) !in w.s.resets && !SomeOwes(w.s, c)
    && forall x: nat :: Listed(w.s, x, c) ==> Idle(w, x)
  }

  /** The reader has left, and the flag is up until the first Tversion ends its reset. */
  ghost predicate StuckRaised(s: State, c: nat) {
    && c in s.resetting && ByReader(c) in s.resets && !SomeOwes(s, c)
    && forall x: nat :: Listed(s, x, c) ==> Resetting(s, x) || Mute(s, x)
  }

  /** The reader has left, the flag is down, and nobody raises it any more. */
  ghost predicate StuckLowered(s: State, c: nat) {
    c !in s.resetting && ByReader(c) in s.resets && forall v: nat :: !Fresh(s, v, c)
  }

  /** The reader has left, and one Tversion can raise the flag, but there is nothing else to respond to. */
  ghost predicate StuckWithOne(w: Watch, c: nat, v: nat) {
    && c !in w.s.resetting && ByReader(c) in w.s.resets && !SomeOwes(w.s, c)
    && Fresh(w.s, v, c) && forall x: nat :: Listed(w.s, x, c) && x != v ==> Idle(w, x)
  }

  ghost predicate Stuck(w: Watch, c: nat) {
    StuckReading(w, c) || StuckRaised(w.s, c) || StuckLowered(w.s, c) || exists v: nat :: StuckWithOne(w, c, v)
  }

  /** A step that calls np_conn_respond belongs to a due call, or sweeps a queued request. */
  lemma RespondsFor(w: Watch, step: Step, c: nat)
    requires Sound(w) && Can(w, Do(step)) && Responds(w.s, step) == Some(c)
    ensures SomeOwes(w.s, c) || exists x :: x in w.s.queue && Listed(w.s, x, c)
  {
    match step {
      case WriteReply(id) => assert Owes(w.s, id);
      case WriteRflush(id) =>
        assert F.SameConn(w.s, id);
        AnswerResponds(w.s, id);
        assert Owes(w.s, id);
      case Sweep(r) =>
        var x :| x in w.s.queue && w.s.ents[x].req.conn == ConnOf(w.s, r);
        assert Listed(w.s, x, c);
    }
  }

  /** What is listed was listed, unless the reader has just added it. */
  lemma WasListed(s: State, step: Step, x: nat, c: nat)
    requires Inv(s) && Enabled(s, step) && Listed(Next(s, step), x, c) && (c in s.resetting || ByReader(c) in s.resets)
    ensures Listed(s, x, c)
  {
    var n := Next(s, step);
    StepMoves(s, step);
    StepMovesQueue(s, step);
    R.StepMovesResets(s, step);
    if x in n.work { CameFrom(s, step, x); }
  }

  lemma CameFrom(s: State, step: Step, x: nat)
    requires Inv(s) && Enabled(s, step) && x in Next(s, step).work
    ensures x in s.work || x in s.queue
  {
    if step.Unlink? { WithoutMembers(s.work, Together(s, step.id)); }
    if step.Take? { assert s.queue[0] in s.queue; }
  }

  /** Neither in its handler nor about to end in silence does a request owe a call after the next step. */
  lemma ListedOwes(s: State, step: Step, x: nat)
    requires Inv(s) && Enabled(s, step) && x < |s.ents|
    requires s.ents[x].pc.Queued? || s.ents[x].pc.Handling? || Mute(s, x)
    ensures x < |Next(s, step).ents| && !Owes(Next(s, step), x)
  {
    StepMoves(s, step);
    if Next(s, step).ents[x].pc.Unlinked? {
      EarlyMoves(s, Next(s, step), Out(s, step), x);
      UnlinkedBy(s, step, x);
    } else {
      EarlyMoves(s, Next(s, step), Out(s, step), x);
    }
  }

  lemma EarlyMoves(s: State, n: State, out: seq<Event>, x: nat)
    requires AllMove(s, n, out) && x < |s.ents| && (s.ents[x].pc.Queued? || s.ents[x].pc.Handling? || Mute(s, x))
    ensures n.ents[x].pc.Unlinked? ==> Mute(s, x) && !n.ents[x].pc.reply
    ensures !Behind(n.ents[x].pc)
  {
    assert MoveOf(s, n, out, x);
  }

  lemma UnlinkedBy(s: State, step: Step, x: nat)
    requires Inv(s) && Enabled(s, step) && x < |s.ents| <= |Next(s, step).ents|
    requires Mute(s, x) && Next(s, step).ents[x].pc.Unlinked?
    ensures Next(s, step).ents[x].chain == []
  {
  }

  lemma NobodyOwes(s: State, step: Step, c: nat)
    requires Inv(s) && Enabled(s, step) && !SomeOwes(s, c)
    requires forall x: nat :: Listed(s, x, c) ==> s.ents[x].pc.Queued? || s.ents[x].pc.Handling? || Mute(s, x)
    ensures !SomeOwes(Next(s, step), c)
  {
    var n := Next(s, step);
    StepMoves(s, step);
    forall x | 0 <= x < |n.ents| && n.ents[x].req.conn == c ensures !Owes(n, x) {
      if x < |s.ents| {
        if PlaceOf(s.ents[x].pc).Finished? {
          assert !Owes(s, x);
          OwesNever(s, step, x);
        } else {
          assert Listed(s, x, c);
          ListedOwes(s, step, x);
        }
      }
    }
  }

  /** No Tflush of the connection is in its handler. */
  ghost predicate NoFlushes(s: State, c: nat) {
    forall f: nat :: Listed(s, f, c) ==> !(s.ents[f].pc.Handling? && s.ents[f].req.kind.Flush?)
  }

  lemma MuteStays(s: State, step: Step, x: nat, c: nat)
    requires Inv(s) && Enabled(s, step) && NoFlushes(s, c) && Listed(s, x, c) && Mute(s, x)
    requires Listed(Next(s, step), x, c) && Inv(Next(s, step))
    ensures Mute(Next(s, step), x)
  {
    StepMoves(s, step);
    MuteMoves(s, Next(s, step), Out(s, step), x);
    MuteChain(s, step, x, c);
  }

  lemma MuteMoves(s: State, n: State, out: seq<Event>, x: nat)
    requires AllMove(s, n, out) && Lists(n) && x < |s.ents| && Mute(s, x) && (x in n.queue || x in n.work)
    ensures n.ents[x].pc == s.ents[x].pc
  {
    assert MoveOf(s, n, out, x);
  }

  lemma MuteChain(s: State, step: Step, x: nat, c: nat)
    requires Inv(s) && Enabled(s, step) && NoFlushes(s, c) && Listed(s, x, c) && Mute(s, x)
    ensures x < |Next(s, step).ents| && Next(s, step).ents[x].chain == []
  {
    if F.Hangs(s, step) {
      F.HungOn(s, step.id, WorkingTarget(s, step.id).value);
      assert step.id in s.work;
    } else {
      F.StepLeads(s, step);
    }
  }

  lemma SleeperHandles(w: Watch, x: nat)
    requires Sound(w) && ByVersion(x) in w.asleep
    ensures x < |w.s.ents| && w.s.ents[x].pc.Handling? && w.s.ents[x].req.kind.Version? && Busy(w.s, ByVersion(x))
  {
    assert Sleeps(w.s, ByVersion(x)) && ResetOk(w.s, ByVersion(x));
  }

  lemma ResettingHandles(s: State, x: nat)
    requires Inv(s) && x < |s.ents| && Resetting(s, x)
    ensures s.ents[x].req.kind.Version?
  {
    assert ResetOk(s, ByVersion(x));
  }

  lemma IdleIs(w: Watch, x: nat)
    requires Sound(w) && x < |w.s.ents| && Idle(w, x)
    ensures Resetting(w.s, x) || Mute(w.s, x)
  {
    if ByVersion(x) in w.asleep { SleeperHandles(w, x); }
  }

  /** What all the requests of the connection are that leave nobody to respond. */
  ghost predicate AllQuiet(s: State, c: nat) {
    forall x: nat :: Listed(s, x, c) ==> Resetting(s, x) || Mute(s, x)
  }

  lemma QuietMeans(s: State, c: nat)
    requires Inv(s) && AllQuiet(s, c)
    ensures NoFlushes(s, c) && NoneQueued(s, c)
    ensures forall x: nat :: Listed(s, x, c) ==> s.ents[x].pc.Queued? || s.ents[x].pc.Handling? || Mute(s, x)
  {
    forall x: nat | Listed(s, x, c) ensures !(s.ents[x].pc.Handling? && s.ents[x].req.kind.Flush?) {
      if Resetting(s, x) { ResettingHandles(s, x); }
    }
    forall x | x in s.queue ensures s.ents[x].req.conn != c { assert Listed(s, x, c) || s.ents[x].req.conn != c; }
  }

  lemma ResettingStays(s: State, step: Step, x: nat)
    requires Inv(s) && Enabled(s, step) && x < |s.ents| && Resetting(s, x)
    ensures x < |Next(s, step).ents|
    ensures Resetting(Next(s, step), x) || step == Clear(ByVersion(x))
  {
    StepMoves(s, step);
    ResettingHandles(s, x);
    VersionStays(s, step, x);
  }

  /** While the flag is up, only the end of a reset changes this. */
  lemma AllQuietStays(s: State, step: Step, c: nat)
    requires Inv(s) && Enabled(s, step) && AllQuiet(s, c) && Inv(Next(s, step)) && c in s.resetting
    requires forall x: nat :: Listed(s, x, c) ==> step != Clear(ByVersion(x))
    ensures AllQuiet(Next(s, step), c)
  {
    QuietMeans(s, c);
    forall x: nat | Listed(Next(s, step), x, c) ensures Resetting(Next(s, step), x) || Mute(Next(s, step), x) {
      WasListed(s, step, x, c);
      if Resetting(s, x) { ResettingStays(s, step, x); } else { MuteStays(s, step, x, c); }
    }
  }

  lemma FreshWas(s: State, step: Step, v: nat, c: nat)
    requires Inv(s) && Enabled(s, step) && Fresh(Next(s, step), v, c) && (c in s.resetting || ByReader(c) in s.resets)
    ensures Fresh(s, v, c)
  {
    StepMoves(s, step);
    R.StepMovesResets(s, step);
    FreshMoves(s, Next(s, step), step, v, c);
  }

  lemma FreshMoves(s: State, n: State, step: Step, v: nat, c: nat)
    requires AllMove(s, n, Out(s, step)) && R.ResetsMove(s, n, step) && Fresh(n, v, c)
    requires c in s.resetting || ByReader(c) in s.resets
    ensures Fresh(s, v, c)
  {
    assert v >= |s.ents| ==> Admitted(s, n, v);
    if v < |s.ents| { assert MoveOf(s, n, Out(s, step), v); }
  }

  lemma QuietNotFresh(s: State, step: Step, v: nat, c: nat)
    requires Inv(s) && Enabled(s, step) && AllQuiet(s, c) && (c in s.resetting || ByReader(c) in s.resets)
    ensures !Fresh(Next(s, step), v, c)
  {
    if Fresh(Next(s, step), v, c) {
      FreshWas(s, step, v, c);
      assert Listed(s, v, c);
    }
  }

  lemma FlagLowered(s: State, step: Step, c: nat)
    requires Lists(s) && Chains(s) && Enabled(s, step) && c in s.resetting && c !in Next(s, step).resetting
    ensures step.Clear? && Engine.Resets(s, step.who) && ConnOf(s, step.who) == c && s.resets[step.who].Passed?
  {
    R.StepMovesResets(s, step);
  }

  lemma RaisedGoesOn(s: State, step: Step, c: nat)
    requires Inv(s) && Enabled(s, step) && StuckRaised(s, c) && Inv(Next(s, step))
    ensures StuckRaised(Next(s, step), c) || StuckLowered(Next(s, step), c)
  {
    var n := Next(s, step);
    R.StepMovesResets(s, step);
    if c !in n.resetting {
      forall v: nat ensures !Fresh(n, v, c) { QuietNotFresh(s, step, v, c); }
    } else {
      QuietMeans(s, c);
      NobodyOwes(s, step, c);
      AllQuietStays(s, step, c);
    }
  }

  lemma LoweredGoesOn(s: State, step: Step, c: nat)
    requires Inv(s) && Enabled(s, step) && StuckLowered(s, c)
    ensures StuckLowered(Next(s, step), c)
  {
    var n := Next(s, step);
    R.StepMovesResets(s, step);
    forall v: nat ensures !Fresh(n, v, c) {
      if Fresh(n, v, c) { FreshWas(s, step, v, c); }
    }
    if c in n.resetting { assert Fresh(s, step.who.id, c); }
  }

  lemma NobodyWakes(w: Watch, step: Step, c: nat)
    requires Sound(w) && Can(w, Do(step)) && (c in w.s.resetting ==> !SomeOwes(w.s, c) && NoneQueued(w.s, c))
    ensures forall r :: r in w.asleep && ConnOf(w.s, r) == c ==> r in Afterwards(w, Do(step)).asleep
  {
    if c in w.s.resetting && Responds(w.s, step) == Some(c) { RespondsFor(w, step, c); }
  }

  lemma IdleStays(w: Watch, step: Step, x: nat, c: nat)
    requires Sound(w) && Can(w, Do(step)) && Inv(Next(w.s, step)) && NoFlushes(w.s, c)
    requires (c in w.s.resetting ==> !SomeOwes(w.s, c) && NoneQueued(w.s, c))
    requires Listed(w.s, x, c) && Idle(w, x) && Listed(Next(w.s, step), x, c)
    ensures Idle(Afterwards(w, Do(step)), x)
  {
    NobodyWakes(w, step, c);
    if ByVersion(x) !in w.asleep { MuteStays(w.s, step, x, c); }
  }

  lemma IdleQuiet(w: Watch, c: nat)
    requires Sound(w) && forall x: nat :: Listed(w.s, x, c) ==> Idle(w, x)
    ensures AllQuiet(w.s, c)
  {
    forall x: nat | Listed(w.s, x, c) ensures Resetting(w.s, x) || Mute(w.s, x) { IdleIs(w, x); }
  }

  lemma ReadingGoesOn(w: Watch, step: Step, c: nat)
    requires Sound(w) && Can(w, Do(step)) && StuckReading(w, c) && Sound(Afterwards(w, Do(step)))
    ensures var m := Afterwards(w, Do(step)); StuckReading(m, c) || StuckRaised(m.s, c)
  {
    var m := Afterwards(w, Do(step));
    IdleQuiet(w, c);
    QuietMeans(w.s, c);
    NobodyOwes(w.s, step, c);
    forall x: nat | Listed(m.s, x, c) ensures Idle(m, x) {
      WasListed(w.s, step, x, c);
      IdleStays(w, step, x, c);
    }
    IdleQuiet(m, c);
    if c !in m.s.resetting { NobodyLowers(w, step, c); }
  }

  lemma NobodyLowers(w: Watch, step: Step, c: nat)
    requires Sound(w) && Can(w, Do(step)) && StuckReading(w, c)
    ensures c in Next(w.s, step).resetting
  {
    if c !in Next(w.s, step).resetting {
      FlagLowered(w.s, step, c);
      assert ResetOk(w.s, step.who) && Listed(w.s, step.who.id, c);
    }
  }

  lemma WithOneGoesOn(w: Watch, step: Step, c: nat, v: nat)
    requires Sound(w) && Can(w, Do(step)) && StuckWithOne(w, c, v) && Sound(Afterwards(w, Do(step)))
    ensures var m := Afterwards(w, Do(step)); StuckRaised(m.s, c) || StuckLowered(m.s, c) || StuckWithOne(m, c, v)
  {
    var m := Afterwards(w, Do(step));
    OthersIdle(w, c, v);
    NobodyOwes(w.s, step, c);
    R.StepMovesResets(w.s, step);
    forall x: nat | Listed(m.s, x, c) && x != v ensures Idle(m, x) {
      WasListed(w.s, step, x, c);
      IdleStays(w, step, x, c);
    }
    if c in m.s.resetting {
      OneRaises(w, step, c, v);
      forall x: nat | Listed(m.s, x, c) ensures Resetting(m.s, x) || Mute(m.s, x) { if x != v { IdleIs(m, x); } }
    } else if !Fresh(m.s, v, c) {
      forall u: nat ensures !Fresh(m.s, u, c) { OneFresh(w, step, c, v, u); }
    }
  }

  lemma OthersIdle(w: Watch, c: nat, v: nat)
    requires Sound(w) && StuckWithOne(w, c, v)
    ensures NoFlushes(w.s, c)
    ensures forall x: nat :: Listed(w.s, x, c) ==>
      w.s.ents[x].pc.Queued? || w.s.ents[x].pc.Handling? || Mute(w.s, x)
  {
    forall x: nat | Listed(w.s, x, c) && x != v ensures Resetting(w.s, x) || Mute(w.s, x) { IdleIs(w, x); }
    forall x: nat | Listed(w.s, x, c) && Resetting(w.s, x) ensures w.s.ents[x].req.kind.Version? {
      ResettingHandles(w.s, x);
    }
  }

  lemma OneRaises(w: Watch, step: Step, c: nat, v: nat)
    requires Sound(w) && Can(w, Do(step)) && StuckWithOne(w, c, v) && c in Next(w.s, step).resetting
    ensures step == Mark(ByVersion(v)) && v < |Next(w.s, step).ents| && Resetting(Next(w.s, step), v)
  {
    assert step.Mark? && step.who.ByVersion? && ConnOf(w.s, step.who) == c ==> Listed(w.s, step.who.id, c);
  }

  lemma OneFresh(w: Watch, step: Step, c: nat, v: nat, u: nat)
    requires Sound(w) && Can(w, Do(step)) && StuckWithOne(w, c, v) && !Fresh(Next(w.s, step), v, c)
    ensures !Fresh(Next(w.s, step), u, c)
  {
    if Fresh(Next(w.s, step), u, c) {
      FreshWas(w.s, step, u, c);
      assert Listed(w.s, u, c);
    }
  }

  lemma StuckStep(w: Watch, act: Act, c: nat)
    requires Sound(w) && Can(w, act) && Stuck(w, c)
    ensures Sound(Afterwards(w, act)) && Stuck(Afterwards(w, act), c)
  {
    SoundStep(w, act);
    if act.Do? {
      StuckGoesOn(w, act.step, c);
    } else if v: nat :| StuckWithOne(w, c, v) {
      assert StuckWithOne(Afterwards(w, act), c, v);
    }
  }

  lemma StuckGoesOn(w: Watch, step: Step, c: nat)
    requires Sound(w) && Can(w, Do(step)) && Stuck(w, c) && Sound(Afterwards(w, Do(step)))
    ensures Stuck(Afterwards(w, Do(step)), c)
  {
    if StuckReading(w, c) {
      ReadingGoesOn(w, step, c);
    } else if StuckRaised(w.s, c) {
      RaisedGoesOn(w.s, step, c);
    } else if StuckLowered(w.s, c) {
      LoweredGoesOn(w.s, step, c);
    } else {
      var v: nat :| StuckWithOne(w, c, v);
      WithOneGoesOn(w, step, c, v);
    }
  }

  lemma StuckSleeps(w: Watch, act: Act, r: Resetter)
    requires Sound(w) && Can(w, act) && r in w.asleep && Stuck(w, ConnOf(w.s, r))
    ensures r in Afterwards(w, act).asleep && Engine.Resets(Afterwards(w, act).s, r)
    ensures ConnOf(Afterwards(w, act).s, r) == ConnOf(w.s, r)
  {
    if act.Do? {
      SleepsOn(w, act.step, r);
      if ConnOf(w.s, r) in w.s.resetting { StuckIsQuiet(w, ConnOf(w.s, r)); }
      NobodyWakes(w, act.step, ConnOf(w.s, r));
    }
  }

  lemma StuckIsQuiet(w: Watch, c: nat)
    requires Sound(w) && Stuck(w, c) && c in w.s.resetting
    ensures !SomeOwes(w.s, c) && NoneQueued(w.s, c)
  {
    if StuckReading(w, c) { IdleQuiet(w, c); }
    QuietMeans(w.s, c);
  }

  lemma {:induction false} StuckRun(w: Watch, acts: seq<Act>, r: Resetter)
    requires Sound(w) && r in w.asleep && Stuck(w, ConnOf(w.s, r)) && Run(w, acts).Some?
    ensures r in Run(w, acts).value.asleep
    decreases |acts|
  {
    if acts != [] {
      StuckStep(w, acts[0], ConnOf(w.s, r));
      StuckSleeps(w, acts[0], r);
      StuckRun(Afterwards(w, acts[0]), acts[1..], r);
    }
  }

  // ---- and how one is woken

  /** Some run wakes the reset. */
  ghost predicate CanWake(w: Watch, r: Resetter) {
    exists acts :: Run(w, acts).Some? && r !in Run(w, acts).value.asleep
  }

  lemma AwakeNow(w: Watch, r: Resetter)
    requires r !in w.asleep
    ensures CanWake(w, r)
  {
    var acts: seq<Act> := [];
    assert Run(w, acts) == Some(w);
  }

  lemma ThenWakes(w: Watch, act: Act, r: Resetter)
    requires Can(w, act) && CanWake(Afterwards(w, act), r)
    ensures CanWake(w, r)
  {
    var rest :| Run(Afterwards(w, act), rest).Some? && r !in Run(Afterwards(w, act), rest).value.asleep;
    var acts := [act] + rest;
    assert acts[1..] == rest && Run(w, acts) == Run(Afterwards(w, act), rest);
  }

  ghost predicate Asleep(w: Watch, r: Resetter, c: nat) { Sound(w) && r in w.asleep && ConnOf(w.s, r) == c }

  /** Some step on the way: it wakes the reset, or leaves it asleep. */
  lemma Goes(w: Watch, step: Step, r: Resetter, c: nat)
    requires Asleep(w, r, c) && Can(w, Do(step))
    ensures var m := Afterwards(w, Do(step));
      && Sound(m) && (if r in m.asleep then Asleep(m, r, c) else CanWake(w, r)) && m.asleep <= w.asleep
    ensures Wakes(w.s, step, r) ==> CanWake(w, r)
  {
    SoundStep(w, Do(step));
    SleepsOn(w, step, r);
    if r !in Afterwards(w, Do(step)).asleep {
      AwakeNow(Afterwards(w, Do(step)), r);
      ThenWakes(w, Do(step), r);
    }
  }

  function TurnsLeft(pc: Pc): nat { if pc.Unlinked? then 3 else if pc.Between? then 2 else 1 }

  /** The thread that responds to x goes on to its next call of np_conn_respond. */
  lemma {:induction false} DueWakes(w: Watch, r: Resetter, c: nat, x: nat)
    requires Asleep(w, r, c) && c in w.s.resetting && x < |w.s.ents| && w.s.ents[x].req.conn == c && Owes(w.s, x)
    ensures CanWake(w, r)
    decreases TurnsLeft(w.s.ents[x].pc)
  {
    var step := F.LoopStep(w.s.ents[x].pc, x);
    CanGoOn(w, x);
    Goes(w, step, r, c);
    if !Wakes(w.s, step, r) {
      GoesOn(w.s, x);
      DueWakes(Afterwards(w, Do(step)), r, c, x);
      ThenWakes(w, Do(step), r);
    }
  }

  lemma CanGoOn(w: Watch, x: nat)
    requires Sound(w) && x < |w.s.ents| && Owes(w.s, x)
    ensures Can(w, Do(F.LoopStep(w.s.ents[x].pc, x)))
  {
    var pc := w.s.ents[x].pc;
    if pc.Flushing? { F.LoggedLink(w.s, x, pc.sent); }
    if pc.Between? { F.LoggedLink(w.s, x, pc.sent - 1); }
  }

  lemma GoesOn(s: State, x: nat)
    requires Inv(s) && x < |s.ents| && F.SameConn(s, x) && Owes(s, x) && Enabled(s, F.LoopStep(s.ents[x].pc, x))
    requires Responds(s, F.LoopStep(s.ents[x].pc, x)) != Some(s.ents[x].req.conn)
    ensures var n := Next(s, F.LoopStep(s.ents[x].pc, x));
      && x < |n.ents| && n.ents[x].req == s.ents[x].req && Owes(n, x) && n.resetting == s.resetting
      && TurnsLeft(n.ents[x].pc) < TurnsLeft(s.ents[x].pc)
  {
    var step := F.LoopStep(s.ents[x].pc, x);
    OwnStepOwes(s, step, x);
    if step.WriteRflush? { AnswerResponds(s, x); }
  }

  lemma EndingWakes(w: Watch, r: Resetter, c: nat, x: nat)
    requires Asleep(w, r, c) && c in w.s.resetting && x < |w.s.ents| && w.s.ents[x].req.conn == c
    requires w.s.ents[x].pc == Responding(true)
    ensures CanWake(w, r)
  {
    Goes(w, Unlink(x), r, c);
    assert F.SameConn(w.s, x);
    UnlinkOwes(w.s, x, x);
    DueWakes(Afterwards(w, Do(Unlink(x))), r, c, x);
    ThenWakes(w, Do(Unlink(x)), r);
  }

  lemma HandlingWakes(w: Watch, r: Resetter, c: nat, x: nat)
    requires Asleep(w, r, c) && c in w.s.resetting && x < |w.s.ents| && w.s.ents[x].req.conn == c
    requires w.s.ents[x].pc.Handling? && !w.s.ents[x].req.kind.Flush? && !Busy(w.s, ByVersion(x))
    ensures CanWake(w, r)
  {
    Goes(w, Respond(x, true), r, c);
    EndingWakes(Afterwards(w, Do(Respond(x, true))), r, c, x);
    ThenWakes(w, Do(Respond(x, true)), r);
  }

  lemma SweepWakes(w: Watch, r: Resetter, c: nat, q: Resetter, x: nat)
    requires Asleep(w, r, c) && c in w.s.resetting && x in w.s.queue && w.s.ents[x].req.conn == c
    requires Engine.Resets(w.s, q) && ConnOf(w.s, q) == c && w.s.resets[q].Marked?
    ensures CanWake(w, r)
  {
    Goes(w, Sweep(q), r, c);
  }

  lemma MarkSweepWakes(w: Watch, r: Resetter, c: nat, q: Resetter, x: nat)
    requires Asleep(w, r, c) && x in w.s.queue && w.s.ents[x].req.conn == c
    requires Enabled(w.s, Mark(q)) && ConnOf(w.s, q) == c
    ensures CanWake(w, r)
  {
    Goes(w, Mark(q), r, c);
    SweepWakes(Afterwards(w, Do(Mark(q))), r, c, q, x);
    ThenWakes(w, Do(Mark(q)), r);
  }

  /** With the flag down, the reader lets one more request in, and leaves. */
  lemma ReaderWakes(w: Watch, r: Resetter, c: nat)
    requires Asleep(w, r, c) && c !in w.s.resetting && ByReader(c) !in w.s.resets
    ensures CanWake(w, r)
  {
    var step := Add(Req(c, 0, Other), |w.s.owner|);
    Goes(w, step, r, c);
    assert Next(w.s, step).queue[|w.s.queue|] == |w.s.ents|;
    MarkSweepWakes(Afterwards(w, Do(step)), r, c, ByReader(c), |w.s.ents|);
    ThenWakes(w, Do(step), r);
  }

  /** A reset of the connection by Tversion u that is awake and finds nothing to wait for. */
  ghost predicate AwakeReset(w: Watch, c: nat, u: nat) {
    && Within(w.s) && u < |w.s.ents| && w.s.ents[u].req.conn == c && Busy(w.s, ByVersion(u))
    && ByVersion(u) !in w.asleep && Quiet(w.s, ByVersion(u))
  }

  function PhasesLeft(s: State, u: nat): nat {
    if ByVersion(u) !in s.resets then 4
    else match s.resets[ByVersion(u)] case Marked => 3 case Waiting(_) => 2 case Passed(_) => 1 case Closed => 0
  }

  lemma ResetGoesOn(w: Watch, r: Resetter, c: nat, u: nat)
    requires Asleep(w, r, c) && AwakeReset(w, c, u) && NoneQueued(w.s, c)
    ensures Can(w, Do(R.Onward(w.s, u)))
    ensures var m := Afterwards(w, Do(R.Onward(w.s, u)));
      && Asleep(m, r, c) && m.s.ents == w.s.ents && m.s.work == w.s.work && NoneQueued(m.s, c) && m.asleep == w.asleep
      && ByVersion(u) in m.s.resets && m.s.resets == w.s.resets[ByVersion(u) := m.s.resets[ByVersion(u)]]
      && PhasesLeft(m.s, u) < PhasesLeft(w.s, u)
      && (if R.Onward(w.s, u).Clear? then m.s.resetting == w.s.resetting - {c} && m.s.resets[ByVersion(u)].Closed?
          else m.s.resetting == w.s.resetting && AwakeReset(m, c, u))
  {
    var step := R.Onward(w.s, u);
    Goes(w, step, r, c);
    if step.Sweep? {
      assert Swept(w.s, c) == {};
      WithoutMembers(w.s.queue, {});
      assert Next(w.s, step).ents == w.s.ents;
    }
  }

  lemma {:induction false} BusyWakes(w: Watch, r: Resetter, c: nat, u: nat)
    requires Asleep(w, r, c) && AwakeReset(w, c, u) && ByReader(c) !in w.s.resets
    ensures CanWake(w, r)
    decreases PhasesLeft(w.s, u)
  {
    if c !in w.s.resetting {
      ReaderWakes(w, r, c);
    } else if x :| x in w.s.queue && w.s.ents[x].req.conn == c {
      MarkSweepWakes(w, r, c, ByReader(c), x);
    } else {
      ResetGoesOn(w, r, c, u);
      var m := Afterwards(w, Do(R.Onward(w.s, u)));
      if R.Onward(w.s, u).Clear? { ReaderWakes(m, r, c); } else { BusyWakes(m, r, c, u); }
      ThenWakes(w, Do(R.Onward(w.s, u)), r);
    }
  }

  /** A Tversion raises the flag while a call is due. */
  lemma {:induction false} RaisesForDue(w: Watch, r: Resetter, c: nat, v: nat, x: nat)
    requires Asleep(w, r, c) && c !in w.s.resetting && Fresh(w.s, v, c)
    requires x < |w.s.ents| && w.s.ents[x].req.conn == c && Owes(w.s, x)
    ensures CanWake(w, r)
    decreases |w.s.queue|
  {
    var step := if w.s.ents[v].pc.Handling? then Mark(ByVersion(v)) else Take;
    assert w.s.ents[v].pc.Queued? ==> v in w.s.queue;
    Goes(w, step, r, c);
    assert F.SameConn(w.s, x);
    OwesStays(w.s, step, x);
    var m := Afterwards(w, Do(step));
    if step.Mark? {
      DueWakes(m, r, c, x);
    } else {
      TakeKeepsFresh(w.s, v, c);
      RaisesForDue(m, r, c, v, x);
    }
    ThenWakes(w, Do(step), r);
  }

  lemma TakeKeepsFresh(s: State, v: nat, c: nat)
    requires Inv(s) && Enabled(s, Take) && Fresh(s, v, c)
    ensures Fresh(Next(s, Take), v, c) && |Next(s, Take).queue| < |s.queue| && Next(s, Take).resetting == s.resetting
  {
    assert s.queue[0] in s.queue;
  }

  /** The request can still be responded to with a reply, or be swept. */
  ghost predicate Speaks(w: Watch, u: nat)
    requires u < |w.s.ents|
  {
    var pc := w.s.ents[u].pc;
    pc.Queued? || pc == Responding(true) || (pc.Handling? && ByVersion(u) !in w.asleep)
  }

  /** v can raise the flag and u then be responded to. */
  ghost predicate Pair(w: Watch, c: nat, v: nat, u: nat) {
    && Within(w.s) && c !in w.s.resetting && Fresh(w.s, v, c) && u != v && Listed(w.s, u, c) && Speaks(w, u)
    && !w.s.ents[u].req.kind.Flush?
    && (Busy(w.s, ByVersion(u)) ==>
          Quiet(w.s, ByVersion(u)) && forall x :: x in w.s.queue && w.s.ents[x].req.conn == c ==> x == v)
  }

  lemma PairTakes(w: Watch, c: nat, v: nat, u: nat)
    requires Sound(w) && Pair(w, c, v, u) && Can(w, Do(Take)) && Sound(Afterwards(w, Do(Take)))
    ensures Pair(Afterwards(w, Do(Take)), c, v, u) && |Next(w.s, Take).queue| < |w.s.queue|
  {
    TakeKeepsFresh(w.s, v, c);
    TakeKeepsSpeaker(w, c, u);
    if Busy(w.s, ByVersion(u)) { TakeKeepsQuiet(w.s, c, v, u); }
  }

  lemma TakeKeepsSpeaker(w: Watch, c: nat, u: nat)
    requires Sound(w) && Can(w, Do(Take)) && Listed(w.s, u, c) && Speaks(w, u)
    ensures var m := Afterwards(w, Do(Take)); Listed(m.s, u, c) && Speaks(m, u) && m.s.ents[u].req == w.s.ents[u].req
  {
    assert w.s.queue == [w.s.queue[0]] + w.s.queue[1..] && w.s.queue[0] in w.s.queue;
    if ByVersion(u) in w.asleep { SleeperHandles(w, u); }
  }

  lemma TakeKeepsQuiet(s: State, c: nat, v: nat, u: nat)
    requires Inv(s) && Enabled(s, Take) && u < |s.ents| && s.ents[u].req.conn == c && Fresh(s, v, c)
    requires Quiet(s, ByVersion(u)) && forall x :: x in s.queue && s.ents[x].req.conn == c ==> x == v
    requires Within(Next(s, Take))
    ensures var n := Next(s, Take);
      && u < |n.ents| && Quiet(n, ByVersion(u))
      && forall x :: x in n.queue && n.ents[x].req.conn == c ==> x == v
  {
    assert s.queue == [s.queue[0]] + s.queue[1..] && s.queue[0] in s.queue;
  }

  lemma {:induction false} PairWakes(w: Watch, r: Resetter, c: nat, v: nat, u: nat)
    requires Asleep(w, r, c) && Pair(w, c, v, u)
    ensures CanWake(w, r)
    decreases |w.s.queue|
  {
    if w.s.ents[v].pc.Queued? {
      assert v in w.s.queue;
      Goes(w, Take, r, c);
      PairTakes(w, c, v, u);
      PairWakes(Afterwards(w, Do(Take)), r, c, v, u);
      ThenWakes(w, Do(Take), r);
    } else if w.s.ents[u].pc.Queued? {
      MarkSweepWakes(w, r, c, ByVersion(v), u);
    } else {
      RaisesFor(w, r, c, v, u);
    }
  }

  /** The same with both off the queue: u ends its own reset first. */
  lemma {:induction false} RaisesFor(w: Watch, r: Resetter, c: nat, v: nat, u: nat)
    requires Asleep(w, r, c) && Pair(w, c, v, u) && w.s.ents[v].pc.Handling? && !w.s.ents[u].pc.Queued?
    ensures CanWake(w, r)
    decreases PhasesLeft(w.s, u)
  {
    if Busy(w.s, ByVersion(u)) {
      assert v !in w.s.queue;
      ResetGoesOn(w, r, c, u);
      RaisesFor(Afterwards(w, Do(R.Onward(w.s, u))), r, c, v, u);
      ThenWakes(w, Do(R.Onward(w.s, u)), r);
    } else {
      Goes(w, Mark(ByVersion(v)), r, c);
      var m := Afterwards(w, Do(Mark(ByVersion(v))));
      if w.s.ents[u].pc.Handling? { HandlingWakes(m, r, c, u); } else { EndingWakes(m, r, c, u); }
      ThenWakes(w, Do(Mark(ByVersion(v))), r);
    }
  }

  // ---- exactly when one that is left asleep is woken

  /** What it takes to wake a reset of the connection that could go on. With the reader there: a flag that is down, a
      call that is due, or a request that is neither asleep nor about to end in silence. With the reader gone and the
      flag up: the same, but for the Tversions that are in their own resets. With the flag down: a Tversion that can
      raise it, and a call that is due or another such request. */
  ghost predicate Wakeable(w: Watch, c: nat) {
    if ByReader(c) !in w.s.resets then
      c !in w.s.resetting || SomeOwes(w.s, c) || exists u: nat :: Listed(w.s, u, c) && Speaks(w, u)
    else if c in w.s.resetting then
      SomeOwes(w.s, c) || exists u: nat :: Listed(w.s, u, c) && Speaks(w, u) && !Resetting(w.s, u)
    else
      exists v: nat ::
        Fresh(w.s, v, c) && (SomeOwes(w.s, c) || exists u: nat :: Listed(w.s, u, c) && u != v && Speaks(w, u))
  }

  /** Unless the reader has gone with the flag down and a Tflush of the connection queued, which may or may not find
      something to do. */
  ghost predicate Decided(s: State, c: nat)
    requires Within(s)
  {
    c !in s.resetting && ByReader(c) in s.resets ==>
      forall x :: x in s.queue && s.ents[x].req.conn == c ==> !s.ents[x].req.kind.Flush?
  }

  lemma SpeakerIs(w: Watch, r: Resetter, c: nat, u: nat)
    requires Asleep(w, r, c) && Quiet(w.s, r) && Listed(w.s, u, c) && Speaks(w, u)
    ensures u in w.s.queue || (!w.s.ents[u].req.kind.Flush? && Quiet(w.s, ByVersion(u)))
    ensures u in w.s.queue ==> !Busy(w.s, ByVersion(u)) && w.s.ents[u].pc.Queued?
  {
    if Busy(w.s, ByVersion(u)) { assert ResetOk(w.s, ByVersion(u)); }
  }

  lemma SpeakerWakes(w: Watch, r: Resetter, c: nat, u: nat)
    requires Asleep(w, r, c) && Quiet(w.s, r) && c in w.s.resetting && Listed(w.s, u, c) && Speaks(w, u)
    requires ByReader(c) in w.s.resets ==> !Resetting(w.s, u)
    ensures CanWake(w, r)
  {
    SpeakerIs(w, r, c, u);
    if u in w.s.queue {
      if ByReader(c) in w.s.resets {
        assert ResetOk(w.s, ByReader(c));
        SweepWakes(w, r, c, ByReader(c), u);
      } else {
        MarkSweepWakes(w, r, c, ByReader(c), u);
      }
    } else if !w.s.ents[u].pc.Handling? {
      EndingWakes(w, r, c, u);
    } else if !Busy(w.s, ByVersion(u)) {
      HandlingWakes(w, r, c, u);
    } else {
      BusyWakes(w, r, c, u);
    }
  }

  lemma FreshWakes(w: Watch, r: Resetter, c: nat, v: nat)
    requires Asleep(w, r, c) && Quiet(w.s, r) && c !in w.s.resetting && ByReader(c) in w.s.resets && Decided(w.s, c)
    requires Fresh(w.s, v, c)
    requires SomeOwes(w.s, c) || exists u: nat :: Listed(w.s, u, c) && u != v && Speaks(w, u)
    ensures CanWake(w, r)
  {
    if SomeOwes(w.s, c) {
      var x :| 0 <= x < |w.s.ents| && w.s.ents[x].req.conn == c && Owes(w.s, x);
      RaisesForDue(w, r, c, v, x);
    } else {
      var u: nat :| Listed(w.s, u, c) && u != v && Speaks(w, u);
      if x :| x in w.s.queue && w.s.ents[x].req.conn == c && x != v { u := x; }
      SpeakerIs(w, r, c, u);
      PairWakes(w, r, c, v, u);
    }
  }

  lemma WakeableWakes(w: Watch, r: Resetter, c: nat)
    requires Asleep(w, r, c) && Quiet(w.s, r) && Decided(w.s, c) && Wakeable(w, c)
    ensures CanWake(w, r)
  {
    if c !in w.s.resetting {
      if ByReader(c) !in w.s.resets {
        ReaderWakes(w, r, c);
      } else {
        var v: nat :| Fresh(w.s, v, c)
          && (SomeOwes(w.s, c) || exists u: nat :: Listed(w.s, u, c) && u != v && Speaks(w, u));
        FreshWakes(w, r, c, v);
      }
    } else if SomeOwes(w.s, c) {
      var x :| 0 <= x < |w.s.ents| && w.s.ents[x].req.conn == c && Owes(w.s, x);
      DueWakes(w, r, c, x);
    } else {
      var u: nat :| Listed(w.s, u, c) && Speaks(w, u) && (ByReader(c) in w.s.resets ==> !Resetting(w.s, u));
      SpeakerWakes(w, r, c, u);
    }
  }

  lemma DumbIsIdle(w: Watch, r: Resetter, c: nat, x: nat)
    requires Asleep(w, r, c) && Quiet(w.s, r) && Listed(w.s, x, c) && !Speaks(w, x)
    ensures Idle(w, x)
  {
    assert ChainOk(w.s, x) && F.SameConn(w.s, x);
    if w.s.ents[x].chain != [] {
      F.LoggedLink(w.s, x, 0);
      assert w.s.ents[x].chain[0] in w.s.ents[x].chain && ChainOk(w.s, w.s.ents[x].chain[0]);
    }
  }

  lemma UnwakeableStuck(w: Watch, r: Resetter, c: nat)
    requires Asleep(w, r, c) && Quiet(w.s, r) && !Wakeable(w, c)
    ensures Stuck(w, c)
  {
    forall x: nat | Listed(w.s, x, c) && !Speaks(w, x) ensures Idle(w, x) && (Resetting(w.s, x) || Mute(w.s, x)) {
      DumbIsIdle(w, r, c, x);
      IdleIs(w, x);
    }
    if c !in w.s.resetting && ByReader(c) in w.s.resets && !StuckLowered(w.s, c) {
      var v: nat :| Fresh(w.s, v, c);
      assert StuckWithOne(w, c, v);
    }
  }

  /** A reset that sleeps with nothing left to wait for can still be woken just when this is so; else it sleeps on in
      every continuation. */
  lemma WokenExactly(w: Watch, r: Resetter)
    requires Reached(w) && r in w.asleep && Within(w.s) && Engine.Resets(w.s, r) && Quiet(w.s, r)
    ensures CanWake(w, r) ==> Wakeable(w, ConnOf(w.s, r))
    ensures Wakeable(w, ConnOf(w.s, r)) && Decided(w.s, ConnOf(w.s, r)) ==> CanWake(w, r)
  {
    ReachedSound(w);
    var c := ConnOf(w.s, r);
    if Wakeable(w, c) {
      if Decided(w.s, c) { WakeableWakes(w, r, c); }
    } else {
      UnwakeableStuck(w, r, c);
      forall acts | Run(w, acts).Some? ensures r in Run(w, acts).value.asleep { StuckRun(w, acts, r); }
      assert !CanWake(w, r);
    }
  }

  lemma {:induction false} RunSnoc(w: Watch, acts: seq<Act>, last: Act)
    requires Run(w, acts).Some? && Can(Run(w, acts).value, last)
    ensures Run(w, acts + [last]) == Some(Afterwards(Run(w, acts).value, last))
    decreases |acts|
  {
    if acts == [] {
      assert [last][1..] == [];
      assert Run(Afterwards(w, last), []) == Some(Afterwards(w, last));
    } else {
      assert (acts + [last])[1..] == acts[1..] + [last];
      RunSnoc(Afterwards(w, acts[0]), acts[1..], last);
    }
  }

  lemma Onwards(w: Watch, act: Act) returns (n: Watch)
    requires Reached(w) && Can(w, act)
    ensures n == Afterwards(w, act) && Reached(n)
  {
    var acts :| Run(Init(), acts) == Some(w);
    RunSnoc(Init(), acts, act);
    n := Afterwards(w, act);
  }

  /** Nobody sleeps yet, and the engine goes on. */
  lemma StillAwake(w: Watch, step: Step) returns (n: Watch)
    requires Reached(w) && w.asleep == {} && Within(w.s) && Enabled(w.s, step)
    ensures n == Watch(Next(w.s, step), {}) && Reached(n)
  {
    n := Onwards(w, Do(step));
  }

  /** A request is responded to without a reply, as np_respond is where no reply could be allocated: the Tversion that
      waits for it sleeps for ever. */
  lemma {:induction false} SleepsForever() returns (w: Watch, r: Resetter)
    ensures Reached(w) && r in w.asleep && Within(w.s) && Engine.Resets(w.s, r) && Quiet(w.s, r)
    ensures forall acts :: Run(w, acts).Some? ==> r in Run(w, acts).value.asleep
  {
    r := ByVersion(1);
    w := FallsAsleep();
    w := EndsSilently(w);
    ReachedSound(w);
    NothingElse(w);
    forall acts | Run(w, acts).Some? ensures r in Run(w, acts).value.asleep { StuckRun(w, acts, r); }
  }

  lemma NothingElse(w: Watch)
    requires Sound(w) && w.asleep == {ByVersion(1)} && w.s.queue == [] && |w.s.ents| == 2
    requires w.s.ents[0] == Entry(Req(0, 2, Other), Unlinked(false), [], 0) && w.s.ents[1].pc.Handling?
    requires w.s.resetting == {0} && ByReader(0) !in w.s.resets && forall x :: x in w.s.work ==> x == 1
    ensures StuckReading(w, 0)
  {
  }

  /** A request and a Tversion of its connection in their handlers, the Tversion behind its sweep. */
  function TwoHandled(): State {
    R.BothHandled(Req(0, 2, Other), Req(0, 1, Version)).(
      resetting := {0}, resets := map[ByVersion(1) := Waiting({0})])
  }

  lemma EndsSilently(w: Watch) returns (n: Watch)
    requires Reached(w) && w == Watch(TwoHandled(), {ByVersion(1)})
    ensures Reached(n) && n.asleep == w.asleep && n.s.queue == [] && |n.s.ents| == 2
    ensures n.s.ents[0] == Entry(Req(0, 2, Other), Unlinked(false), [], 0) && n.s.ents[1] == w.s.ents[1]
    ensures n.s.resets == w.s.resets && n.s.resetting == {0} && forall x :: x in n.s.work ==> x == 1
  {
    n := WakesNobody(w, Respond(0, false));
    assert n.s.ents == [Entry(Req(0, 2, Other), Responding(false), [], 0), w.s.ents[1]];
    UnlinksOne(n.s);
    n := WakesNobody(n, Unlink(0));
  }

  lemma WakesNobody(w: Watch, step: Step) returns (n: Watch)
    requires Reached(w) && Can(w, Do(step)) && Responds(w.s, step).None?
    ensures Reached(n) && n == Watch(Next(w.s, step), w.asleep)
  {
    n := Onwards(w, Do(step));
  }

  lemma UnlinksOne(s: State)
    requires |s.ents| == 2 && s.work == [1, 0] && s.ents[0].pc == Responding(false) && s.ents[0].chain == []
    ensures var n := UnlinkNext(s, 0);
      && n.ents == s.ents[0 := s.ents[0].(pc := Unlinked(false))] && n.queue == s.queue
      && n.resets == s.resets && n.resetting == s.resetting && forall x :: x in n.work ==> x == 1
  {
    WithoutMembers(s.work, Together(s, 0));
    assert UnlinkNext(s, 0).ents == s.ents[0 := s.ents[0].(pc := Unlinked(false))];
  }

  /** And the Tversion asleep. */
  lemma {:induction false} FallsAsleep() returns (w: Watch)
    ensures Reached(w) && w == Watch(TwoHandled(), {ByVersion(1)})
  {
    var a, b, r := Req(0, 2, Other), Req(0, 1, Version), ByVersion(1);
    w := BothHandled(a, b);
    w := StillAwake(w, Mark(r));
    assert w.s == R.BothHandled(a, b).(resetting := {0}, resets := map[r := Marked]);
    SweepHolds(w.s);
    w := StillAwake(w, Sweep(r));
    w := Onwards(w, Sleep(r));
  }

  lemma SweepHolds(s: State)
    requires s == R.BothHandled(Req(0, 2, Other), Req(0, 1, Version)).(
      resetting := {0}, resets := map[ByVersion(1) := Marked])
    ensures Within(s) && Enabled(s, Sweep(ByVersion(1)))
    ensures Next(s, Sweep(ByVersion(1))) == s.(resets := map[ByVersion(1) := Waiting({0})])
  {
    assert Next(s, Sweep(ByVersion(1))).ents == s.ents;
    assert (set x | x in s.work && Awaits(s, ByVersion(1), x)) == {0};
  }

  lemma BothHandled(a: Req, b: Req) returns (w: Watch)
    ensures Reached(w) && w == Watch(R.BothHandled(a, b), {})
  {
    assert Run(Init(), []) == Some(Init());
    w := StillAwake(Init(), Add(a, 0));
    w := StillAwake(w, Add(b, 1));
    assert w.s == R.BothQueued(a, b);
    w := StillAwake(w, Take);
    w := StillAwake(w, Take);
    assert w.s == R.BothHandled(a, b);
  }
}
