/** The three-valued lock word of fs/fus.c (flock, fulock) shared by any number of threads.
    Each atomic instruction and each futex system call is one step. */
module Futex {

  /** Where a thread stands in flock or fulock. */
  datatype Pc =
    | Outside    // not inside flock or fulock, and not holding the lock
    | Exchanging // about to run xchg(val, 2)
    | Waiting    // the exchange found the lock taken: about to call FUTEX_WAIT
    | Asleep     // inside FUTEX_WAIT
    | Holding    // flock has returned
    | Releasing  // dec found more than 1: about to store 0
    | Waking     // 0 is stored: about to call FUTEX_WAKE

  datatype State = State(word: int, pcs: seq<Pc>)

  datatype Step =
    | TryLock(t: nat)        // cmpxchg(val, 0, 1)
    | Exchange(t: nat)       // xchg(val, 2)
    | FutexWait(t: nat)      // FUTEX_WAIT on 2
    | Interrupted(t: nat)    // FUTEX_WAIT returns early
    | Decrement(t: nat)      // dec(val)
    | StoreZero(t: nat)      // *val = 0
    | FutexWake(t: nat)      // FUTEX_WAKE, nobody asleep
    | FutexWakeOne(t: nat, sleeper: nat)

  ghost predicate Init(s: State) {
    s.word == 0 && forall t :: 0 <= t < |s.pcs| ==> s.pcs[t] == Outside
  }

  function Cmpxchg(word: int, expected: int, replacement: int): (int, int) {
    (word, if word == expected then replacement else word)
  }

  function Xchg(word: int, x: int): (int, int) { (word, x) }

  function Dec(word: int): (int, int) { (word, word - 1) }

  ghost predicate At(s: State, t: nat, pc: Pc) { t < |s.pcs| && s.pcs[t] == pc }

  ghost predicate NextStep(s: State, s': State, step: Step) {
    match step
    case TryLock(t) =>
      At(s, t, Outside) &&
      var (n, word) := Cmpxchg(s.word, 0, 1);
      s' == State(word, s.pcs[t := if n == 0 then Holding else Exchanging])
    case Exchange(t) =>
      At(s, t, Exchanging) &&
      var (n, word) := Xchg(s.word, 2);
      s' == State(word, s.pcs[t := if n == 0 then Holding else Waiting])
    case FutexWait(t) =>
      At(s, t, Waiting) && s' == s.(pcs := s.pcs[t := if s.word == 2 then Asleep else Exchanging])
    case Interrupted(t) =>
      At(s, t, Asleep) && s' == s.(pcs := s.pcs[t := Exchanging])
    case Decrement(t) =>
      At(s, t, Holding) &&
      var (n, word) := Dec(s.word);
      s' == State(word, s.pcs[t := if n == 1 then Outside else Releasing])
    case StoreZero(t) =>
      At(s, t, Releasing) && s' == State(0, s.pcs[t := Waking])
    case FutexWake(t) =>
      At(s, t, Waking) && (forall u: nat :: !At(s, u, Asleep)) && s' == s.(pcs := s.pcs[t := Outside])
    case FutexWakeOne(t, u) =>
      At(s, t, Waking) && At(s, u, Asleep) && s' == s.(pcs := s.pcs[t := Outside][u := Exchanging])
  }

  ghost predicate Next(s: State, s': State) { exists step :: NextStep(s, s', step) }

  ghost predicate Run(run: seq<State>) {
    |run| > 0 && Init(run[0]) && forall i :: 0 <= i < |run| - 1 ==> Next(run[i], run[i + 1])
  }

  /** The thread has the lock, or has not yet finished giving it back. */
  ghost predicate Owns(s: State, t: nat) { At(s, t, Holding) || At(s, t, Releasing) }

  /** The thread will look at the word again, or wake somebody who will. */
  ghost predicate Active(s: State, t: nat) { At(s, t, Releasing) || At(s, t, Waking) || At(s, t, Exchanging) }

  ghost predicate Exclusion(s: State) {
    && 0 <= s.word <= 2
    && (s.word != 0 <==> exists t: nat :: Owns(s, t))
    && forall t: nat, u: nat :: Owns(s, t) && Owns(s, u) ==> t == u
  }

  ghost predicate NoLostWakeup(s: State) {
    forall t: nat :: At(s, t, Asleep) ==> s.word == 2 || exists u: nat :: Active(s, u)
  }

  lemma ExclusionStep(s: State, s': State, step: Step)
    requires Exclusion(s) && NextStep(s, s', step)
    ensures Exclusion(s')
  {
    var t := step.t;
    assert forall u: nat :: u != t && !(step.FutexWakeOne? && u == step.sleeper) ==> (Owns(s', u) <==> Owns(s, u));
    match step
    case TryLock(_) => if s.word == 0 { assert Owns(s', t); }
    case Exchange(_) => if s.word == 0 { assert Owns(s', t); }
    case Decrement(_) => assert Owns(s, t); if s.word == 2 { assert Owns(s', t); }
    case StoreZero(_) => assert Owns(s, t);
    case _ =>
  }

  lemma NoLostWakeupStep(s: State, s': State, step: Step)
    requires Exclusion(s) && NoLostWakeup(s) && NextStep(s, s', step)
    ensures NoLostWakeup(s')
  {
    var t := step.t;
    forall v: nat | At(s', v, Asleep) ensures s'.word == 2 || exists u: nat :: Active(s', u) {
      if At(s', t, Exchanging) || At(s', t, Releasing) || At(s', t, Waking) {
        assert Active(s', t);
      } else if step.FutexWakeOne? {
        assert Active(s', step.sleeper);
      } else if s'.word != 2 {
        assert v != t && At(s, v, Asleep);
        if s.word != 2 {
          var u: nat :| Active(s, u);
          assert !step.Decrement? || Owns(s, t);
          assert u == t || Active(s', u);
        }
      }
    }
  }

  /** Every reachable state: the word is nonzero iff exactly one thread holds or is releasing the lock, and
      whenever a thread sleeps the word is 2 or somebody is on the way to the word. */
  lemma {:induction false} Safety(run: seq<State>, i: nat)
    requires Run(run) && i < |run|
    ensures Exclusion(run[i]) && NoLostWakeup(run[i])
    decreases i
  {
    if i > 0 {
      Safety(run, i - 1);
      assert Next(run[i - 1], run[(i - 1) + 1]);
      var step :| NextStep(run[i - 1], run[i], step);
      ExclusionStep(run[i - 1], run[i], step);
      NoLostWakeupStep(run[i - 1], run[i], step);
    }
  }

  /** Two threads never both have returned from flock without having started fulock, and a thread that is
      still releasing keeps everybody else out. */
  lemma MutualExclusion(run: seq<State>, i: nat, t: nat, u: nat)
    requires Run(run) && i < |run| && t != u
    ensures !(Owns(run[i], t) && Owns(run[i], u))
  {
    Safety(run, i);
  }

  /** No wakeup is lost: when nobody is inside flock or fulock or holds the lock, nobody is asleep either,
      and the word is back to 0. */
  lemma QuiescentMeansNoSleeper(run: seq<State>, i: nat)
    requires Run(run) && i < |run|
    requires forall t: nat :: t < |run[i].pcs| ==> At(run[i], t, Outside) || At(run[i], t, Asleep)
    ensures run[i].word == 0 && forall t: nat :: t < |run[i].pcs| ==> At(run[i], t, Outside)
  {
    Safety(run, i);
    forall u: nat ensures !Active(run[i], u) && !Owns(run[i], u) {
      if u < |run[i].pcs| { assert At(run[i], u, Outside) || At(run[i], u, Asleep); }
    }
    assert forall t: nat :: !At(run[i], t, Asleep);
  }

  /** A sleeper always leaves somebody able to move who is not asleep: the lock cannot come to rest with a
      thread in FUTEX_WAIT. */
  lemma SleeperIsServed(run: seq<State>, i: nat, t: nat)
    requires Run(run) && i < |run| && At(run[i], t, Asleep)
    ensures exists u: nat :: Owns(run[i], u) || Active(run[i], u)
  {
    Safety(run, i);
    if run[i].word == 2 {
      var u: nat :| Owns(run[i], u);
    } else {
      var u: nat :| Active(run[i], u);
    }
  }

  /** A free lock is taken and given back by one instruction each, without a system call, and nothing else changes. */
  lemma Uncontended(s: State, m: State, n: State, t: nat)
    requires s.word == 0 && NextStep(s, m, TryLock(t)) && NextStep(m, n, Decrement(t))
    ensures At(m, t, Holding) && n == s
  {
    assert n.pcs == s.pcs;
  }

  // ---- whoever waits can still get the lock

  /** A step in which no FUTEX_WAIT returns but for a FUTEX_WAKE or another value in the word. */
  ghost predicate Proper(s: State, n: State) { exists step: Step :: !step.Interrupted? && NextStep(s, n, step) }

  ghost predicate Path(path: seq<State>) {
    path != [] && forall i {:trigger path[i + 1]} :: 0 <= i < |path| - 1 ==> Proper(path[i], path[i + 1])
  }

  /** The state is one the rest of a run can come to. */
  ghost predicate Comes(s: State, n: State) {
    exists path :: Path(path) && path[0] == s && path[|path| - 1] == n
  }

  ghost predicate Sound(s: State) { Exclusion(s) && NoLostWakeup(s) }

  lemma Stays(s: State)
    ensures Comes(s, s)
  {
    assert Path([s]);
  }

  lemma Goes(start: State, s: State, n: State, step: Step)
    requires Comes(start, s) && Sound(s) && NextStep(s, n, step) && !step.Interrupted?
    ensures Comes(start, n) && Sound(n)
  {
    ExclusionStep(s, n, step);
    NoLostWakeupStep(s, n, step);
    var path :| Path(path) && path[0] == start && path[|path| - 1] == s;
    assert Proper(s, n);
    assert Path(path + [n]);
  }

  /** All threads but one stand where they stood. */
  ghost predicate OnlyMoves(s: State, n: State, u: nat) {
    |n.pcs| == |s.pcs| && forall t :: 0 <= t < |s.pcs| && t != u ==> n.pcs[t] == s.pcs[t]
  }

  /** The owner gives the lock back; where others may be asleep, it goes on to wake one. */
  lemma Frees(start: State, s: State, u: nat) returns (n: State)
    requires Comes(start, s) && Sound(s) && Owns(s, u)
    ensures Comes(start, n) && Sound(n) && n.word == 0 && OnlyMoves(s, n, u)
    ensures s.word == 2 || At(s, u, Releasing) ==> At(n, u, Waking)
  {
    var m := s;
    if At(s, u, Holding) {
      m := State(s.word - 1, s.pcs[u := if s.word == 1 then Outside else Releasing]);
      Goes(start, s, m, Decrement(u));
    }
    n := m;
    if At(m, u, Releasing) {
      n := State(0, m.pcs[u := Waking]);
      Goes(start, m, n, StoreZero(u));
    }
  }

  /** The lock is free, whoever had it. */
  lemma Freed(start: State, s: State, t: nat) returns (n: State)
    requires Comes(start, s) && Sound(s) && t < |s.pcs| && !Owns(s, t)
    ensures Comes(start, n) && Sound(n) && n.word == 0 && At(n, t, s.pcs[t])
  {
    n := s;
    if s.word != 0 {
      var u: nat :| Owns(s, u);
      n := Frees(start, s, u);
    }
  }

  lemma ExchangerGets(start: State, s: State, t: nat) returns (n: State)
    requires Comes(start, s) && Sound(s) && At(s, t, Exchanging)
    ensures Comes(start, n) && At(n, t, Holding)
  {
    var m := Freed(start, s, t);
    n := State(2, m.pcs[t := Holding]);
    Goes(start, m, n, Exchange(t));
  }

  lemma WaiterGets(start: State, s: State, t: nat) returns (n: State)
    requires Comes(start, s) && Sound(s) && At(s, t, Waiting)
    ensures Comes(start, n) && At(n, t, Holding)
  {
    var m := Freed(start, s, t);
    n := m.(pcs := m.pcs[t := Exchanging]);
    Goes(start, m, n, FutexWait(t));
    n := ExchangerGets(start, n, t);
  }

  lemma WokenGets(start: State, s: State, t: nat, u: nat) returns (n: State)
    requires Comes(start, s) && Sound(s) && At(s, t, Asleep) && At(s, u, Waking)
    ensures Comes(start, n) && At(n, t, Holding)
  {
    n := s.(pcs := s.pcs[u := Outside][t := Exchanging]);
    Goes(start, s, n, FutexWakeOne(u, t));
    n := ExchangerGets(start, n, t);
  }

  /** A sleeper on a word of 2 is woken by the owner. */
  lemma SleeperGets(start: State, s: State, t: nat) returns (n: State)
    requires Comes(start, s) && Sound(s) && At(s, t, Asleep) && s.word == 2
    ensures Comes(start, n) && At(n, t, Holding)
  {
    var u: nat :| Owns(s, u);
    var m := Frees(start, s, u);
    n := WokenGets(start, m, t, u);
  }

  /** And on another word by somebody on the way, or by the owner after that one has set the word to 2. */
  lemma LateSleeperGets(start: State, s: State, t: nat) returns (n: State)
    requires Comes(start, s) && Sound(s) && At(s, t, Asleep) && s.word != 2
    ensures Comes(start, n) && At(n, t, Holding)
  {
    var u: nat :| Active(s, u);
    if At(s, u, Releasing) {
      var m := Frees(start, s, u);
      n := WokenGets(start, m, t, u);
    } else if At(s, u, Waking) {
      n := WokenGets(start, s, t, u);
    } else {
      var m := State(2, s.pcs[u := if s.word == 0 then Holding else Waiting]);
      Goes(start, s, m, Exchange(u));
      n := SleeperGets(start, m, t);
    }
  }

  /** In every reachable state, every thread that does not have the lock and is not giving it back can come to have it,
      though no FUTEX_WAIT ever returns of its own: sleepers are woken. */
  lemma EveryoneCanGetIt(run: seq<State>, i: nat, t: nat) returns (n: State)
    requires Run(run) && i < |run| && t < |run[i].pcs|
    requires run[i].pcs[t] in {Outside, Exchanging, Waiting, Asleep}
    ensures Comes(run[i], n) && At(n, t, Holding)
  {
    var s := run[i];
    Safety(run, i);
    Stays(s);
    match s.pcs[t] {
      case Outside =>
        n := State(if s.word == 0 then 1 else s.word, s.pcs[t := if s.word == 0 then Holding else Exchanging]);
        Goes(s, s, n, TryLock(t));
        if s.word != 0 { n := ExchangerGets(s, n, t); }
      case Exchanging => n := ExchangerGets(s, s, t);
      case Waiting => n := WaiterGets(s, s, t);
      case Asleep => if s.word == 2 { n := SleeperGets(s, s, t); } else { n := LateSleeperGets(s, s, t); }
    }
  }
}
