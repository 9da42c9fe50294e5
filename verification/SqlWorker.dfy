/** The database thread (MyQuery::MysqlLoop) and the threads that push work to it (Pet::PrepareSQL):
    producers push under the lock but notify after releasing it. */
module SqlWorker {
  import opened Options
  import opened Threads

  /** A SqlPack; the loop skips packs whose bind pointer is null. */
  datatype Pack = Pack(id: nat, hasBind: bool)

  datatype WorkerPc =
    | Top              // at while(!m_exitFlag), without the lock
    | Entering         // saw the flag unset, competing for the lock
    | Testing          // holds the lock, about to evaluate the wait predicate
    | Waiting          // blocked in m_cv.wait, lock released
    | Signalled        // woken, competing for the lock
    | Draining         // holds the lock, at while(!m_sqlTaskQueue.empty())
    | Executing(p: Pack) // holds the lock, pack popped
    | Sleeping         // the 500 ms sleep; the lock is still held
    | Stopped

  datatype ProducerPc =
    | Idle
    | Locking(p: Pack)
    | Pushing(p: Pack)  // holds the lock
    | Unlocking         // pushed, holds the lock
    | Notifying         // released the lock, notify_one still to come

  datatype Role = Worker | Producer(t: Tid)

  datatype State = State(
    queue: seq<Pack>,
    owner: Option<Role>,
    worker: WorkerPc,
    producers: map<Tid, ProducerPc>,
    exit: bool,
    pushed: seq<Pack>,
    popped: seq<Pack>,
    executed: seq<Pack>)

  datatype Action =
    | Call(t: Tid, p: Pack) | Lock(t: Tid) | Push(t: Tid) | Unlock(t: Tid) | Notify(t: Tid)
    | Begin | Acquire | Test | Spurious | Next | Execute | Release | SetExit

  ghost predicate Init(s: State) {
    && s.queue == s.pushed == s.popped == s.executed == []
    && s.owner.None? && s.worker.Top? && !s.exit
    && forall t :: t in s.producers ==> s.producers[t].Idle?
  }

  predicate Enabled(s: State, a: Action) {
    match a
    case Call(t, _) => t in s.producers && s.producers[t].Idle?
    case Lock(t) => t in s.producers && s.producers[t].Locking? && s.owner.None?
    case Push(t) => t in s.producers && s.producers[t].Pushing?
    case Unlock(t) => t in s.producers && s.producers[t].Unlocking?
    case Notify(t) => t in s.producers && s.producers[t].Notifying?
    case Begin => s.worker.Top?
    case Acquire => (s.worker.Entering? || s.worker.Signalled?) && s.owner.None?
    case Test => s.worker.Testing?
    case Spurious => s.worker.Waiting?
    case Next => s.worker.Draining?
    case Execute => s.worker.Executing?
    case Release => s.worker.Sleeping?
    case SetExit => true
  }

  function MoveP(s: State, t: Tid, to: ProducerPc): State {
    s.(producers := s.producers[t := to])
  }

  function Step(s: State, a: Action): State
    requires Enabled(s, a)
  {
    match a
    case Call(t, p) => MoveP(s, t, Locking(p))
    case Lock(t) => MoveP(s, t, Pushing(s.producers[t].p)).(owner := Some(Producer(t)))
    case Push(t) =>
      var p := s.producers[t].p;
      MoveP(s, t, Unlocking).(queue := s.queue + [p], pushed := s.pushed + [p])
    case Unlock(t) => MoveP(s, t, Notifying).(owner := None)
    case Notify(t) =>
      var next := MoveP(s, t, Idle);
      if s.worker.Waiting? then next.(worker := Signalled) else next
    case Begin => s.(worker := if s.exit then Stopped else Entering)
    case Acquire => s.(worker := Testing, owner := Some(Worker))
    case Test => if s.queue == [] then s.(worker := Waiting, owner := None) else s.(worker := Draining)
    case Spurious => s.(worker := Signalled)
    case Next =>
      if s.queue == [] then s.(worker := Sleeping)
      else s.(worker := Executing(s.queue[0]), queue := s.queue[1..], popped := s.popped + [s.queue[0]])
    case Execute =>
      var p := s.worker.p;
      s.(worker := Draining, executed := s.executed + if p.hasBind then [p] else [])
    case Release => s.(worker := Top, owner := None)
    case SetExit => s.(exit := true)
  }

  ghost predicate IsRun(run: seq<State>, actions: seq<Action>) {
    && |run| == |actions| + 1 && Init(run[0])
    && forall i :: 0 <= i < |actions| ==> Enabled(run[i], actions[i]) && run[i + 1] == Step(run[i], actions[i])
  }

  function WithBind(ps: seq<Pack>): seq<Pack> {
    if ps == [] then []
    else WithBind(ps[..|ps| - 1]) + if ps[|ps| - 1].hasBind then [ps[|ps| - 1]] else []
  }

  lemma WithBindSnoc(ps: seq<Pack>, p: Pack)
    ensures WithBind(ps + [p]) == WithBind(ps) + if p.hasBind then [p] else []
  {
    assert (ps + [p])[..|ps|] == ps;
  }

  predicate WorkerHolds(pc: WorkerPc) { pc.Testing? || pc.Draining? || pc.Executing? || pc.Sleeping? }

  predicate ProducerHolds(pc: ProducerPc) { pc.Pushing? || pc.Unlocking? }

  /** A producer that has pushed and not yet notified. */
  predicate OwesNotify(pc: ProducerPc) { pc.Unlocking? || pc.Notifying? }

  ghost predicate Exclusive(s: State) {
    && (WorkerHolds(s.worker) <==> s.owner == Some(Worker))
    && (forall t :: t in s.producers ==> (ProducerHolds(s.producers[t]) <==> s.owner == Some(Producer(t))))
    && (s.owner.Some? && s.owner.value.Producer? ==> s.owner.value.t in s.producers)
  }

  ghost predicate Ledger(s: State) {
    && s.pushed == s.popped + s.queue
    && (if s.worker.Executing? then
          && s.popped != [] && s.popped[|s.popped| - 1] == s.worker.p
          && s.executed == WithBind(s.popped[..|s.popped| - 1])
        else s.executed == WithBind(s.popped))
  }

  /** Although producers notify late, the worker never sleeps through work for good. */
  ghost predicate NotifyPending(s: State) {
    s.worker.Waiting? && s.queue != [] ==> exists t :: t in s.producers && OwesNotify(s.producers[t])
  }

  ghost predicate Inv(s: State) {
    Exclusive(s) && Ledger(s) && NotifyPending(s)
  }

  lemma StepKeepsExclusive(s: State, a: Action)
    requires Exclusive(s) && Enabled(s, a)
    ensures Exclusive(Step(s, a)) && Step(s, a).producers.Keys == s.producers.Keys
  {
    match a
    case Call(_, _) =>
    case Lock(_) =>
    case Push(_) =>
    case Unlock(_) =>
    case Notify(_) =>
    case _ =>
  }

  lemma StepKeepsLedger(s: State, a: Action)
    requires Ledger(s) && Enabled(s, a)
    ensures Ledger(Step(s, a))
  {
    match a
    case Push(t) => assert s.popped + (s.queue + [s.producers[t].p]) == s.pushed + [s.producers[t].p];
    case Next =>
      if s.queue != [] {
        assert s.popped + [s.queue[0]] + s.queue[1..] == s.popped + s.queue;
        assert (s.popped + [s.queue[0]])[..|s.popped|] == s.popped;
      }
    case Execute =>
      var front := s.popped[..|s.popped| - 1];
      assert s.popped == front + [s.worker.p];
      WithBindSnoc(front, s.worker.p);
    case _ =>
  }

  lemma StepKeepsNotifyPending(s: State, a: Action)
    requires Exclusive(s) && NotifyPending(s) && Enabled(s, a)
    ensures NotifyPending(Step(s, a))
  {
    var next := Step(s, a);
    if a.Push? || a.Unlock? {
      assert OwesNotify(next.producers[a.t]);
    } else if s.worker.Waiting? && s.queue != [] {
      var t :| t in s.producers && OwesNotify(s.producers[t]);
      assert next.worker.Waiting? ==> OwesNotify(next.producers[t]);
    }
  }

  lemma {:induction false} RunInv(run: seq<State>, actions: seq<Action>, i: nat)
    requires IsRun(run, actions) && i < |run|
    ensures Inv(run[i]) && run[i].producers.Keys == run[0].producers.Keys
  {
    if i > 0 {
      RunInv(run, actions, i - 1);
      StepKeepsExclusive(run[i - 1], actions[i - 1]);
      StepKeepsLedger(run[i - 1], actions[i - 1]);
      StepKeepsNotifyPending(run[i - 1], actions[i - 1]);
    }
  }

  /** No wakeup is lost: a worker that waits unsignalled beside a non-empty queue has a notify coming to it,
      and the step that delivers the notify wakes it. */
  lemma WakeupComes(run: seq<State>, actions: seq<Action>, i: nat) returns (t: Tid)
    requires IsRun(run, actions) && i < |run| && run[i].worker.Waiting? && run[i].queue != []
    ensures t in run[i].producers && OwesNotify(run[i].producers[t])
    ensures Enabled(run[i], Notify(t)) ==> Step(run[i], Notify(t)).worker.Signalled?
    ensures !Enabled(run[i], Notify(t)) ==>
              && Enabled(run[i], Unlock(t))
              && Enabled(Step(run[i], Unlock(t)), Notify(t))
              && Step(Step(run[i], Unlock(t)), Notify(t)).worker.Signalled?
  {
    RunInv(run, actions, i);
    t :| t in run[i].producers && OwesNotify(run[i].producers[t]);
  }

  /** Exactly once, in push order: the packs executed so far are the ones with a bind among the first packs pushed,
      up to the one being worked on; and packs still queued come after them. */
  lemma ExecutedInOrder(run: seq<State>, actions: seq<Action>, i: nat) returns (n: nat)
    requires IsRun(run, actions) && i < |run|
    ensures n <= |run[i].pushed| && run[i].executed == WithBind(run[i].pushed[..n])
    ensures run[i].worker.Executing? ==> n < |run[i].pushed| && run[i].pushed[n] == run[i].worker.p
    ensures run[i].queue == run[i].pushed[n + (if run[i].worker.Executing? then 1 else 0)..]
  {
    hide WithBind;
    RunInv(run, actions, i);
    var s := run[i];
    n := if s.worker.Executing? then |s.popped| - 1 else |s.popped|;
    assert s.pushed[..|s.popped|] == s.popped;
    assert s.pushed[..n] == s.popped[..n];
    assert s.popped[..|s.popped|] == s.popped;
  }

  /** Once all producers are done and the worker waits, everything pushed has been executed. */
  lemma QuietMeansDone(run: seq<State>, actions: seq<Action>, i: nat)
    requires IsRun(run, actions) && i < |run| && run[i].worker.Waiting?
    requires forall t :: t in run[i].producers ==> run[i].producers[t].Idle?
    ensures run[i].queue == [] && run[i].executed == WithBind(run[i].pushed)
  {
    RunInv(run, actions, i);
    assert run[i].popped + [] == run[i].popped;
  }

  /** Rounds of the worker's outer loop that are over. */
  function Rounds(actions: seq<Action>): nat {
    if actions == [] then 0
    else Rounds(actions[..|actions| - 1]) + if actions[|actions| - 1].Release? then 1 else 0
  }

  ghost predicate Paced(s: State, rounds: nat) {
    && rounds <= |s.popped|
    && (s.worker.Executing? || s.worker.Sleeping? ==> rounds < |s.popped|)
    && (s.worker.Draining? ==> rounds < |s.popped| || s.queue != [])
  }

  lemma StepKeepsPace(s: State, a: Action, rounds: nat)
    requires Paced(s, rounds) && Enabled(s, a)
    ensures Paced(Step(s, a), rounds + if a.Release? then 1 else 0)
  {
  }

  /** The worker wakes only for work: it never makes more rounds than packs were popped. */
  lemma {:induction false} NoIdleRounds(run: seq<State>, actions: seq<Action>, i: nat)
    requires IsRun(run, actions) && i < |run|
    ensures Paced(run[i], Rounds(actions[..i])) && Rounds(actions[..i]) <= |run[i].popped|
  {
    hide Step, Enabled;
    if i > 0 {
      NoIdleRounds(run, actions, i - 1);
      StepKeepsPace(run[i - 1], actions[i - 1], Rounds(actions[..i - 1]));
      assert actions[..i][..i - 1] == actions[..i - 1];
    }
  }

  /** Until the worker has stopped, pending work can go on: whatever is queued, pushed or to be notified, some step
      other than a new call, a wakeup without reason or the exit flag is possible and changes something. */
  lemma NeverStuck(run: seq<State>, actions: seq<Action>, i: nat) returns (a: Action)
    requires IsRun(run, actions) && i < |run| && !run[i].worker.Stopped?
    requires run[i].queue != [] || exists t :: t in run[i].producers && !run[i].producers[t].Idle?
    ensures Enabled(run[i], a) && Step(run[i], a) != run[i] && !a.Call? && !a.Spurious? && !a.SetExit?
  {
    RunInv(run, actions, i);
    var s := run[i];
    if s.owner.None? && s.worker.Waiting? {
      var t :| t in s.producers && !s.producers[t].Idle?;
      a := if s.producers[t].Locking? then Lock(t) else Notify(t);
      assert Step(s, a).producers[t] != s.producers[t];
    } else if s.owner.Some? && s.owner.value.Producer? {
      var t := s.owner.value.t;
      a := if s.producers[t].Pushing? then Push(t) else Unlock(t);
      assert Step(s, a).producers[t] != s.producers[t];
    } else {
      a := match s.worker
        case Top => Begin
        case Entering => Acquire
        case Signalled => Acquire
        case Testing => Test
        case Draining => Next
        case Executing(_) => Execute
        case _ => Release;
      assert Step(s, a).worker != s.worker;
    }
  }

  /** The exit flag is looked at between rounds only: the worker stops there exactly if the flag was set before. */
  lemma {:induction false} StopsBetweenRounds(run: seq<State>, actions: seq<Action>, i: nat)
    requires IsRun(run, actions) && i < |actions|
    ensures run[i].exit <==> SetExit in actions[..i]
    ensures actions[i].Begin? ==> run[i + 1].worker == if SetExit in actions[..i] then Stopped else Entering
    ensures run[i + 1].worker.Stopped? && !run[i].worker.Stopped? ==> actions[i].Begin?
  {
    hide Step, Enabled;
    StepSeesExit(run[i], actions[i]);
    if i > 0 {
      StopsBetweenRounds(run, actions, i - 1);
      StepSeesExit(run[i - 1], actions[i - 1]);
      assert actions[..i] == actions[..i - 1] + [actions[i - 1]];
    }
  }

  lemma StepSeesExit(s: State, a: Action)
    requires Enabled(s, a)
    ensures Step(s, a).exit == (s.exit || a.SetExit?)
    ensures a.Begin? ==> Step(s, a).worker == if s.exit then Stopped else Entering
    ensures Step(s, a).worker.Stopped? && !s.worker.Stopped? ==> a.Begin?
  {
  }

  /** Producers may call at any time, and the worker may wake without reason. */
  lemma SurroundingsAreFree(threads: set<Tid>, s: State, t: Tid, p: Pack)
    ensures Init(State([], None, Top, map u | u in threads :: Idle, false, [], [], []))
    ensures t in s.producers && s.producers[t].Idle? ==> Enabled(s, Call(t, p))
    ensures s.worker.Waiting? ==> Enabled(s, Spurious) && Step(s, Spurious).worker == Signalled
  {
  }

  // ----- What was asked for -----

  /** The pack of a thread's PrepareSQL that is not pushed yet, told from the actions alone. */
  function Asked(actions: seq<Action>, t: Tid): Option<Pack> {
    if actions == [] then None
    else
      match actions[|actions| - 1]
      case Call(u, p) => if u == t then Some(p) else Asked(actions[..|actions| - 1], t)
      case Push(u) => if u == t then None else Asked(actions[..|actions| - 1], t)
      case _ => Asked(actions[..|actions| - 1], t)
  }

  /** The packs of the calls that have pushed, in the order of their pushes. */
  function Submitted(actions: seq<Action>): seq<Pack> {
    if actions == [] then []
    else
      var front, a := actions[..|actions| - 1], actions[|actions| - 1];
      Submitted(front) + if a.Push? && Asked(front, a.t).Some? then [Asked(front, a.t).value] else []
  }

  ghost predicate Tracks(s: State, actions: seq<Action>) {
    && (forall t :: t in s.producers ==>
          Asked(actions, t) == if s.producers[t].Locking? || s.producers[t].Pushing? then Some(s.producers[t].p) else None)
    && s.pushed == Submitted(actions)
  }

  lemma AskedSnoc(actions: seq<Action>, a: Action, t: Tid)
    ensures Asked(actions + [a], t)
         == if a.Call? && a.t == t then Some(a.p) else if a.Push? && a.t == t then None else Asked(actions, t)
  {
    assert (actions + [a])[..|actions|] == actions;
  }

  lemma SubmittedSnoc(actions: seq<Action>, a: Action)
    ensures Submitted(actions + [a])
         == Submitted(actions) + if a.Push? && Asked(actions, a.t).Some? then [Asked(actions, a.t).value] else []
  {
    assert (actions + [a])[..|actions|] == actions;
  }

  lemma StepTracks(s: State, a: Action, actions: seq<Action>)
    requires Tracks(s, actions) && Enabled(s, a)
    ensures Tracks(Step(s, a), actions + [a])
  {
    hide Asked, Submitted;
    SubmittedSnoc(actions, a);
    var next := Step(s, a);
    forall t | t in next.producers
      ensures Asked(actions + [a], t)
           == if next.producers[t].Locking? || next.producers[t].Pushing? then Some(next.producers[t].p) else None
    {
      AskedSnoc(actions, a, t);
    }
  }

  lemma {:induction false} RunTracks(run: seq<State>, actions: seq<Action>, i: nat)
    requires IsRun(run, actions) && i < |run|
    ensures Tracks(run[i], actions[..i])
  {
    hide Step, Enabled;
    if i > 0 {
      RunTracks(run, actions, i - 1);
      StepTracks(run[i - 1], actions[i - 1], actions[..i - 1]);
      assert actions[..i] == actions[..i - 1] + [actions[i - 1]];
    }
  }

  lemma {:induction false} LastCall(actions: seq<Action>, t: Tid) returns (j: nat)
    requires Asked(actions, t).Some?
    ensures j < |actions| && actions[j] == Call(t, Asked(actions, t).value)
    ensures forall k :: j < k < |actions| && (actions[k].Call? || actions[k].Push?) ==> actions[k].t != t
  {
    var a := actions[|actions| - 1];
    if a.Call? && a.t == t {
      j := |actions| - 1;
    } else {
      j := LastCall(actions[..|actions| - 1], t);
    }
  }

  /** Every push serves a call of PrepareSQL, once, and adds exactly its pack; so the packs pushed are the packs asked
      for, in push order. */
  lemma PushServesItsCall(run: seq<State>, actions: seq<Action>, i: nat) returns (j: nat)
    requires IsRun(run, actions) && i < |actions| && actions[i].Push?
    ensures j < i && actions[j].Call? && actions[j].t == actions[i].t
    ensures forall k :: j < k < i && (actions[k].Call? || actions[k].Push?) ==> actions[k].t != actions[i].t
    ensures run[i + 1].pushed == run[i].pushed + [actions[j].p] == Submitted(actions[..i + 1])
    ensures run[i + 1].queue == run[i].queue + [actions[j].p]
  {
    hide Asked, Submitted;
    RunTracks(run, actions, i);
    RunTracks(run, actions, i + 1);
    j := LastCall(actions[..i], actions[i].t);
  }
}
