/** muduo::MutexLock and muduo::Condition with every lock, unlock and wait cut into the steps between
    which another thread may run: the pthread call and the assignment to holder_ are separate. */
module MutexHolder {
  import opened Options
  import opened Threads

  datatype Pc =
    | Outside
    | Locking          // in pthread_mutex_lock
    | Locked           // got the mutex, holder_ not yet assigned
    | Inside           // user code of the critical section
    | Unlocking        // holder_ cleared, pthread_mutex_unlock still to come
    | WaitPending      // in Condition::wait, guard constructed, pthread_cond_wait still to come
    | Blocked          // in pthread_cond_wait, mutex released
    | Woken            // unblocked, competing for the mutex again
    | Reacquired       // pthread_cond_wait returned, guard not yet destroyed

  predicate OwnsMutex(pc: Pc) {
    pc.Locked? || pc.Inside? || pc.Unlocking? || pc.WaitPending? || pc.Reacquired?
  }

  datatype State = State(
    owner: Option<Tid>,   // of the pthread mutex
    holder: Tid,          // holder_, 0 when unassigned
    pcs: map<Tid, Pc>)

  datatype Action =
    | CallLock(t: Tid) | Acquire(t: Tid) | Assign(t: Tid)
    | Unassign(t: Tid) | Release(t: Tid)
    | WaitUnassign(t: Tid) | Block(t: Tid) | Wake(t: Tid)

  /** Thread ids are not 0: CurrentThread::tid() is a kernel thread id. */
  ghost predicate Init(s: State) {
    s.owner.None? && s.holder == 0 && 0 !in s.pcs && forall t :: t in s.pcs ==> s.pcs[t].Outside?
  }

  predicate Enabled(s: State, a: Action) {
    a.t in s.pcs &&
    match a
    case CallLock(t) => s.pcs[t].Outside?
    case Acquire(t) => s.owner.None? && (s.pcs[t].Locking? || s.pcs[t].Woken?)
    case Assign(t) => s.pcs[t].Locked? || s.pcs[t].Reacquired?
    case Unassign(t) => s.pcs[t].Inside?
    case Release(t) => s.pcs[t].Unlocking?
    case WaitUnassign(t) => s.pcs[t].Inside?
    case Block(t) => s.pcs[t].WaitPending?
    case Wake(t) => s.pcs[t].Blocked? // by notify, notifyAll or without reason
  }

  function Step(s: State, a: Action): State
    requires Enabled(s, a)
  {
    match a
    case CallLock(t) => s.(pcs := s.pcs[t := Locking])
    case Acquire(t) => s.(owner := Some(t), pcs := s.pcs[t := if s.pcs[t].Locking? then Locked else Reacquired])
    case Assign(t) => s.(holder := t, pcs := s.pcs[t := Inside])
    case Unassign(t) => s.(holder := 0, pcs := s.pcs[t := Unlocking])
    case Release(t) => s.(owner := None, pcs := s.pcs[t := Outside])
    case WaitUnassign(t) => s.(holder := 0, pcs := s.pcs[t := WaitPending])
    case Block(t) => s.(owner := None, pcs := s.pcs[t := Blocked])
    case Wake(t) => s.(pcs := s.pcs[t := Woken])
  }

  ghost predicate IsRun(run: seq<State>, actions: seq<Action>) {
    && |run| == |actions| + 1 && Init(run[0])
    && forall i :: 0 <= i < |actions| ==> Enabled(run[i], actions[i]) && run[i + 1] == Step(run[i], actions[i])
  }

  ghost predicate Inv(s: State) {
    && 0 !in s.pcs
    && (forall t :: t in s.pcs ==> (OwnsMutex(s.pcs[t]) <==> s.owner == Some(t)))
    && (s.owner.Some? ==> s.owner.value in s.pcs)
    && (s.holder != 0 ==> s.holder in s.pcs && s.pcs[s.holder].Inside?)
    && (forall t :: t in s.pcs && s.pcs[t].Inside? ==> s.holder == t)
  }

  lemma {:induction false} RunInv(run: seq<State>, actions: seq<Action>, i: nat)
    requires IsRun(run, actions) && i < |run|
    ensures Inv(run[i]) && run[i].pcs.Keys == run[0].pcs.Keys
  {
    if i > 0 {
      RunInv(run, actions, i - 1);
      StepKeepsInv(run[i - 1], actions[i - 1]);
    }
  }

  lemma StepKeepsInv(s: State, a: Action)
    requires Inv(s) && Enabled(s, a)
    ensures Inv(Step(s, a)) && Step(s, a).pcs.Keys == s.pcs.Keys
  {
  }

  /** What the surroundings are free to do: any thread may try to lock or, inside, unlock or wait; any waiting thread may
      be woken at any time; any contender may get a free mutex. */
  lemma SurroundingsAreFree(threads: set<Tid>, s: State, t: Tid)
    requires 0 !in threads
    ensures Init(State(None, 0, map u | u in threads :: Outside))
    ensures t in s.pcs && s.pcs[t].Outside? ==> Enabled(s, CallLock(t))
    ensures t in s.pcs && s.pcs[t].Inside? ==> Enabled(s, Unassign(t)) && Enabled(s, WaitUnassign(t))
    ensures t in s.pcs && s.pcs[t].Blocked? ==> Enabled(s, Wake(t)) && Step(s, Wake(t)).pcs[t] == Woken
    ensures t in s.pcs && s.owner.None? && s.pcs[t] in {Locking, Woken} ==>
              Enabled(s, Acquire(t)) && Step(s, Acquire(t)).owner == Some(t)
  {
  }

  /** Unless everybody waits for a signal or is outside, somebody can go on. */
  lemma NeverStuck(run: seq<State>, actions: seq<Action>, i: nat, t: Tid) returns (a: Action)
    requires IsRun(run, actions) && i < |run|
    requires t in run[i].pcs && !run[i].pcs[t].Outside? && !run[i].pcs[t].Blocked?
    ensures Enabled(run[i], a) && !a.CallLock? && !a.Wake?
  {
    RunInv(run, actions, i);
    var s := run[i];
    var u := if s.owner.Some? then s.owner.value else t;
    match s.pcs[u] {
      case Locking => a := Acquire(u);
      case Woken => a := Acquire(u);
      case Locked => a := Assign(u);
      case Reacquired => a := Assign(u);
      case Inside => a := Unassign(u);
      case Unlocking => a := Release(u);
      case WaitPending => a := Block(u);
    }
  }

  /** MutexLock::isLockedByThisThread, called by thread `t`. */
  predicate IsLockedByThisThread(s: State, t: Tid) {
    s.holder == t
  }

  /** In every state of every run: holder_ names the owner whenever it names anybody, at most one thread owns
      the mutex, and isLockedByThisThread is true in a thread exactly while it runs user code inside. */
  lemma HolderIsTruthful(run: seq<State>, actions: seq<Action>, i: nat, t: Tid)
    requires IsRun(run, actions) && i < |run| && t in run[i].pcs
    ensures run[i].holder != 0 ==> run[i].owner == Some(run[i].holder)
    ensures IsLockedByThisThread(run[i], t) <==> run[i].pcs[t].Inside?
    ensures forall u :: u in run[i].pcs && OwnsMutex(run[i].pcs[u]) && OwnsMutex(run[i].pcs[t]) ==> u == t
    // The assert of the destructor: with nobody inside, holder_ is 0.
    ensures (forall u :: u in run[i].pcs ==> run[i].pcs[u].Outside?) ==> run[i].holder == 0
  {
    RunInv(run, actions, i);
  }
}
