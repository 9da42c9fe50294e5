/** muduo::BoundedBlockingQueue as a step system: any number of threads, a POSIX mutex that anybody
    may win, and two condition variables whose waiters may wake without reason. */
module BoundedQueue {
  import opened Options
  import opened Threads

  /** Where a thread stands. `Check`, `Push`, `Pop`, `Notify` and `Leave` are inside the critical section. */
  datatype Pc =
    | Idle
    | PutEnter | PutCheck | PutWait | PutWoken | PutPush | PutNotify | PutLeave
    | TakeEnter | TakeCheck | TakeWait | TakeWoken | TakePop | TakeNotify | TakeLeave

  predicate Holds(pc: Pc) {
    || pc.PutCheck? || pc.PutPush? || pc.PutNotify? || pc.PutLeave?
    || pc.TakeCheck? || pc.TakePop? || pc.TakeNotify? || pc.TakeLeave?
  }

  datatype State<T> = State(
    capacity: nat,
    queue: seq<T>,             // queue_, a boost::circular_buffer
    owner: Option<Tid>,        // mutex_
    pcs: map<Tid, Pc>,
    item: map<Tid, T>,         // the argument of each thread's put
    accepted: seq<T>,          // every item pushed so far
    taken: seq<T>)             // every item popped so far

  datatype Action<T> =
    | CallPut(t: Tid, x: T)
    | CallTake(t: Tid)
    | Lock(t: Tid)             // win the mutex, on entry or after a wakeup
    | Test(t: Tid)             // the loop condition: go on, or wait and release the mutex
    | Push(t: Tid)
    | Pop(t: Tid)
    | Notify(t: Tid, woken: set<Tid>) // pthread_cond_signal unblocks at least one waiter if there is any
    | Unlock(t: Tid)
    | Spurious(t: Tid)

  ghost predicate Init<T>(s: State<T>) {
    && s.queue == [] && s.owner.None? && s.accepted == [] && s.taken == []
    && s.item.Keys == s.pcs.Keys
    && forall t :: t in s.pcs ==> s.pcs[t].Idle?
  }

  /** boost::circular_buffer::push_back: on a full buffer the oldest item is overwritten. */
  function CircularPush<T>(queue: seq<T>, capacity: nat, x: T): (r: seq<T>)
    ensures |queue| == capacity > 0 ==> |r| == capacity && r[|r| - 1] == x && r[..|r| - 1] == queue[1..]
  {
    if |queue| < capacity then queue + [x]
    else if queue == [] then []
    else queue[1..] + [x]
  }

  predicate Wakes(waiting: set<Tid>, woken: set<Tid>) {
    woken <= waiting && (waiting != {} ==> woken != {})
  }

  predicate Enabled<T>(s: State<T>, a: Action<T>) {
    a.t in s.pcs &&
    var pc := s.pcs[a.t];
    match a
    case CallPut(_, _) => pc.Idle?
    case CallTake(_) => pc.Idle?
    case Lock(_) => s.owner.None? && (pc.PutEnter? || pc.PutWoken? || pc.TakeEnter? || pc.TakeWoken?)
    case Test(_) => pc.PutCheck? || pc.TakeCheck?
    case Push(_) => pc.PutPush? && a.t in s.item
    case Pop(_) => pc.TakePop? && s.queue != []
    case Notify(_, woken) =>
      || (pc.PutNotify? && Wakes(At(s.pcs, TakeWait), woken))
      || (pc.TakeNotify? && Wakes(At(s.pcs, PutWait), woken))
    case Unlock(_) => pc.PutLeave? || pc.TakeLeave?
    case Spurious(_) => pc.PutWait? || pc.TakeWait?
  }

  function Move<T>(s: State<T>, t: Tid, to: Pc): State<T> {
    s.(pcs := s.pcs[t := to])
  }

  function Step<T>(s: State<T>, a: Action<T>): State<T>
    requires Enabled(s, a)
  {
    var pc := s.pcs[a.t];
    match a
    case CallPut(t, x) => Move(s, t, PutEnter).(item := s.item[t := x])
    case CallTake(t) => Move(s, t, TakeEnter)
    case Lock(t) => Move(s, t, if pc.PutEnter? || pc.PutWoken? then PutCheck else TakeCheck).(owner := Some(t))
    case Test(t) =>
      if pc.PutCheck? then
        if |s.queue| == s.capacity then Move(s, t, PutWait).(owner := None) else Move(s, t, PutPush)
      else
        if s.queue == [] then Move(s, t, TakeWait).(owner := None) else Move(s, t, TakePop)
    case Push(t) =>
      Move(s, t, PutNotify).(queue := CircularPush(s.queue, s.capacity, s.item[t]), accepted := s.accepted + [s.item[t]])
    case Pop(t) => Move(s, t, TakeNotify).(queue := s.queue[1..], taken := s.taken + [s.queue[0]])
    case Notify(t, woken) =>
      if pc.PutNotify? then s.(pcs := MoveAll(s.pcs, woken, TakeWoken)[t := PutLeave])
      else s.(pcs := MoveAll(s.pcs, woken, PutWoken)[t := TakeLeave])
    case Unlock(t) => Move(s, t, Idle).(owner := None)
    case Spurious(t) => Move(s, t, if pc.PutWait? then PutWoken else TakeWoken)
  }

  ghost predicate IsRun<T>(run: seq<State<T>>, actions: seq<Action<T>>) {
    && |run| == |actions| + 1 && Init(run[0])
    && forall i :: 0 <= i < |actions| ==> Enabled(run[i], actions[i]) && run[i + 1] == Step(run[i], actions[i])
  }

  /** What the surroundings are free to do: start with any threads and any capacity, call at any time, win a free
      mutex in any order, wake a waiting thread without reason, and let a signal wake one waiter or several. */
  lemma SurroundingsAreFree<T>(capacity: nat, item: map<Tid, T>, s: State<T>, t: Tid, x: T, woken: set<Tid>)
    ensures Init(State(capacity, [], None, map u | u in item :: Idle, item, [], []))
    ensures t in s.pcs && s.pcs[t].Idle? ==> Enabled(s, CallPut(t, x)) && Enabled(s, CallTake(t))
    ensures t in s.pcs && s.owner.None? && s.pcs[t] in {PutEnter, PutWoken, TakeEnter, TakeWoken} ==> Enabled(s, Lock(t))
    ensures t in s.pcs && s.pcs[t].PutNotify? && woken != {} && woken <= At(s.pcs, TakeWait) ==> Enabled(s, Notify(t, woken))
    ensures t in s.pcs && s.pcs[t].TakeNotify? && woken != {} && woken <= At(s.pcs, PutWait) ==> Enabled(s, Notify(t, woken))
    ensures t in s.pcs && s.pcs[t] in {PutWait, TakeWait} ==>
              Enabled(s, Spurious(t)) && Step(s, Spurious(t)).pcs[t] == if s.pcs[t].PutWait? then PutWoken else TakeWoken
  {
  }

  // ----- The invariant -----

  /** The critical section holds exactly the owner of the mutex. */
  ghost predicate Exclusive<T>(s: State<T>) {
    && s.item.Keys == s.pcs.Keys
    && (forall t :: t in s.pcs && Holds(s.pcs[t]) ==> s.owner == Some(t))
    && (s.owner.Some? ==> s.owner.value in s.pcs && Holds(s.pcs[s.owner.value]))
  }

  /** The asserts of put and take hold where they stand, and the buffer is never overwritten. */
  ghost predicate Guarded<T>(s: State<T>) {
    && |s.queue| <= s.capacity
    && (forall t :: t in s.pcs && s.pcs[t].PutPush? ==> |s.queue| < s.capacity)
    && (forall t :: t in s.pcs && s.pcs[t].TakePop? ==> s.queue != [])
    && s.accepted == s.taken + s.queue
  }

  function OwnerPc<T>(s: State<T>): Pc {
    if s.owner.Some? && s.owner.value in s.pcs then s.pcs[s.owner.value] else Idle
  }

  /** 1 while the thread in the critical section is itself about to take an item or to signal a taker. */
  function TakerAtWork(pc: Pc): nat {
    if pc.PutNotify? || pc.TakeCheck? || pc.TakePop? then 1 else 0
  }

  function PutterAtWork(pc: Pc): nat {
    if pc.TakeNotify? || pc.PutCheck? || pc.PutPush? then 1 else 0
  }

  /** No wakeup is lost: a blocked taker means every item already has a taker on its way,
      and a blocked putter means every free slot has a putter on its way. */
  ghost predicate NoLostWakeup<T>(s: State<T>) {
    && (Count(s.pcs, TakeWait) > 0 ==> Count(s.pcs, TakeWoken) + TakerAtWork(OwnerPc(s)) >= |s.queue|)
    && (Count(s.pcs, PutWait) > 0 ==> Count(s.pcs, PutWoken) + PutterAtWork(OwnerPc(s)) >= s.capacity - |s.queue|)
  }

  ghost predicate Inv<T>(s: State<T>) {
    Exclusive(s) && Guarded(s) && NoLostWakeup(s)
  }

  lemma InitInv<T>(s: State<T>)
    requires Init(s)
    ensures Inv(s)
  {
    Nobody(s.pcs, TakeWait);
    Nobody(s.pcs, PutWait);
  }

  lemma StepKeepsExclusive<T>(s: State<T>, a: Action<T>)
    requires Exclusive(s) && Enabled(s, a)
    ensures Exclusive(Step(s, a)) && Step(s, a).pcs.Keys == s.pcs.Keys && Step(s, a).capacity == s.capacity
  {
    hide *;
    match a
    case CallPut(_, _) => CallKeepsExclusive(s, a);
    case CallTake(_) => CallKeepsExclusive(s, a);
    case Lock(_) => LockKeepsExclusive(s, a);
    case Test(_) => WorkKeepsExclusive(s, a);
    case Push(_) => WorkKeepsExclusive(s, a);
    case Pop(_) => WorkKeepsExclusive(s, a);
    case Notify(_, _) => NotifyKeepsExclusive(s, a);
    case Unlock(_) => LockKeepsExclusive(s, a);
    case Spurious(_) => CallKeepsExclusive(s, a);
  }

  lemma CallKeepsExclusive<T>(s: State<T>, a: Action<T>)
    requires Exclusive(s) && Enabled(s, a) && (a.CallPut? || a.CallTake? || a.Spurious?)
    ensures Exclusive(Step(s, a)) && Step(s, a).pcs.Keys == s.pcs.Keys && Step(s, a).capacity == s.capacity
  {
  }

  lemma LockKeepsExclusive<T>(s: State<T>, a: Action<T>)
    requires Exclusive(s) && Enabled(s, a) && (a.Lock? || a.Unlock?)
    ensures Exclusive(Step(s, a)) && Step(s, a).pcs.Keys == s.pcs.Keys && Step(s, a).capacity == s.capacity
  {
  }

  lemma WorkKeepsExclusive<T>(s: State<T>, a: Action<T>)
    requires Exclusive(s) && Enabled(s, a) && (a.Test? || a.Push? || a.Pop?)
    ensures Exclusive(Step(s, a)) && Step(s, a).pcs.Keys == s.pcs.Keys && Step(s, a).capacity == s.capacity
  {
  }

  lemma NotifyKeepsExclusive<T>(s: State<T>, a: Action<T>)
    requires Exclusive(s) && Enabled(s, a) && a.Notify?
    ensures Exclusive(Step(s, a)) && Step(s, a).pcs.Keys == s.pcs.Keys && Step(s, a).capacity == s.capacity
  {
    var next := Step(s, a);
    forall t | t in next.pcs && Holds(next.pcs[t]) ensures next.owner == Some(t) {
    }
  }

  lemma StepKeepsGuarded<T>(s: State<T>, a: Action<T>)
    requires Exclusive(s) && Guarded(s) && Enabled(s, a)
    ensures Guarded(Step(s, a))
  {
  }

  lemma CallKeepsWakeups<T>(s: State<T>, a: Action<T>)
    requires Inv(s) && Enabled(s, a) && (a.CallPut? || a.CallTake? || a.Spurious?)
    ensures NoLostWakeup(Step(s, a))
  {
    Moved(s.pcs, a.t, Step(s, a).pcs[a.t]);
  }

  lemma LockKeepsWakeups<T>(s: State<T>, a: Action<T>)
    requires Inv(s) && Enabled(s, a) && (a.Lock? || a.Unlock?)
    ensures NoLostWakeup(Step(s, a))
  {
    Moved(s.pcs, a.t, Step(s, a).pcs[a.t]);
  }

  lemma TestKeepsWakeups<T>(s: State<T>, a: Action<T>)
    requires Inv(s) && Enabled(s, a) && a.Test?
    ensures NoLostWakeup(Step(s, a))
  {
    Moved(s.pcs, a.t, Step(s, a).pcs[a.t]);
  }

  lemma ChangeKeepsWakeups<T>(s: State<T>, a: Action<T>)
    requires Inv(s) && Enabled(s, a) && (a.Push? || a.Pop?)
    ensures NoLostWakeup(Step(s, a))
  {
    Moved(s.pcs, a.t, Step(s, a).pcs[a.t]);
  }

  lemma PutNotifyKeepsWakeups<T>(s: State<T>, a: Action<T>)
    requires Inv(s) && Enabled(s, a) && a.Notify? && s.pcs[a.t].PutNotify?
    ensures NoLostWakeup(Step(s, a))
  {
    MovedAll(s.pcs, a.woken, TakeWait, TakeWoken);
    Moved(MoveAll(s.pcs, a.woken, TakeWoken), a.t, PutLeave);
  }

  lemma TakeNotifyKeepsWakeups<T>(s: State<T>, a: Action<T>)
    requires Inv(s) && Enabled(s, a) && a.Notify? && s.pcs[a.t].TakeNotify?
    ensures NoLostWakeup(Step(s, a))
  {
    MovedAll(s.pcs, a.woken, PutWait, PutWoken);
    Moved(MoveAll(s.pcs, a.woken, PutWoken), a.t, TakeLeave);
  }

  lemma StepKeepsWakeups<T>(s: State<T>, a: Action<T>)
    requires Inv(s) && Enabled(s, a)
    ensures NoLostWakeup(Step(s, a))
  {
    hide Step, Inv, NoLostWakeup, At, Wakes;
    match a
    case CallPut(_, _) => CallKeepsWakeups(s, a);
    case CallTake(_) => CallKeepsWakeups(s, a);
    case Lock(_) => LockKeepsWakeups(s, a);
    case Test(_) => TestKeepsWakeups(s, a);
    case Push(_) => ChangeKeepsWakeups(s, a);
    case Pop(_) => ChangeKeepsWakeups(s, a);
    case Notify(_, _) =>
      if s.pcs[a.t].PutNotify? {
        PutNotifyKeepsWakeups(s, a);
      } else {
        TakeNotifyKeepsWakeups(s, a);
      }
    case Unlock(_) => LockKeepsWakeups(s, a);
    case Spurious(_) => CallKeepsWakeups(s, a);
  }

  /** Every state of every run satisfies the invariant. */
  lemma {:induction false} RunInv<T>(run: seq<State<T>>, actions: seq<Action<T>>, i: nat)
    requires IsRun(run, actions) && i < |run|
    ensures Inv(run[i]) && run[i].pcs.Keys == run[0].pcs.Keys && run[i].capacity == run[0].capacity
  {
    if i == 0 {
      InitInv(run[0]);
    } else {
      RunInv(run, actions, i - 1);
      StepKeepsExclusive(run[i - 1], actions[i - 1]);
      StepKeepsGuarded(run[i - 1], actions[i - 1]);
      StepKeepsWakeups(run[i - 1], actions[i - 1]);
    }
  }

  // ----- What the invariant means -----

  /** Whenever the mutex is free, a blocked taker implies at least as many takers already signalled as
      there are items, and a blocked putter at least as many putters signalled as there are free slots. */
  lemma WakeupsNeverLost<T>(run: seq<State<T>>, actions: seq<Action<T>>, i: nat)
    requires IsRun(run, actions) && i < |run| && run[i].owner.None?
    ensures var s := run[i];
            && (At(s.pcs, TakeWait) != {} ==> |At(s.pcs, TakeWoken)| >= |s.queue|)
            && (At(s.pcs, PutWait) != {} ==> |At(s.pcs, PutWoken)| >= s.capacity - |s.queue|)
  {
    RunInv(run, actions, i);
  }

  /** Linearizable FIFO: what was taken, then what is queued, is what was put, item for item;
      and a push never meets a full buffer, so nothing is overwritten. */
  lemma Fifo<T>(run: seq<State<T>>, actions: seq<Action<T>>, i: nat)
    requires IsRun(run, actions) && i < |run|
    ensures run[i].accepted == run[i].taken + run[i].queue && |run[i].queue| <= run[0].capacity
    ensures i < |actions| && actions[i].Push? ==> run[i + 1].queue == run[i].queue + [run[i].item[actions[i].t]]
    ensures i < |actions| && actions[i].Pop? ==> run[i].queue != [] && [run[i + 1].taken[|run[i].taken|]] + run[i + 1].queue == run[i].queue
  {
    RunInv(run, actions, i);
  }

  lemma OwnerProgress<T(!new)>(s: State<T>)
    requires Inv(s) && s.owner.Some?
    ensures exists a: Action<T> :: Enabled(s, a) && !a.CallPut? && !a.CallTake? && !a.Spurious?
  {
    var t := s.owner.value;
    match s.pcs[t] {
      case PutCheck => assert Enabled(s, Test(t));
      case TakeCheck => assert Enabled(s, Test(t));
      case PutPush => assert Enabled(s, Push(t));
      case TakePop => assert Enabled(s, Pop(t));
      case PutNotify => assert Enabled(s, Notify(t, At(s.pcs, TakeWait)));
      case TakeNotify => assert Enabled(s, Notify(t, At(s.pcs, PutWait)));
      case PutLeave => assert Enabled(s, Unlock(t));
      case TakeLeave => assert Enabled(s, Unlock(t));
    }
  }

  /** Deadlock freedom. With room for at least one item, a system in which calls are pending but none can
      advance consists of takers only, waiting on an empty queue, or of putters only, waiting on a full one. */
  lemma DeadlockFree<T(!new)>(run: seq<State<T>>, actions: seq<Action<T>>, i: nat)
    requires IsRun(run, actions) && i < |run| && run[0].capacity >= 1
    requires exists t :: t in run[i].pcs && !run[i].pcs[t].Idle?
    requires forall a: Action<T> :: Enabled(run[i], a) ==> a.CallPut? || a.CallTake? || a.Spurious?
    ensures var s := run[i];
            || (s.queue == [] && forall t :: t in s.pcs ==> s.pcs[t].Idle? || s.pcs[t].TakeWait?)
            || (|s.queue| == s.capacity && forall t :: t in s.pcs ==> s.pcs[t].Idle? || s.pcs[t].PutWait?)
  {
    RunInv(run, actions, i);
    var s := run[i];
    if s.owner.Some? {
      OwnerProgress(s);
    }
    forall t | t in s.pcs ensures s.pcs[t].Idle? || s.pcs[t].TakeWait? || s.pcs[t].PutWait? {
      assert !Enabled(s, Lock(t));
    }
    Nobody(s.pcs, TakeWoken);
    Nobody(s.pcs, PutWoken);
    forall t | t in s.pcs ensures (s.pcs[t].TakeWait? ==> s.queue == []) && (s.pcs[t].PutWait? ==> |s.queue| == s.capacity) {
      Somebody(s.pcs, t);
    }
  }

  /** Capacity 0 is the exception: no item ever goes in or out, so no call ever gets past its wait. */
  lemma ZeroCapacityNeverServes<T>(run: seq<State<T>>, actions: seq<Action<T>>, i: nat)
    requires IsRun(run, actions) && i < |actions| && run[0].capacity == 0
    ensures !actions[i].Push? && !actions[i].Pop? && run[i].accepted == [] && run[i].taken == []
    decreases i
  {
    RunInv(run, actions, i);
    if i > 0 {
      ZeroCapacityNeverServes(run, actions, i - 1);
    }
  }

  // ----- What the calls asked for -----

  /** Where a thread's call stands, told from the actions alone. */
  datatype Call<T> = NoCall | Putting(x: T) | HasPut | Taking | HasTaken

  function Advance<T>(c: Call<T>, a: Action<T>): Call<T> {
    match a
    case CallPut(_, x) => Putting(x)
    case CallTake(_) => Taking
    case Push(_) => HasPut
    case Pop(_) => HasTaken
    case Unlock(_) => NoCall
    case _ => c
  }

  function CallOf<T>(actions: seq<Action<T>>, t: Tid): Call<T> {
    if actions == [] then NoCall
    else
      var before, a := CallOf(actions[..|actions| - 1], t), actions[|actions| - 1];
      if a.t == t then Advance(before, a) else before
  }

  /** The arguments of the puts that have pushed, in the order of their pushes. */
  function Puts<T>(actions: seq<Action<T>>): seq<T> {
    if actions == [] then []
    else
      var front, a := actions[..|actions| - 1], actions[|actions| - 1];
      var c := CallOf(front, a.t);
      Puts(front) + if a.Push? && c.Putting? then [c.x] else []
  }

  function Takes<T>(actions: seq<Action<T>>): nat {
    if actions == [] then 0
    else Takes(actions[..|actions| - 1]) + if actions[|actions| - 1].Pop? then 1 else 0
  }

  ghost predicate Agrees<T(!new)>(pc: Pc, c: Call<T>, item: T) {
    match pc
    case Idle => c == NoCall
    case PutNotify => c == HasPut
    case PutLeave => c == HasPut
    case TakeNotify => c == HasTaken
    case TakeLeave => c == HasTaken
    case TakeEnter => c == Taking
    case TakeCheck => c == Taking
    case TakeWait => c == Taking
    case TakeWoken => c == Taking
    case TakePop => c == Taking
    case _ => c == Putting(item)
  }

  /** The state is what the calls asked for. */
  ghost predicate Tracks<T(!new)>(s: State<T>, actions: seq<Action<T>>) {
    && s.item.Keys == s.pcs.Keys
    && (forall t :: t in s.pcs ==> Agrees(s.pcs[t], CallOf(actions, t), s.item[t]))
    && s.accepted == Puts(actions) && |s.taken| == Takes(actions)
  }

  lemma CallSnoc<T>(actions: seq<Action<T>>, a: Action<T>, t: Tid)
    ensures CallOf(actions + [a], t) == if a.t == t then Advance(CallOf(actions, t), a) else CallOf(actions, t)
  {
    assert (actions + [a])[..|actions|] == actions;
  }

  lemma LogSnoc<T>(actions: seq<Action<T>>, a: Action<T>)
    ensures var c := CallOf(actions, a.t);
            Puts(actions + [a]) == Puts(actions) + if a.Push? && c.Putting? then [c.x] else []
    ensures Takes(actions + [a]) == Takes(actions) + if a.Pop? then 1 else 0
  {
    assert (actions + [a])[..|actions|] == actions;
  }

  lemma OwnStepAgrees<T(!new)>(s: State<T>, a: Action<T>, c: Call<T>)
    requires Enabled(s, a) && s.item.Keys == s.pcs.Keys && Agrees(s.pcs[a.t], c, s.item[a.t])
    ensures Agrees(Step(s, a).pcs[a.t], Advance(c, a), Step(s, a).item[a.t])
  {
  }

  lemma OthersAgree<T(!new)>(s: State<T>, a: Action<T>, c: Call<T>, t: Tid)
    requires Enabled(s, a) && s.item.Keys == s.pcs.Keys && t in s.pcs && t != a.t && Agrees(s.pcs[t], c, s.item[t])
    ensures Agrees(Step(s, a).pcs[t], c, Step(s, a).item[t])
  {
  }

  lemma StepLogs<T>(s: State<T>, a: Action<T>)
    requires Enabled(s, a) && s.item.Keys == s.pcs.Keys
    ensures Step(s, a).item.Keys == Step(s, a).pcs.Keys == s.pcs.Keys
    ensures Step(s, a).accepted == s.accepted + if a.Push? then [s.item[a.t]] else []
    ensures |Step(s, a).taken| == |s.taken| + if a.Pop? then 1 else 0
  {
  }

  lemma PusherIsPutting<T(!new)>(s: State<T>, a: Action<T>, c: Call<T>)
    requires Enabled(s, a) && s.item.Keys == s.pcs.Keys && Agrees(s.pcs[a.t], c, s.item[a.t])
    ensures a.Push? ==> c == Putting(s.item[a.t])
  {
  }

  lemma StepTracks<T(!new)>(s: State<T>, a: Action<T>, actions: seq<Action<T>>)
    requires Tracks(s, actions) && Enabled(s, a)
    ensures Tracks(Step(s, a), actions + [a])
  {
    hide CallOf, Puts, Takes, Step, Agrees;
    var next := Step(s, a);
    LogSnoc(actions, a);
    StepLogs(s, a);
    assert Agrees(s.pcs[a.t], CallOf(actions, a.t), s.item[a.t]);
    PusherIsPutting(s, a, CallOf(actions, a.t));
    forall t | t in next.pcs ensures Agrees(next.pcs[t], CallOf(actions + [a], t), next.item[t]) {
      CallSnoc(actions, a, t);
      assert Agrees(s.pcs[t], CallOf(actions, t), s.item[t]);
      if t == a.t {
        OwnStepAgrees(s, a, CallOf(actions, t));
      } else {
        OthersAgree(s, a, CallOf(actions, t), t);
      }
    }
  }

  lemma {:induction false} RunTracks<T(!new)>(run: seq<State<T>>, actions: seq<Action<T>>, i: nat)
    requires IsRun(run, actions) && i < |run|
    ensures Tracks(run[i], actions[..i])
  {
    hide Step, Enabled, Tracks;
    if i == 0 {
      InitTracks(run[0], actions);
    } else {
      RunTracks(run, actions, i - 1);
      StepTracks(run[i - 1], actions[i - 1], actions[..i - 1]);
      assert actions[..i] == actions[..i - 1] + [actions[i - 1]];
    }
  }

  lemma InitTracks<T(!new)>(s: State<T>, actions: seq<Action<T>>)
    requires Init(s)
    ensures Tracks(s, actions[..0])
  {
  }

  /** An action that begins, serves or ends a call, as opposed to one on the way. */
  predicate Decisive<T>(a: Action<T>) {
    a.CallPut? || a.CallTake? || a.Push? || a.Pop? || a.Unlock?
  }

  lemma {:induction false} LastDecisive<T>(actions: seq<Action<T>>, t: Tid) returns (j: nat)
    requires CallOf(actions, t) != NoCall
    ensures j < |actions| && actions[j].t == t && forall k :: j < k < |actions| && actions[k].t == t ==> !Decisive(actions[k])
    ensures match CallOf(actions, t)
            case Putting(x) => actions[j] == CallPut(t, x)
            case HasPut => actions[j] == Push(t)
            case Taking => actions[j] == CallTake(t)
            case HasTaken => actions[j] == Pop(t)
  {
    var front, a := actions[..|actions| - 1], actions[|actions| - 1];
    if a.t == t && Decisive(a) {
      j := |actions| - 1;
    } else {
      j := LastDecisive(front, t);
    }
  }

  /** Every push serves a put: the thread called put before and has done nothing decisive since, and the queue and the
      ledger grow by exactly the argument of that call. */
  lemma PushServesItsPut<T(!new)>(run: seq<State<T>>, actions: seq<Action<T>>, i: nat) returns (j: nat)
    requires IsRun(run, actions) && i < |actions| && actions[i].Push?
    ensures j < i && actions[j].CallPut? && actions[j].t == actions[i].t
    ensures forall k :: j < k < i && actions[k].t == actions[i].t ==> !Decisive(actions[k])
    ensures run[i + 1].accepted == run[i].accepted + [actions[j].x]
    ensures run[i + 1].queue == run[i].queue + [actions[j].x]
  {
    hide CallOf, Puts, Takes;
    RunTracks(run, actions, i);
    RunInv(run, actions, i);
    assert Agrees(run[i].pcs[actions[i].t], CallOf(actions[..i], actions[i].t), run[i].item[actions[i].t]);
    j := LastDecisive(actions[..i], actions[i].t);
  }

  /** Every call that returns has been served exactly once: its last decisive step is one push or one pop, whichever
      was called for. */
  lemma ReturnsAreServed<T(!new)>(run: seq<State<T>>, actions: seq<Action<T>>, i: nat) returns (called: nat, served: nat)
    requires IsRun(run, actions) && i < |actions| && actions[i].Unlock?
    ensures var t := actions[i].t;
            && called < served < i && actions[called].t == t && actions[served].t == t
            && ((actions[called].CallPut? && actions[served].Push?) || (actions[called].CallTake? && actions[served].Pop?))
            && forall k :: called < k < i && k != served && actions[k].t == t ==> !Decisive(actions[k])
  {
    hide CallOf, Puts, Takes, Step;
    var t := actions[i].t;
    RunTracks(run, actions, i);
    assert Agrees(run[i].pcs[t], CallOf(actions[..i], t), run[i].item[t]);
    served := LastDecisive(actions[..i], t);
    RunTracks(run, actions, served);
    assert Agrees(run[served].pcs[t], CallOf(actions[..served], t), run[served].item[t]);
    called := LastDecisive(actions[..served], t);
  }

  /** The ledger is what the calls asked for: in every state, the items accepted are the arguments of the puts that
      pushed, in that order, and as many items were taken as takes popped. */
  lemma LedgerIsHistory<T(!new)>(run: seq<State<T>>, actions: seq<Action<T>>, i: nat)
    requires IsRun(run, actions) && i < |run|
    ensures run[i].taken + run[i].queue == Puts(actions[..i]) && |run[i].taken| == Takes(actions[..i])
  {
    RunTracks(run, actions, i);
    RunInv(run, actions, i);
  }
}
