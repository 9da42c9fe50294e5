/** muduo::BlockingQueue, the unbounded queue with put, take and drain, as a step system. */
module UnboundedQueue {
  import opened Options
  import opened Threads

  datatype Pc =
    | Idle
    | PutEnter | PutPush | PutNotify | PutLeave
    | TakeEnter | TakeCheck | TakeWait | TakeWoken | TakePop | TakeLeave
    | DrainEnter | DrainMove | DrainLeave

  predicate Holds(pc: Pc) {
    || pc.PutPush? || pc.PutNotify? || pc.PutLeave? || pc.TakeCheck? || pc.TakePop? || pc.TakeLeave?
    || pc.DrainMove? || pc.DrainLeave?
  }

  predicate WantsMutex(pc: Pc) {
    pc.PutEnter? || pc.TakeEnter? || pc.TakeWoken? || pc.DrainEnter?
  }

  datatype State<T> = State(
    queue: seq<T>,
    owner: Option<Tid>,
    pcs: map<Tid, Pc>,
    item: map<Tid, T>,
    accepted: seq<T>,
    removed: seq<T>)           // taken or drained, in order

  datatype Action<T> =
    | CallPut(t: Tid, x: T)
    | CallTake(t: Tid)
    | CallDrain(t: Tid)
    | Lock(t: Tid)
    | Test(t: Tid)
    | Push(t: Tid)
    | Pop(t: Tid)
    | Drain(t: Tid)
    | Notify(t: Tid, woken: set<Tid>)
    | Unlock(t: Tid)
    | Spurious(t: Tid)

  ghost predicate Init<T>(s: State<T>) {
    && s.queue == [] && s.owner.None? && s.accepted == [] && s.removed == []
    && s.item.Keys == s.pcs.Keys
    && forall t :: t in s.pcs ==> s.pcs[t].Idle?
  }

  predicate Enabled<T>(s: State<T>, a: Action<T>) {
    a.t in s.pcs &&
    var pc := s.pcs[a.t];
    match a
    case CallPut(_, _) => pc.Idle?
    case CallTake(_) => pc.Idle?
    case CallDrain(_) => pc.Idle?
    case Lock(_) => s.owner.None? && WantsMutex(pc)
    case Test(_) => pc.TakeCheck?
    case Push(_) => pc.PutPush? && a.t in s.item
    case Pop(_) => pc.TakePop? && s.queue != []
    case Drain(_) => pc.DrainMove?
    case Notify(_, woken) =>
      var waiting := At(s.pcs, TakeWait);
      pc.PutNotify? && woken <= waiting && (waiting != {} ==> woken != {})
    case Unlock(_) => pc.PutLeave? || pc.TakeLeave? || pc.DrainLeave?
    case Spurious(_) => pc.TakeWait?
  }

  function Move<T>(s: State<T>, t: Tid, to: Pc): State<T> {
    s.(pcs := s.pcs[t := to])
  }

  function Locked(pc: Pc): Pc {
    match pc
    case PutEnter => PutPush
    case DrainEnter => DrainMove
    case _ => TakeCheck
  }

  function Step<T>(s: State<T>, a: Action<T>): State<T>
    requires Enabled(s, a)
  {
    match a
    case CallPut(t, x) => Move(s, t, PutEnter).(item := s.item[t := x])
    case CallTake(t) => Move(s, t, TakeEnter)
    case CallDrain(t) => Move(s, t, DrainEnter)
    case Lock(t) => Move(s, t, Locked(s.pcs[t])).(owner := Some(t))
    case Test(t) => if s.queue == [] then Move(s, t, TakeWait).(owner := None) else Move(s, t, TakePop)
    case Push(t) => Move(s, t, PutNotify).(queue := s.queue + [s.item[t]], accepted := s.accepted + [s.item[t]])
    case Pop(t) => Move(s, t, TakeLeave).(queue := s.queue[1..], removed := s.removed + [s.queue[0]])
    case Drain(t) => Move(s, t, DrainLeave).(queue := [], removed := s.removed + s.queue)
    case Notify(t, woken) => s.(pcs := MoveAll(s.pcs, woken, TakeWoken)[t := PutLeave])
    case Unlock(t) => Move(s, t, Idle).(owner := None)
    case Spurious(t) => Move(s, t, TakeWoken)
  }

  ghost predicate IsRun<T>(run: seq<State<T>>, actions: seq<Action<T>>) {
    && |run| == |actions| + 1 && Init(run[0])
    && forall i :: 0 <= i < |actions| ==> Enabled(run[i], actions[i]) && run[i + 1] == Step(run[i], actions[i])
  }

  /** What the surroundings are free to do: start with any threads, call at any time, win a free mutex in any order, wake
      a waiting thread without reason, and let a signal wake one waiter or several. */
  lemma SurroundingsAreFree<T>(item: map<Tid, T>, s: State<T>, t: Tid, x: T, woken: set<Tid>)
    ensures Init(State([], None, map u | u in item :: Idle, item, [], []))
    ensures t in s.pcs && s.pcs[t].Idle? ==> Enabled(s, CallPut(t, x)) && Enabled(s, CallTake(t)) && Enabled(s, CallDrain(t))
    ensures t in s.pcs && s.owner.None? && s.pcs[t] in {PutEnter, TakeEnter, TakeWoken, DrainEnter} ==> Enabled(s, Lock(t))
    ensures t in s.pcs && s.pcs[t].PutNotify? && woken != {} && woken <= At(s.pcs, TakeWait) ==> Enabled(s, Notify(t, woken))
    ensures t in s.pcs && s.pcs[t].TakeWait? ==> Enabled(s, Spurious(t)) && Step(s, Spurious(t)).pcs[t] == TakeWoken
  {
  }

  ghost predicate Exclusive<T>(s: State<T>) {
    && s.item.Keys == s.pcs.Keys
    && (forall t :: t in s.pcs && Holds(s.pcs[t]) ==> s.owner == Some(t))
    && (s.owner.Some? ==> s.owner.value in s.pcs && Holds(s.pcs[s.owner.value]))
  }

  ghost predicate Guarded<T>(s: State<T>) {
    && (forall t :: t in s.pcs && s.pcs[t].TakePop? ==> s.queue != [])
    && s.accepted == s.removed + s.queue
  }

  function AtWork<T>(s: State<T>): nat {
    if s.owner.Some? && s.owner.value in s.pcs then
      var pc := s.pcs[s.owner.value];
      if pc.PutNotify? || pc.TakeCheck? || pc.TakePop? then 1 else 0
    else 0
  }

  ghost predicate NoLostWakeup<T>(s: State<T>) {
    Count(s.pcs, TakeWait) > 0 ==> Count(s.pcs, TakeWoken) + AtWork(s) >= |s.queue|
  }

  ghost predicate Inv<T>(s: State<T>) {
    Exclusive(s) && Guarded(s) && NoLostWakeup(s)
  }

  lemma SimpleStepKeepsInv<T>(s: State<T>, a: Action<T>)
    requires Inv(s) && Enabled(s, a) && (a.CallPut? || a.CallTake? || a.CallDrain?)
    ensures Inv(Step(s, a)) && Step(s, a).pcs.Keys == s.pcs.Keys
  {
    Moved(s.pcs, a.t, Step(s, a).pcs[a.t]);
  }

  lemma SpuriousStepKeepsInv<T>(s: State<T>, a: Action<T>)
    requires Inv(s) && Enabled(s, a) && a.Spurious?
    ensures Inv(Step(s, a)) && Step(s, a).pcs.Keys == s.pcs.Keys
  {
    Moved(s.pcs, a.t, TakeWoken);
  }

  lemma LockStepKeepsInv<T>(s: State<T>, a: Action<T>)
    requires Inv(s) && Enabled(s, a) && (a.Lock? || a.Unlock?)
    ensures Inv(Step(s, a)) && Step(s, a).pcs.Keys == s.pcs.Keys
  {
    Moved(s.pcs, a.t, Step(s, a).pcs[a.t]);
  }

  lemma TestStepKeepsInv<T>(s: State<T>, a: Action<T>)
    requires Inv(s) && Enabled(s, a) && a.Test?
    ensures Inv(Step(s, a)) && Step(s, a).pcs.Keys == s.pcs.Keys
  {
    Moved(s.pcs, a.t, Step(s, a).pcs[a.t]);
  }

  lemma QueueStepKeepsInv<T>(s: State<T>, a: Action<T>)
    requires Inv(s) && Enabled(s, a) && (a.Push? || a.Pop? || a.Drain?)
    ensures Inv(Step(s, a)) && Step(s, a).pcs.Keys == s.pcs.Keys
  {
    Moved(s.pcs, a.t, Step(s, a).pcs[a.t]);
  }

  lemma NotifyStepKeepsInv<T>(s: State<T>, a: Action<T>)
    requires Inv(s) && Enabled(s, a) && a.Notify?
    ensures Inv(Step(s, a)) && Step(s, a).pcs.Keys == s.pcs.Keys
  {
    MovedAll(s.pcs, a.woken, TakeWait, TakeWoken);
    Moved(MoveAll(s.pcs, a.woken, TakeWoken), a.t, PutLeave);
  }

  lemma {:induction false} RunInv<T>(run: seq<State<T>>, actions: seq<Action<T>>, i: nat)
    requires IsRun(run, actions) && i < |run|
    ensures Inv(run[i]) && run[i].pcs.Keys == run[0].pcs.Keys
  {
    hide Step, Enabled, At;
    if i == 0 {
      Nobody(run[0].pcs, TakeWait);
    } else {
      RunInv(run, actions, i - 1);
      var s, a := run[i - 1], actions[i - 1];
      match a
      case CallPut(_, _) => SimpleStepKeepsInv(s, a);
      case CallTake(_) => SimpleStepKeepsInv(s, a);
      case CallDrain(_) => SimpleStepKeepsInv(s, a);
      case Lock(_) => LockStepKeepsInv(s, a);
      case Test(_) => TestStepKeepsInv(s, a);
      case Push(_) => QueueStepKeepsInv(s, a);
      case Pop(_) => QueueStepKeepsInv(s, a);
      case Drain(_) => QueueStepKeepsInv(s, a);
      case Notify(_, _) => NotifyStepKeepsInv(s, a);
      case Unlock(_) => LockStepKeepsInv(s, a);
      case Spurious(_) => SpuriousStepKeepsInv(s, a);
    }
  }

  /** What was taken or drained, then what is queued, is what was put, in every state of every run. */
  lemma Fifo<T>(run: seq<State<T>>, actions: seq<Action<T>>, i: nat)
    requires IsRun(run, actions) && i < |run|
    ensures run[i].accepted == run[i].removed + run[i].queue
  {
    RunInv(run, actions, i);
  }

  /** Whenever the mutex is free, a blocked taker implies at least as many takers signalled as items queued. */
  lemma WakeupsNeverLost<T>(run: seq<State<T>>, actions: seq<Action<T>>, i: nat)
    requires IsRun(run, actions) && i < |run| && run[i].owner.None? && At(run[i].pcs, TakeWait) != {}
    ensures |At(run[i].pcs, TakeWoken)| >= |run[i].queue|
  {
    RunInv(run, actions, i);
  }

  /** If calls are pending and none can advance, then the queue is empty and only takers wait. */
  lemma DeadlockFree<T(!new)>(run: seq<State<T>>, actions: seq<Action<T>>, i: nat)
    requires IsRun(run, actions) && i < |run|
    requires exists t :: t in run[i].pcs && !run[i].pcs[t].Idle?
    requires forall a: Action<T> :: Enabled(run[i], a) ==> a.CallPut? || a.CallTake? || a.CallDrain? || a.Spurious?
    ensures run[i].queue == [] && forall t :: t in run[i].pcs ==> run[i].pcs[t].Idle? || run[i].pcs[t].TakeWait?
  {
    RunInv(run, actions, i);
    var s := run[i];
    if s.owner.Some? {
      OwnerAdvances(s);
    }
    forall t | t in s.pcs ensures s.pcs[t].Idle? || s.pcs[t].TakeWait? {
      assert !Enabled(s, Lock(t));
    }
    Nobody(s.pcs, TakeWoken);
    var t :| t in s.pcs && !s.pcs[t].Idle?;
    Somebody(s.pcs, t);
  }

  lemma OwnerAdvances<T(!new)>(s: State<T>)
    requires Inv(s) && s.owner.Some?
    ensures exists a: Action<T> :: Enabled(s, a) && !a.CallPut? && !a.CallTake? && !a.CallDrain? && !a.Spurious?
  {
    var t := s.owner.value;
    match s.pcs[t] {
      case TakeCheck => assert Enabled(s, Test(t));
      case PutPush => assert Enabled(s, Push(t));
      case TakePop => assert Enabled(s, Pop(t));
      case DrainMove => assert Enabled(s, Drain(t));
      case PutNotify => assert Enabled(s, Notify(t, At(s.pcs, TakeWait)));
      case PutLeave => assert Enabled(s, Unlock(t));
      case TakeLeave => assert Enabled(s, Unlock(t));
      case DrainLeave => assert Enabled(s, Unlock(t));
    }
  }

  // ----- What the calls asked for -----

  /** Where a thread's call stands, told from the actions alone. */
  datatype Call<T> = NoCall | Putting(x: T) | HasPut | Taking | HasTaken | Draining | HasDrained

  function Advance<T>(c: Call<T>, a: Action<T>): Call<T> {
    match a
    case CallPut(_, x) => Putting(x)
    case CallTake(_) => Taking
    case Push(_) => HasPut
    case Pop(_) => HasTaken
    case CallDrain(_) => Draining
    case Drain(_) => HasDrained
    case Unlock(_) => NoCall
    case _ => c
  }

  function CallOf<T>(actions: seq<Action<T>>, t: Tid): Call<T> {
    if actions == [] then NoCall
    else
      var before, a := CallOf(actions[..|actions| - 1], t), actions[|actions| - 1];
      if a.t == t then Advance(before, a) else before
  }

  /** The arguments of the puts that have pushed, in the order of their pushes. */
  function Puts<T>(actions: seq<Action<T>>): seq<T> {
    if actions == [] then []
    else
      var front, a := actions[..|actions| - 1], actions[|actions| - 1];
      var c := CallOf(front, a.t);
      Puts(front) + if a.Push? && c.Putting? then [c.x] else []
  }

  ghost predicate Agrees<T(!new)>(pc: Pc, c: Call<T>, item: T) {
    match pc
    case Idle => c == NoCall
    case PutEnter => c == Putting(item)
    case PutPush => c == Putting(item)
    case PutNotify => c == HasPut
    case PutLeave => c == HasPut
    case TakeLeave => c == HasTaken
    case DrainEnter => c == Draining
    case DrainMove => c == Draining
    case DrainLeave => c == HasDrained
    case _ => c == Taking
  }

  /** The state is what the calls asked for. */
  ghost predicate Tracks<T(!new)>(s: State<T>, actions: seq<Action<T>>) {
    && s.item.Keys == s.pcs.Keys
    && (forall t :: t in s.pcs ==> Agrees(s.pcs[t], CallOf(actions, t), s.item[t]))
    && s.accepted == Puts(actions)
  }

  lemma CallSnoc<T>(actions: seq<Action<T>>, a: Action<T>, t: Tid)
    ensures CallOf(actions + [a], t) == if a.t == t then Advance(CallOf(actions, t), a) else CallOf(actions, t)
  {
    assert (actions + [a])[..|actions|] == actions;
  }

  lemma LogSnoc<T>(actions: seq<Action<T>>, a: Action<T>)
    ensures var c := CallOf(actions, a.t);
            Puts(actions + [a]) == Puts(actions) + if a.Push? && c.Putting? then [c.x] else []
  {
    assert (actions + [a])[..|actions|] == actions;
  }

  lemma OwnStepAgrees<T(!new)>(s: State<T>, a: Action<T>, c: Call<T>)
    requires Enabled(s, a) && s.item.Keys == s.pcs.Keys && Agrees(s.pcs[a.t], c, s.item[a.t])
    ensures Agrees(Step(s, a).pcs[a.t], Advance(c, a), Step(s, a).item[a.t])
  {
  }

  lemma OthersAgree<T(!new)>(s: State<T>, a: Action<T>, c: Call<T>, t: Tid)
    requires Enabled(s, a) && s.item.Keys == s.pcs.Keys && t in s.pcs && t != a.t && Agrees(s.pcs[t], c, s.item[t])
    ensures Agrees(Step(s, a).pcs[t], c, Step(s, a).item[t])
  {
  }

  lemma StepLogs<T>(s: State<T>, a: Action<T>)
    requires Enabled(s, a) && s.item.Keys == s.pcs.Keys
    ensures Step(s, a).item.Keys == Step(s, a).pcs.Keys == s.pcs.Keys
    ensures Step(s, a).accepted == s.accepted + if a.Push? then [s.item[a.t]] else []
  {
  }

  lemma PusherIsPutting<T(!new)>(s: State<T>, a: Action<T>, c: Call<T>)
    requires Enabled(s, a) && s.item.Keys == s.pcs.Keys && Agrees(s.pcs[a.t], c, s.item[a.t])
    ensures a.Push? ==> c == Putting(s.item[a.t])
  {
  }

  lemma StepTracks<T(!new)>(s: State<T>, a: Action<T>, actions: seq<Action<T>>)
    requires Tracks(s, actions) && Enabled(s, a)
    ensures Tracks(Step(s, a), actions + [a])
  {
    hide CallOf, Puts, Step, Agrees;
    var next := Step(s, a);
    LogSnoc(actions, a);
    StepLogs(s, a);
    assert Agrees(s.pcs[a.t], CallOf(actions, a.t), s.item[a.t]);
    PusherIsPutting(s, a, CallOf(actions, a.t));
    forall t | t in next.pcs ensures Agrees(next.pcs[t], CallOf(actions + [a], t), next.item[t]) {
      CallSnoc(actions, a, t);
      assert Agrees(s.pcs[t], CallOf(actions, t), s.item[t]);
      if t == a.t {
        OwnStepAgrees(s, a, CallOf(actions, t));
      } else {
        OthersAgree(s, a, CallOf(actions, t), t);
      }
    }
  }

  lemma {:induction false} RunTracks<T(!new)>(run: seq<State<T>>, actions: seq<Action<T>>, i: nat)
    requires IsRun(run, actions) && i < |run|
    ensures Tracks(run[i], actions[..i])
  {
    hide Step, Enabled, Tracks;
    if i == 0 {
      InitTracks(run[0], actions);
    } else {
      RunTracks(run, actions, i - 1);
      StepTracks(run[i - 1], actions[i - 1], actions[..i - 1]);
      assert actions[..i] == actions[..i - 1] + [actions[i - 1]];
    }
  }

  lemma InitTracks<T(!new)>(s: State<T>, actions: seq<Action<T>>)
    requires Init(s)
    ensures Tracks(s, actions[..0])
  {
  }

  /** An action that begins, serves or ends a call, as opposed to one on the way. */
  predicate Decisive<T>(a: Action<T>) {
    a.CallPut? || a.CallTake? || a.CallDrain? || a.Push? || a.Pop? || a.Drain? || a.Unlock?
  }

  lemma {:induction false} LastDecisive<T>(actions: seq<Action<T>>, t: Tid) returns (j: nat)
    requires CallOf(actions, t) != NoCall
    ensures j < |actions| && actions[j].t == t && forall k :: j < k < |actions| && actions[k].t == t ==> !Decisive(actions[k])
    ensures match CallOf(actions, t)
            case Putting(x) => actions[j] == CallPut(t, x)
            case HasPut => actions[j] == Push(t)
            case Taking => actions[j] == CallTake(t)
            case HasTaken => actions[j] == Pop(t)
            case Draining => actions[j] == CallDrain(t)
            case HasDrained => actions[j] == Drain(t)
  {
    var front, a := actions[..|actions| - 1], actions[|actions| - 1];
    if a.t == t && Decisive(a) {
      j := |actions| - 1;
    } else {
      j := LastDecisive(front, t);
    }
  }

  /** Every push serves a put: the thread called put before and has done nothing decisive since, and the queue and the
      ledger grow by exactly the argument of that call. */
  lemma PushServesItsPut<T(!new)>(run: seq<State<T>>, actions: seq<Action<T>>, i: nat) returns (j: nat)
    requires IsRun(run, actions) && i < |actions| && actions[i].Push?
    ensures j < i && actions[j].CallPut? && actions[j].t == actions[i].t
    ensures forall k :: j < k < i && actions[k].t == actions[i].t ==> !Decisive(actions[k])
    ensures run[i + 1].accepted == run[i].accepted + [actions[j].x]
    ensures run[i + 1].queue == run[i].queue + [actions[j].x]
  {
    hide CallOf, Puts;
    RunTracks(run, actions, i);
    RunInv(run, actions, i);
    assert Agrees(run[i].pcs[actions[i].t], CallOf(actions[..i], actions[i].t), run[i].item[actions[i].t]);
    j := LastDecisive(actions[..i], actions[i].t);
  }

  /** Every call that returns has been served exactly once: its last decisive step is one push, one pop or one drain,
      whichever was called for. */
  lemma ReturnsAreServed<T(!new)>(run: seq<State<T>>, actions: seq<Action<T>>, i: nat) returns (called: nat, served: nat)
    requires IsRun(run, actions) && i < |actions| && actions[i].Unlock?
    ensures var t := actions[i].t;
            && called < served < i && actions[called].t == t && actions[served].t == t
            && (if actions[called].CallPut? then actions[served].Push?
                else if actions[called].CallTake? then actions[served].Pop?
                else actions[called].CallDrain? && actions[served].Drain?)
            && forall k :: called < k < i && k != served && actions[k].t == t ==> !Decisive(actions[k])
  {
    hide CallOf, Puts, Step;
    var t := actions[i].t;
    RunTracks(run, actions, i);
    assert Agrees(run[i].pcs[t], CallOf(actions[..i], t), run[i].item[t]);
    served := LastDecisive(actions[..i], t);
    RunTracks(run, actions, served);
    assert Agrees(run[served].pcs[t], CallOf(actions[..served], t), run[served].item[t]);
    called := LastDecisive(actions[..served], t);
  }

  /** The ledger is what the calls asked for: in every state, the items removed and then those queued are the arguments
      of the puts that pushed, in that order; a pop removes the first item and a drain all of them. */
  lemma LedgerIsHistory<T(!new)>(run: seq<State<T>>, actions: seq<Action<T>>, i: nat)
    requires IsRun(run, actions) && i < |run|
    ensures run[i].removed + run[i].queue == Puts(actions[..i])
    ensures i < |actions| ==>
              |run[i + 1].removed| == |run[i].removed| + if actions[i].Pop? then 1 else if actions[i].Drain? then |run[i].queue| else 0
  {
    hide CallOf, Puts, Agrees, At;
    RunTracks(run, actions, i);
    Fifo(run, actions, i);
  }
}
