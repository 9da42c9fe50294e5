/** From the wire to the game loop under every interleaving: one I/O thread per connection runs onMessage,
    one consumer runs DispatchMsg, and the packet queue is shared between them. */
module PacketFlow {
  import opened Options
  import opened Framing
  import opened Dispatch

  /** An I/O thread in onMessage. The current body stays in the buffer until `Consuming` is over. */
  datatype IoPc =
    | Parked                   // onMessage returned
    | Scanning                 // at the head of the while loop
    | Wanting(body: Bytes)     // header dropped, packet built, about to lock the queue
    | Pushing(body: Bytes)     // holds the lock
    | Releasing(body: Bytes)   // pushed, still holds the lock
    | Consuming(body: Bytes)   // about to drop the body from the buffer

  datatype Conn = Conn(received: Bytes, buffer: Bytes, pc: IoPc)

  /** The consumer in GetPack and DispatchMsg. */
  datatype ConsumerPc =
    | Ready
    | Seen                     // saw a non-empty queue without holding the lock
    | Holding                  // holds the lock, about to pop
    | Popped(p: Packet)        // still holds the lock
    | Got(p: Packet)

  datatype Role = Io(c: nat) | Consumer

  datatype State = State(
    conns: map<nat, Conn>,
    queue: seq<Packet>,
    owner: Option<Role>,
    consumer: ConsumerPc,
    popped: seq<Packet>,       // everything GetPack ever returned
    dispatched: seq<Packet>,   // everything a callback was called with
    fault: bool)               // front() or pop() was called on an empty queue

  datatype Action =
    | Arrive(c: nat, chunk: Bytes)
    | Scan(c: nat) | LockIo(c: nat) | Push(c: nat) | UnlockIo(c: nat) | Consume(c: nat)
    | See | LockConsumer | Pop | UnlockConsumer | Dispatch

  ghost predicate Init(s: State) {
    && (forall c :: c in s.conns ==> s.conns[c] == Conn([], [], Parked))
    && s.queue == [] && s.owner.None? && s.consumer.Ready? && s.popped == [] && s.dispatched == [] && !s.fault
  }

  predicate IoEnabled(s: State, c: nat, a: Action) {
    c in s.conns &&
    var pc := s.conns[c].pc;
    match a
    case Arrive(_, _) => pc.Parked?
    case Scan(_) => pc.Scanning?
    case LockIo(_) => pc.Wanting? && s.owner.None?
    case Push(_) => pc.Pushing?
    case UnlockIo(_) => pc.Releasing?
    case Consume(_) => pc.Consuming? && |pc.body| <= |s.conns[c].buffer|
    case _ => false
  }

  predicate Enabled(s: State, a: Action) {
    match a
    case See => s.consumer.Ready?
    case LockConsumer => s.consumer.Seen? && s.owner.None?
    case Pop => s.consumer.Holding?
    case UnlockConsumer => s.consumer.Popped?
    case Dispatch => s.consumer.Got?
    case _ => IoEnabled(s, a.c, a)
  }

  function Set(s: State, c: nat, conn: Conn): State {
    s.(conns := s.conns[c := conn])
  }

  function Arrived(conn: Conn, chunk: Bytes): Conn {
    Conn(conn.received + chunk, conn.buffer + chunk, Scanning)
  }

  function Scanned(conn: Conn): Conn {
    if HasFrame(conn.buffer) then
      var body := conn.buffer[HEADER..HEADER + BodyLength(conn.buffer)];
      conn.(buffer := conn.buffer[HEADER..], pc := Wanting(body))
    else conn.(pc := Parked)
  }

  function Consumed(conn: Conn): Conn
    requires conn.pc.Consuming? && |conn.pc.body| <= |conn.buffer|
  {
    conn.(buffer := conn.buffer[|conn.pc.body|..], pc := Scanning)
  }

  /** `mallocZero` says whether malloc(0) yields a block; without one DispatchMsg skips the packet. */
  function IoStep(s: State, a: Action, c: nat, mallocZero: bool): State
    requires IoEnabled(s, c, a)
  {
    var conn := s.conns[c];
    match a
    case Arrive(_, chunk) => Set(s, c, Arrived(conn, chunk))
    case Scan(_) => Set(s, c, Scanned(conn))
    case LockIo(_) => Set(s, c, conn.(pc := Pushing(conn.pc.body))).(owner := Some(Io(c)))
    case Push(_) => Set(s, c, conn.(pc := Releasing(conn.pc.body))).(queue := s.queue + [PacketOf(c, conn.pc.body, mallocZero)])
    case UnlockIo(_) => Set(s, c, conn.(pc := Consuming(conn.pc.body))).(owner := None)
    case Consume(_) => Set(s, c, Consumed(conn))
  }

  function Step(s: State, a: Action, mallocZero: bool): State
    requires Enabled(s, a)
  {
    match a
    case See => if s.queue == [] then s else s.(consumer := Seen)
    case LockConsumer => s.(consumer := Holding, owner := Some(Consumer))
    case Pop =>
      if s.queue == [] then s.(fault := true)
      else s.(consumer := Popped(s.queue[0]), queue := s.queue[1..], popped := s.popped + [s.queue[0]])
    case UnlockConsumer => s.(consumer := Got(s.consumer.p), owner := None)
    case Dispatch =>
      var p := s.consumer.p;
      s.(consumer := Ready, dispatched := s.dispatched + if p.hasBuffer then [p] else [])
    case _ => IoStep(s, a, a.c, mallocZero)
  }

  ghost predicate IsRun(run: seq<State>, actions: seq<Action>, mallocZero: bool) {
    && |run| == |actions| + 1 && Init(run[0])
    && forall i :: 0 <= i < |actions| ==>
         Enabled(run[i], actions[i]) && run[i + 1] == Step(run[i], actions[i], mallocZero)
  }

  // ----- Projections -----

  /** The bodies of one connection's packets, in order. */
  function Of(ps: seq<Packet>, c: nat): seq<Bytes> {
    if ps == [] then []
    else Of(ps[..|ps| - 1], c) + if ps[|ps| - 1].dnid == c then [ps[|ps| - 1].body] else []
  }

  lemma OfSnoc(ps: seq<Packet>, p: Packet, c: nat)
    ensures Of(ps + [p], c) == Of(ps, c) + if p.dnid == c then [p.body] else []
  {
    assert (ps + [p])[..|ps|] == ps;
  }

  // ----- The invariant -----

  predicate OwnsLock(pc: IoPc) { pc.Pushing? || pc.Releasing? }

  /** A body taken off the buffer's head but not pushed yet. */
  function InFlight(conn: Conn): seq<Bytes> {
    if conn.pc.Wanting? || conn.pc.Pushing? then [conn.pc.body] else []
  }

  function BodyInBuffer(conn: Conn): Bytes {
    if conn.pc.Parked? || conn.pc.Scanning? then [] else conn.pc.body
  }

  /** The buffer starts with the current body; the rest is not looked at yet. */
  ghost predicate ConnInv(conn: Conn) {
    && BodyInBuffer(conn) <= conn.buffer
    && (conn.pc.Parked? ==> !HasFrame(conn.buffer))
  }

  function Unscanned(conn: Conn): Bytes
    requires BodyInBuffer(conn) <= conn.buffer
  {
    conn.buffer[|BodyInBuffer(conn)|..]
  }

  /** What the connection's thread still has to push. */
  function Ahead(conn: Conn): seq<Bytes>
    requires BodyInBuffer(conn) <= conn.buffer
  {
    InFlight(conn) + Bodies(Unscanned(conn))
  }

  /** Nothing lost, nothing invented: what was pushed and what is still ahead are the bodies of all bytes received. */
  ghost predicate Balanced(pushed: seq<Bytes>, conn: Conn) {
    && ConnInv(conn)
    && Bodies(conn.received) == pushed + Ahead(conn)
    && Rest(conn.received) == Rest(Unscanned(conn))
  }

  function Pushed(s: State, c: nat): seq<Bytes> {
    Of(s.popped + s.queue, c)
  }

  ghost predicate Locking(s: State) {
    && (forall c :: c in s.conns ==> (OwnsLock(s.conns[c].pc) <==> s.owner == Some(Io(c))))
    && (s.owner == Some(Consumer) <==> s.consumer.Holding? || s.consumer.Popped?)
    && (s.owner.Some? && s.owner.value.Io? ==> s.owner.value.c in s.conns)
  }

  /** Only the consumer removes packets, so what it saw is still there when it pops. */
  ghost predicate ConsumerInv(s: State) {
    && !s.fault
    && (s.consumer.Seen? || s.consumer.Holding? ==> s.queue != [])
    && (if s.consumer.Popped? || s.consumer.Got? then
          s.popped != [] && s.popped[|s.popped| - 1] == s.consumer.p
          && s.dispatched == Delivered(s.popped[..|s.popped| - 1])
        else s.dispatched == Delivered(s.popped))
  }

  ghost predicate Inv(s: State) {
    Locking(s) && ConsumerInv(s) && forall c :: c in s.conns ==> Balanced(Pushed(s, c), s.conns[c])
  }

  lemma ConsumerStepKeepsLocking(s: State, a: Action, mallocZero: bool)
    requires Locking(s) && ConsumerInv(s) && Enabled(s, a)
    requires a.See? || a.LockConsumer? || a.Pop? || a.UnlockConsumer? || a.Dispatch?
    ensures Locking(Step(s, a, mallocZero)) && ConsumerInv(Step(s, a, mallocZero))
  {
    if a.Pop? {
      var n := |s.popped|;
      assert (s.popped + [s.queue[0]])[..n] == s.popped;
    } else if a.Dispatch? {
      var n := |s.popped| - 1;
      assert s.popped == s.popped[..n] + [s.consumer.p];
      DeliveredSnoc(s.popped[..n], s.consumer.p);
    }
  }

  /** Popping moves a packet from one log to the next; the order of all pushed packets stays. */
  lemma ConsumerStepKeepsPushed(s: State, a: Action, mallocZero: bool)
    requires ConsumerInv(s) && Enabled(s, a)
    requires a.See? || a.LockConsumer? || a.Pop? || a.UnlockConsumer? || a.Dispatch?
    ensures var next := Step(s, a, mallocZero);
            next.conns == s.conns && next.popped + next.queue == s.popped + s.queue
  {
    hide Delivered;
    if a.Pop? {
      assert s.popped + [s.queue[0]] + s.queue[1..] == s.popped + s.queue;
    }
  }

  lemma IoStepKeepsLocking(s: State, a: Action, c: nat, mallocZero: bool)
    requires Locking(s) && ConsumerInv(s) && IoEnabled(s, c, a) && Enabled(s, a)
    ensures Locking(IoStep(s, a, c, mallocZero)) && ConsumerInv(IoStep(s, a, c, mallocZero))
  {
    hide HasFrame, Delivered;
  }

  lemma IoStepPushes(s: State, a: Action, c: nat, mallocZero: bool)
    requires IoEnabled(s, c, a)
    ensures var next := IoStep(s, a, c, mallocZero);
            && next.conns.Keys == s.conns.Keys
            && (forall d :: d in s.conns && d != c ==> next.conns[d] == s.conns[d])
            && next.popped + next.queue
            == s.popped + s.queue + if a.Push? then [PacketOf(c, s.conns[c].pc.body, mallocZero)] else []
  {
    hide Arrived, Scanned, Consumed, HasFrame;
    if a.Push? {
      var p := PacketOf(c, s.conns[c].pc.body, mallocZero);
      assert s.popped + (s.queue + [p]) == s.popped + s.queue + [p];
    }
  }

  lemma PushGrows(s: State, a: Action, c: nat, mallocZero: bool, d: nat)
    requires IoEnabled(s, c, a)
    ensures Pushed(IoStep(s, a, c, mallocZero), d)
         == Pushed(s, d) + if a.Push? && d == c then [s.conns[c].pc.body] else []
  {
    hide IoStep, Of;
    IoStepPushes(s, a, c, mallocZero);
    if a.Push? {
      OfSnoc(s.popped + s.queue, PacketOf(c, s.conns[c].pc.body, mallocZero), d);
    } else {
      assert s.popped + s.queue + [] == s.popped + s.queue;
    }
  }

  lemma StuckDecodesToNothing(s: Bytes)
    requires !HasFrame(s)
    ensures Bodies(s) == [] && Rest(s) == s
  {
  }

  lemma ArrivedBalanced(pushed: seq<Bytes>, conn: Conn, chunk: Bytes)
    requires Balanced(pushed, conn) && conn.pc.Parked?
    ensures Balanced(pushed, Arrived(conn, chunk))
  {
    hide HasFrame, Bodies, Rest;
    DecodeResumes(conn.received, chunk);
    StuckDecodesToNothing(conn.buffer);
    var next := Arrived(conn, chunk);
    assert Unscanned(conn) == conn.buffer && Unscanned(next) == conn.buffer + chunk;
    assert Ahead(conn) == [] && Ahead(next) == Bodies(conn.buffer + chunk);
  }

  lemma ScannedBalanced(pushed: seq<Bytes>, conn: Conn)
    requires Balanced(pushed, conn) && conn.pc.Scanning?
    ensures Balanced(pushed, Scanned(conn))
  {
    hide BodyLength;
    var next := Scanned(conn);
    assert Unscanned(conn) == conn.buffer;
    if HasFrame(conn.buffer) {
      var n := HEADER + BodyLength(conn.buffer);
      assert conn.buffer[HEADER..][n - HEADER..] == conn.buffer[n..];
      assert conn.buffer[HEADER..n] == conn.buffer[HEADER..][..n - HEADER];
      assert Unscanned(next) == conn.buffer[n..];
      assert Ahead(next) == Ahead(conn);
    } else {
      assert Unscanned(next) == conn.buffer;
    }
  }

  lemma PushedBalanced(pushed: seq<Bytes>, conn: Conn)
    requires Balanced(pushed, conn) && conn.pc.Pushing?
    ensures Balanced(pushed + [conn.pc.body], conn.(pc := Releasing(conn.pc.body)))
  {
    hide Bodies, Rest, HasFrame;
    var next := conn.(pc := Releasing(conn.pc.body));
    assert Unscanned(next) == Unscanned(conn);
    assert pushed + ([conn.pc.body] + Bodies(Unscanned(conn))) == pushed + [conn.pc.body] + Bodies(Unscanned(conn));
    assert Ahead(next) == Bodies(Unscanned(conn));
  }

  lemma ConsumedBalanced(pushed: seq<Bytes>, conn: Conn)
    requires Balanced(pushed, conn) && conn.pc.Consuming?
    ensures Balanced(pushed, Consumed(conn))
  {
    hide Bodies, Rest, HasFrame;
    assert Unscanned(Consumed(conn)) == Unscanned(conn);
  }

  lemma IoStepBalanced(s: State, a: Action, c: nat, mallocZero: bool)
    requires IoEnabled(s, c, a) && Balanced(Pushed(s, c), s.conns[c])
    ensures Balanced(Pushed(IoStep(s, a, c, mallocZero), c), IoStep(s, a, c, mallocZero).conns[c])
  {
    hide Arrived, Scanned, Consumed, HasFrame, Bodies, Rest, Of, Pushed;
    var pushed, conn := Pushed(s, c), s.conns[c];
    PushGrows(s, a, c, mallocZero, c);
    assert pushed + [] == pushed;
    match a
    case Arrive(_, chunk) => ArrivedBalanced(pushed, conn, chunk);
    case Scan(_) => ScannedBalanced(pushed, conn);
    case LockIo(_) =>
    case Push(_) => PushedBalanced(pushed, conn);
    case UnlockIo(_) =>
    case Consume(_) => ConsumedBalanced(pushed, conn);
  }

  lemma IoStepKeepsInv(s: State, a: Action, mallocZero: bool)
    requires Inv(s) && Enabled(s, a)
    requires !(a.See? || a.LockConsumer? || a.Pop? || a.UnlockConsumer? || a.Dispatch?)
    ensures Inv(Step(s, a, mallocZero)) && Step(s, a, mallocZero).conns.Keys == s.conns.Keys
  {
    hide Balanced, Locking, ConsumerInv, IoStep, Pushed, IoEnabled;
    var c, next := a.c, Step(s, a, mallocZero);
    IoStepKeepsLocking(s, a, c, mallocZero);
    IoStepPushes(s, a, c, mallocZero);
    forall d | d in s.conns ensures Balanced(Pushed(next, d), next.conns[d]) {
      if d != c {
        PushGrows(s, a, c, mallocZero, d);
        assert Pushed(s, d) + [] == Pushed(s, d);
      } else {
        IoStepBalanced(s, a, c, mallocZero);
      }
    }
  }

  lemma ConsumerStepKeepsInv(s: State, a: Action, mallocZero: bool)
    requires Inv(s) && Enabled(s, a)
    requires a.See? || a.LockConsumer? || a.Pop? || a.UnlockConsumer? || a.Dispatch?
    ensures Inv(Step(s, a, mallocZero)) && Step(s, a, mallocZero).conns.Keys == s.conns.Keys
  {
    hide Balanced, Locking, ConsumerInv, Step;
    ConsumerStepKeepsLocking(s, a, mallocZero);
    ConsumerStepKeepsPushed(s, a, mallocZero);
  }

  lemma InitInv(s: State)
    requires Init(s)
    ensures Inv(s)
  {
    StuckDecodesToNothing([]);
  }

  /** Every state of every interleaving. */
  lemma {:induction false} RunInv(run: seq<State>, actions: seq<Action>, mallocZero: bool, i: nat)
    requires IsRun(run, actions, mallocZero) && i < |run|
    ensures Inv(run[i]) && run[i].conns.Keys == run[0].conns.Keys
  {
    hide Step, Enabled, Inv, Init;
    if i == 0 {
      InitInv(run[0]);
    } else {
      RunInv(run, actions, mallocZero, i - 1);
      var a := actions[i - 1];
      if a.See? || a.LockConsumer? || a.Pop? || a.UnlockConsumer? || a.Dispatch? {
        ConsumerStepKeepsInv(run[i - 1], a, mallocZero);
      } else {
        IoStepKeepsInv(run[i - 1], a, mallocZero);
      }
    }
  }

  /** The unlocked test of GetPack is sound with a single consumer: the queue is never popped when empty. */
  lemma NeverPopsEmpty(run: seq<State>, actions: seq<Action>, mallocZero: bool, i: nat)
    requires IsRun(run, actions, mallocZero) && i < |run|
    ensures !run[i].fault
    ensures i < |actions| && actions[i].Pop? ==> run[i].queue != []
  {
    RunInv(run, actions, mallocZero, i);
  }

  /** The bytes a connection was sent, told from the actions alone. */
  function Arrivals(actions: seq<Action>, c: nat): Bytes {
    if actions == [] then []
    else
      var a := actions[|actions| - 1];
      Arrivals(actions[..|actions| - 1], c) + if a.Arrive? && a.c == c then a.chunk else []
  }

  lemma {:induction false} ReceivedIsArrived(run: seq<State>, actions: seq<Action>, mallocZero: bool, i: nat, c: nat)
    requires IsRun(run, actions, mallocZero) && i < |run| && c in run[i].conns
    ensures run[i].conns[c].received == Arrivals(actions[..i], c)
  {
    hide Step, Enabled, Inv;
    if i > 0 {
      RunInv(run, actions, mallocZero, i);
      RunInv(run, actions, mallocZero, i - 1);
      ReceivedIsArrived(run, actions, mallocZero, i - 1, c);
      StepReceives(run[i - 1], actions[i - 1], mallocZero, c);
      assert actions[..i][..i - 1] == actions[..i - 1];
    }
  }

  lemma StepReceives(s: State, a: Action, mallocZero: bool, c: nat)
    requires Enabled(s, a) && c in s.conns
    ensures var next := Step(s, a, mallocZero);
            c in next.conns && next.conns[c].received == s.conns[c].received + if a.Arrive? && a.c == c then a.chunk else []
  {
    hide HasFrame, BodyLength;
  }

  /** Nobody gets stuck: while anything is queued or on its way, some step other than an arrival changes something. */
  lemma NeverStuck(run: seq<State>, actions: seq<Action>, mallocZero: bool, i: nat, c: nat) returns (a: Action)
    requires IsRun(run, actions, mallocZero) && i < |run|
    requires run[i].queue != [] || !run[i].consumer.Ready? || (c in run[i].conns && !run[i].conns[c].pc.Parked?)
    ensures Enabled(run[i], a) && Step(run[i], a, mallocZero) != run[i] && !a.Arrive?
  {
    hide HasFrame, BodyLength, Delivered;
    RunInv(run, actions, mallocZero, i);
    a := NextStep(run[i], c, mallocZero);
  }

  lemma NextStep(s: State, c: nat, mallocZero: bool) returns (a: Action)
    requires Locking(s) && ConsumerInv(s) && forall d :: d in s.conns ==> ConnInv(s.conns[d])
    requires s.queue != [] || !s.consumer.Ready? || (c in s.conns && !s.conns[c].pc.Parked?)
    ensures Enabled(s, a) && Step(s, a, mallocZero) != s && !a.Arrive?
  {
    hide HasFrame, BodyLength, Delivered;
    if s.owner.Some? && s.owner.value.Io? {
      a := IoNext(s, s.owner.value.c, mallocZero);
    } else if s.consumer.Ready? && s.queue == [] {
      a := IoNext(s, c, mallocZero);
    } else {
      a := match s.consumer
        case Ready => See
        case Seen => LockConsumer
        case Holding => Pop
        case Popped(_) => UnlockConsumer
        case Got(_) => Dispatch;
      assert Step(s, a, mallocZero).consumer != s.consumer;
    }
  }

  lemma IoNext(s: State, c: nat, mallocZero: bool) returns (a: Action)
    requires c in s.conns && !s.conns[c].pc.Parked? && ConnInv(s.conns[c])
    requires s.conns[c].pc.Wanting? ==> s.owner.None?
    ensures Enabled(s, a) && Step(s, a, mallocZero) != s && !a.Arrive?
  {
    hide HasFrame, BodyLength, Delivered;
    a := match s.conns[c].pc
      case Scanning => Scan(c)
      case Wanting(_) => LockIo(c)
      case Pushing(_) => Push(c)
      case Releasing(_) => UnlockIo(c)
      case _ => Consume(c);
    assert Step(s, a, mallocZero).conns[c].pc != s.conns[c].pc;
  }

  /** Any connections may be there, and bytes may arrive whenever a connection's thread is idle. */
  lemma SurroundingsAreFree(connections: set<nat>, s: State, c: nat, chunk: Bytes)
    ensures Init(State(map d | d in connections :: Conn([], [], Parked), [], None, Ready, [], [], false))
    ensures c in s.conns && s.conns[c].pc.Parked? ==> Enabled(s, Arrive(c, chunk))
  {
  }

  /** Per connection, the packets popped so far, in order, are a prefix of the bodies of the bytes received so far. */
  lemma PoppedInOrder(run: seq<State>, actions: seq<Action>, mallocZero: bool, i: nat, c: nat)
    requires IsRun(run, actions, mallocZero) && i < |run| && c in run[i].conns
    ensures Of(run[i].popped, c) <= Bodies(Arrivals(actions[..i], c))
  {
    hide Of, Step, Bodies, Rest, Enabled, Init, Arrivals;
    RunInv(run, actions, mallocZero, i);
    ReceivedIsArrived(run, actions, mallocZero, i, c);
    OfPrefix(run[i].popped, run[i].queue, c);
  }

  lemma {:induction false} OfPrefix(a: seq<Packet>, b: seq<Packet>, c: nat)
    ensures Of(a, c) <= Of(a + b, c)
    decreases |b|
  {
    if b == [] {
      assert a + b == a;
    } else {
      var front := b[..|b| - 1];
      OfPrefix(a, front, c);
      assert (a + b)[..|a + b| - 1] == a + front;
    }
  }

  lemma DispatchedIsDelivered(run: seq<State>, actions: seq<Action>, mallocZero: bool, i: nat) returns (n: nat)
    requires IsRun(run, actions, mallocZero) && i < |run|
    ensures |run[i].popped| - 1 <= n <= |run[i].popped| && run[i].dispatched == Delivered(run[i].popped[..n])
  {
    hide Step, Delivered, Balanced, Enabled, Init;
    RunInv(run, actions, mallocZero, i);
    var s := run[i];
    n := if s.consumer.Popped? || s.consumer.Got? then |s.popped| - 1 else |s.popped|;
    assert s.popped[..|s.popped|] == s.popped;
  }

  /** The bodies DispatchMsg does not skip. */
  function Visible(bodies: seq<Bytes>, mallocZero: bool): seq<Bytes> {
    if bodies == [] then []
    else
      var last := bodies[|bodies| - 1];
      Visible(bodies[..|bodies| - 1], mallocZero) + if last != [] || mallocZero then [last] else []
  }

  ghost predicate AllBuilt(ps: seq<Packet>, mallocZero: bool) {
    forall k :: 0 <= k < |ps| ==> ps[k] == PacketOf(ps[k].dnid, ps[k].body, mallocZero)
  }

  lemma {:induction false} OfDelivered(ps: seq<Packet>, c: nat, mallocZero: bool)
    requires AllBuilt(ps, mallocZero)
    ensures Of(Delivered(ps), c) == Visible(Of(ps, c), mallocZero)
  {
    if ps != [] {
      var front, last := ps[..|ps| - 1], ps[|ps| - 1];
      OfDelivered(front, c, mallocZero);
      OfSnoc(Delivered(front), last, c);
      if last.dnid == c {
        assert (Of(front, c) + [last.body])[..|Of(front, c)|] == Of(front, c);
      }
      assert Delivered(front) + [] == Delivered(front) && Of(front, c) + [] == Of(front, c);
    }
  }

  lemma {:induction false} RunBuilt(run: seq<State>, actions: seq<Action>, mallocZero: bool, i: nat)
    requires IsRun(run, actions, mallocZero) && i < |run|
    ensures AllBuilt(run[i].popped + run[i].queue, mallocZero)
  {
    hide Step, Inv, Delivered, IoStep, IoEnabled;
    if i > 0 {
      RunBuilt(run, actions, mallocZero, i - 1);
      RunInv(run, actions, mallocZero, i - 1);
      StepBuilt(run[i - 1], actions[i - 1], mallocZero);
    }
  }

  lemma StepBuilt(s: State, a: Action, mallocZero: bool)
    requires Inv(s) && Enabled(s, a) && AllBuilt(s.popped + s.queue, mallocZero)
    ensures var next := Step(s, a, mallocZero); AllBuilt(next.popped + next.queue, mallocZero)
  {
    hide Balanced, Locking, IoStep, IoEnabled;
    if a.See? || a.LockConsumer? || a.Pop? || a.UnlockConsumer? || a.Dispatch? {
      ConsumerStepKeepsPushed(s, a, mallocZero);
    } else {
      IoStepPushes(s, a, a.c, mallocZero);
    }
  }

  /** End to end: per connection, the messages the game loop was called with are, in order and without
      repetition, the visible ones among the first few bodies of the bytes received. */
  lemma DispatchedInOrder(run: seq<State>, actions: seq<Action>, mallocZero: bool, i: nat, c: nat) returns (n: nat)
    requires IsRun(run, actions, mallocZero) && i < |run| && c in run[i].conns
    ensures n <= |Bodies(Arrivals(actions[..i], c))|
    ensures Of(run[i].dispatched, c) == Visible(Bodies(Arrivals(actions[..i], c))[..n], mallocZero)
  {
    hide Of, Step, Bodies, Rest, Enabled, Init, Arrivals, Visible, Delivered, Inv;
    var s := run[i];
    var k := DispatchedIsDelivered(run, actions, mallocZero, i);
    var front := s.popped[..k];
    RunBuilt(run, actions, mallocZero, i);
    assert AllBuilt(front, mallocZero) by {
      assert front == (s.popped + s.queue)[..k];
    }
    OfDelivered(front, c, mallocZero);
    PoppedInOrder(run, actions, mallocZero, i, c);
    assert front + s.popped[k..] == s.popped;
    OfPrefix(front, s.popped[k..], c);
    n := |Of(front, c)|;
    assert Of(front, c) == Bodies(Arrivals(actions[..i], c))[..n];
  }

  lemma VisibleSnoc(bodies: seq<Bytes>, body: Bytes, mallocZero: bool)
    ensures Visible(bodies + [body], mallocZero) == Visible(bodies, mallocZero) + if body == [] && !mallocZero then [] else [body]
  {
    assert (bodies + [body])[..|bodies|] == bodies;
  }

  /** At rest nothing is missing: when every thread is between two calls and the queue is empty, every body of every
      connection's bytes has been dispatched, the empty ones without a buffer excepted. */
  lemma QuietMeansAllDispatched(run: seq<State>, actions: seq<Action>, mallocZero: bool, i: nat, c: nat)
    requires IsRun(run, actions, mallocZero) && i < |run| && c in run[i].conns
    requires run[i].conns[c].pc.Parked? && run[i].queue == [] && run[i].consumer.Ready?
    ensures Of(run[i].dispatched, c) == Visible(Bodies(Arrivals(actions[..i], c)), mallocZero)
  {
    hide Of, Step, Rest, Bodies, Enabled, Init, Visible, Delivered, Arrivals, Inv;
    ReceivedIsArrived(run, actions, mallocZero, i, c);
    RunInv(run, actions, mallocZero, i);
    RunBuilt(run, actions, mallocZero, i);
    var s := run[i];
    RestMeans(s, c);
    assert s.popped + s.queue == s.popped;
    OfDelivered(s.popped, c, mallocZero);
  }

  lemma RestMeans(s: State, c: nat)
    requires Inv(s) && c in s.conns && s.conns[c].pc.Parked? && s.queue == [] && s.consumer.Ready?
    ensures s.dispatched == Delivered(s.popped) && Of(s.popped, c) == Bodies(s.conns[c].received)
  {
    hide Of, Rest, Bodies, HasFrame, Delivered, Locking;
    var conn := s.conns[c];
    assert Balanced(Pushed(s, c), conn);
    StuckDecodesToNothing(conn.buffer);
    assert s.popped + s.queue == s.popped;
    assert Unscanned(conn) == conn.buffer;
    assert Ahead(conn) == [];
  }

  lemma {:induction false} AllVisible(bodies: seq<Bytes>, mallocZero: bool)
    requires mallocZero || forall k :: 0 <= k < |bodies| ==> bodies[k] != []
    ensures Visible(bodies, mallocZero) == bodies
  {
    if bodies != [] {
      AllVisible(bodies[..|bodies| - 1], mallocZero);
    }
  }

  /** Unless an empty body got no block, nothing is skipped: the messages dispatched are a plain prefix of the
      bodies received. */
  lemma DispatchedIsPrefix(run: seq<State>, actions: seq<Action>, mallocZero: bool, i: nat, c: nat)
    requires IsRun(run, actions, mallocZero) && i < |run| && c in run[i].conns
    requires mallocZero || forall k :: 0 <= k < |Bodies(Arrivals(actions[..i], c))| ==> Bodies(Arrivals(actions[..i], c))[k] != []
    ensures Of(run[i].dispatched, c) <= Bodies(Arrivals(actions[..i], c))
  {
    hide Of, Step, Bodies, Rest, Enabled, Init, Arrivals, Visible;
    var n := DispatchedInOrder(run, actions, mallocZero, i, c);
    AllVisible(Bodies(Arrivals(actions[..i], c))[..n], mallocZero);
  }

  /** With the sender in the picture: while a connection's bytes are the start of framed messages none of which is
      too long, what the consumer popped is the start of exactly those messages. */
  lemma SentInOrder(run: seq<State>, actions: seq<Action>, mallocZero: bool, i: nat, c: nat, sent: seq<Bytes>)
    requires IsRun(run, actions, mallocZero) && i < |run| && c in run[i].conns
    requires forall k :: 0 <= k < |sent| ==> |sent[k]| <= MAX_BODY
    requires Arrivals(actions[..i], c) <= Frames(sent)
    ensures Of(run[i].popped, c) <= sent
  {
    hide Of, Step, Bodies, Rest, Enabled, Init, Arrivals, Frames;
    PoppedInOrder(run, actions, mallocZero, i, c);
    var a, all := Arrivals(actions[..i], c), Frames(sent);
    DecodeResumes(a, all[|a|..]);
    assert a + all[|a|..] == all;
    NothingFramed();
    DecodeUnique(sent, []);
    assert all + [] == all;
  }

  lemma NothingFramed()
    ensures !HasFrame([])
  {
  }
}
