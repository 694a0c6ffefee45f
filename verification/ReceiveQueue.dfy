/** The producer's receive queue: the listening thread puts Interests in, the processing thread takes them out.
    A step is one atomic action of one thread; size and capacity are atomic counters read outside the mutex. */
module ReceiveQueue {

  type Interest = nat   // which Interest

  /** Where the listening thread is in onInterest; size and capacity are read in either order. */
  datatype Listener =
    | Listening
    | SawSize(i: Interest, size: int)
    | SawCapacity(i: Interest, capacity: nat)
    | Waiting(i: Interest)      // for the mutex, to push
    | Locked(i: Interest)
    | Pushed
    | Counted

  /** Where the processing thread is in processIncomingInterest. */
  datatype Processor =
    | Polling
    | WaitingToPop
    | LockedToPop
    | HasFront(i: Interest)
    | Popped(i: Interest)
    | Discounted(i: Interest)

  datatype Holder = Nobody | ListeningThread | ProcessingThread

  datatype State = State(
    capacity: nat,
    size: int,                  // the counter
    queue: seq<Interest>,
    holder: Holder,             // of the mutex
    listener: Listener,
    processor: Processor,
    isBroken: bool,             // front or pop of an empty queue happened
    maxCapacity: nat,           // the largest capacity so far
    accepted: seq<Interest>,    // everything pushed so far
    processed: seq<Interest>)   // everything handed on so far

  datatype Step =
    | Arrival(i: Interest, isSizeFirst: bool)
    | ListenerMoves
    | ProcessorMoves
    | NewCapacity(optionValue: int)
    | NewCapacityUnchecked(size: nat)   // the overload for sizes looks at the old capacity, not at the new one

  function Start(capacity: nat): State {
    State(capacity, 0, [], Nobody, Listening, Polling, false, capacity, [], [])
  }

  // ----- onInterest -----

  function Decide(st: State, i: Interest, size: int, capacity: nat): State {
    st.(listener := if size >= capacity then Listening else Waiting(i))
  }

  function Listen(st: State): State {
    match st.listener
    case Listening => st
    case SawSize(i, size) => Decide(st, i, size, st.capacity)
    case SawCapacity(i, capacity) => Decide(st, i, st.size, capacity)
    case Waiting(i) => if st.holder == Nobody then st.(holder := ListeningThread, listener := Locked(i)) else st
    case Locked(i) => st.(queue := st.queue + [i], accepted := st.accepted + [i], listener := Pushed)
    case Pushed => st.(size := st.size + 1, listener := Counted)
    case Counted => st.(holder := Nobody, listener := Listening)
  }

  // ----- processIncomingInterest -----

  function Process(st: State): State {
    match st.processor
    case Polling => if st.size == 0 then st else st.(processor := WaitingToPop)
    case WaitingToPop => if st.holder == Nobody then st.(holder := ProcessingThread, processor := LockedToPop) else st
    case LockedToPop => if st.queue == [] then st.(isBroken := true) else st.(processor := HasFront(st.queue[0]))
    case HasFront(i) => if st.queue == [] then st.(isBroken := true) else st.(queue := st.queue[1..], processor := Popped(i))
    case Popped(i) => st.(size := st.size - 1, processor := Discounted(i))
    case Discounted(i) => st.(holder := Nobody, processed := st.processed + [i], processor := Polling)
  }

  function Resized(st: State, capacity: nat): State {
    st.(capacity := capacity, maxCapacity := if capacity > st.maxCapacity then capacity else st.maxCapacity)
  }

  function Take(st: State, step: Step): State {
    match step
    case Arrival(i, isSizeFirst) =>
      if st.listener != Listening then st
      else if isSizeFirst then st.(listener := SawSize(i, st.size))
      else st.(listener := SawCapacity(i, st.capacity))
    case ListenerMoves => Listen(st)
    case ProcessorMoves => Process(st)
    case NewCapacity(c) => if c < 1 then st else Resized(st, c)
    case NewCapacityUnchecked(c) => if st.capacity < 1 then st else Resized(st, c)
  }

  function Run(capacity: nat, steps: seq<Step>): State {
    if steps == [] then Start(capacity) else Take(Run(capacity, steps[..|steps| - 1]), steps[|steps| - 1])
  }

  // ----- what every step keeps -----

  function InHand(p: Processor): seq<Interest> {
    if p.Popped? || p.Discounted? then [p.i] else []
  }

  predicate ListenerHolds(l: Listener) { l.Locked? || l.Pushed? || l.Counted? }

  predicate ProcessorHolds(p: Processor) { p.LockedToPop? || p.HasFront? || p.Popped? || p.Discounted? }

  /** Each thread holds the mutex where its code says so, never both. */
  predicate Exclusive(st: State) {
    && (st.holder == ListeningThread <==> ListenerHolds(st.listener))
    && (st.holder == ProcessingThread <==> ProcessorHolds(st.processor))
  }

  /** The counter is off only between a push or pop and its own adjustment. */
  predicate Counts(st: State) {
    st.size == |st.queue| + (if st.processor.Popped? then 1 else 0) - (if st.listener.Pushed? then 1 else 0)
  }

  /** The listening thread pushes only where there is room. */
  predicate HasRoom(st: State) {
    && |st.queue| <= st.maxCapacity && st.capacity <= st.maxCapacity
    && match st.listener
       case SawSize(i, size) => st.size <= size
       case SawCapacity(i, capacity) => capacity <= st.maxCapacity
       case Waiting(i) => st.size < st.maxCapacity
       case Locked(i) => st.size < st.maxCapacity
       case Pushed => st.queue != []
       case _ => true
  }

  /** The processing thread pops only what is there. */
  predicate HasInterest(st: State) {
    && (st.processor.WaitingToPop? || st.processor.LockedToPop? || st.processor.HasFront? ==> st.queue != [])
    && (st.processor.HasFront? ==> st.processor.i == st.queue[0])
  }

  predicate Inv(st: State) {
    && Exclusive(st) && Counts(st) && HasRoom(st) && HasInterest(st) && !st.isBroken
    && st.accepted == st.processed + InHand(st.processor) + st.queue
  }

  lemma ListenKeeps(st: State)
    requires Inv(st)
    ensures Inv(Listen(st))
  {}

  lemma ProcessKeeps(st: State)
    requires Inv(st)
    ensures Inv(Process(st))
  {
    if st.processor.HasFront? { assert st.queue == [st.queue[0]] + st.queue[1..]; }
  }

  lemma TakeKeeps(st: State, step: Step)
    requires Inv(st)
    ensures Inv(Take(st, step))
  {
    match step {
      case Arrival(_, _) =>
      case ListenerMoves => ListenKeeps(st);
      case ProcessorMoves => ProcessKeeps(st);
      case NewCapacity(_) =>
      case NewCapacityUnchecked(_) =>
    }
  }

  lemma {:induction false} RunKeeps(capacity: nat, steps: seq<Step>)
    ensures Inv(Run(capacity, steps))
  {
    if steps != [] {
      var before := Run(capacity, steps[..|steps| - 1]);
      RunKeeps(capacity, steps[..|steps| - 1]);
      TakeKeeps(before, steps[|steps| - 1]);
    }
  }

  /** Over every run of the two threads: the counter is never negative and equals the queue whenever the mutex is
      free; the queue never exceeds the largest capacity so far; nothing is taken from an empty queue; and the
      Interests come out as they went in. */
  lemma QueueIsSafe(capacity: nat, steps: seq<Step>)
    ensures var st := Run(capacity, steps);
      && st.size >= 0 && (st.holder == Nobody ==> st.size == |st.queue|)
      && |st.queue| <= st.maxCapacity && !st.isBroken
      && st.processed <= st.accepted && |st.accepted| <= |st.processed| + |st.queue| + 1
  {
    RunKeeps(capacity, steps);
    var st := Run(capacity, steps);
    assert st.processed <= st.processed + (InHand(st.processor) + st.queue);
    assert st.accepted == st.processed + (InHand(st.processor) + st.queue);
  }

  // ----- nothing is stuck -----

  predicate IsQuiet(st: State) {
    st.listener == Listening && st.processor == Polling && st.queue == []
  }

  /** A schedule says whose turn it is: true for the listening thread.  No Interest arrives meanwhile. */
  function Scheduled(st: State, schedule: seq<bool>): State
    decreases |schedule|
  {
    if schedule == [] then st else Scheduled(Turn(st, schedule[0]), schedule[1..])
  }

  function Turn(st: State, isListener: bool): State {
    if isListener then Listen(st) else Process(st)
  }

  /** Both threads get their turn at least n times over: the schedule has n stretches with a turn of each. */
  ghost predicate IsFair(schedule: seq<bool>, n: nat) {
    n > 0 ==> exists k :: 0 <= k <= |schedule| && true in schedule[..k] && false in schedule[..k] && IsFair(schedule[k..], n - 1)
  }

  function MovesOfListener(l: Listener): int {
    match l
    case Listening => 0
    case SawSize(_, _) => 11
    case SawCapacity(_, _) => 11
    case Waiting(_) => 10
    case Locked(_) => 9
    case Pushed => 2
    case Counted => 1
  }

  function MovesOfProcessor(p: Processor): int {
    match p
    case Polling => 0
    case WaitingToPop => -1
    case LockedToPop => -2
    case HasFront(_) => -3
    case Popped(_) => 2
    case Discounted(_) => 1
  }

  /** How many moves are left until both threads are idle and the queue is empty. */
  function Work(st: State): int {
    6 * |st.queue| + MovesOfListener(st.listener) + MovesOfProcessor(st.processor)
  }

  lemma ListenWorks(st: State)
    requires Inv(st)
    ensures Work(Listen(st)) <= Work(st)
    ensures Work(Listen(st)) == Work(st) ==> Listen(st) == st && (st.listener == Listening || ProcessorHolds(st.processor))
  {}

  lemma ProcessWorks(st: State)
    requires Inv(st)
    ensures Work(Process(st)) <= Work(st)
    ensures Work(Process(st)) == Work(st) ==>
      Process(st) == st && ((st.processor == Polling && st.size == 0) || ListenerHolds(st.listener))
  {}

  lemma TurnWorks(st: State, isListener: bool)
    requires Inv(st)
    ensures Inv(Turn(st, isListener)) && Work(Turn(st, isListener)) <= Work(st)
    ensures Work(Turn(st, isListener)) == Work(st) ==> Turn(st, isListener) == st
    ensures st.accepted <= Turn(st, isListener).accepted
  {
    if isListener {
      ListenKeeps(st);
      ListenWorks(st);
    } else {
      ProcessKeeps(st);
      ProcessWorks(st);
    }
  }

  /** No schedule adds work; one that does none leaves everything as it was, and no turn in it could do any. */
  lemma {:induction false} ScheduleWorks(st: State, schedule: seq<bool>)
    requires Inv(st)
    ensures Inv(Scheduled(st, schedule)) && Work(Scheduled(st, schedule)) <= Work(st)
    ensures st.accepted <= Scheduled(st, schedule).accepted
    ensures Work(Scheduled(st, schedule)) == Work(st) ==>
      Scheduled(st, schedule) == st && forall turn :: turn in schedule ==> Work(Turn(st, turn)) == Work(st)
    decreases |schedule|
  {
    if schedule != [] {
      TurnWorks(st, schedule[0]);
      ScheduleWorks(Turn(st, schedule[0]), schedule[1..]);
      assert schedule == [schedule[0]] + schedule[1..];
    }
  }

  /** The threads never block each other for good: when both have had a turn, at least one has got ahead,
      unless both are idle and the queue is empty. */
  lemma BothTurnsAdvance(st: State, schedule: seq<bool>)
    requires Inv(st) && true in schedule && false in schedule
    ensures Work(st) >= 0 && (Work(st) == 0 <==> IsQuiet(st))
    ensures !IsQuiet(st) ==> Work(Scheduled(st, schedule)) < Work(st)
  {
    ScheduleWorks(st, schedule);
    ListenWorks(st);
    ProcessWorks(st);
  }

  lemma {:induction false} ScheduledInTurn(st: State, a: seq<bool>, b: seq<bool>)
    ensures Scheduled(st, a + b) == Scheduled(Scheduled(st, a), b)
    decreases |a|
  {
    if a == [] {
      assert a + b == b;
    } else {
      assert (a + b)[1..] == a[1..] + b;
      ScheduledInTurn(Turn(st, a[0]), a[1..], b);
    }
  }

  /** Once Interests stop arriving, under any fair schedule both threads come to rest with everything accepted
      also processed, in order. */
  lemma {:induction false} EverythingIsProcessed(st: State, schedule: seq<bool>, n: nat)
    requires Inv(st) && Work(st) <= n && IsFair(schedule, n)
    ensures var st' := Scheduled(st, schedule);
      IsQuiet(st') && st'.processed == st'.accepted && st.accepted <= st'.accepted
    decreases n
  {
    if n > 0 {
      var k :| 0 <= k <= |schedule| && true in schedule[..k] && false in schedule[..k] && IsFair(schedule[k..], n - 1);
      var st1 := FirstStretch(st, schedule, k);
      EverythingIsProcessed(st1, schedule[k..], n - 1);
    } else {
      QuietStays(st, schedule);
    }
  }

  lemma FirstStretch(st: State, schedule: seq<bool>, k: nat) returns (st1: State)
    requires Inv(st) && k <= |schedule| && true in schedule[..k] && false in schedule[..k]
    ensures Inv(st1) && Scheduled(st, schedule) == Scheduled(st1, schedule[k..]) && st.accepted <= st1.accepted
    ensures Work(st1) <= Work(st) && (Work(st) > 0 ==> Work(st1) < Work(st))
  {
    st1 := Scheduled(st, schedule[..k]);
    BothTurnsAdvance(st, schedule[..k]);
    ScheduleWorks(st, schedule[..k]);
    assert schedule == schedule[..k] + schedule[k..];
    ScheduledInTurn(st, schedule[..k], schedule[k..]);
  }

  lemma QuietStays(st: State, schedule: seq<bool>)
    requires Inv(st) && Work(st) <= 0
    ensures IsQuiet(st) && IsQuiet(Scheduled(st, schedule)) && Scheduled(st, schedule) == st
  {
    NoLessThanNothing(st);
    ScheduleWorks(st, schedule);
    NoLessThanNothing(Scheduled(st, schedule));
  }

  lemma NoLessThanNothing(st: State)
    requires Inv(st)
    ensures Work(st) >= 0 && (Work(st) == 0 <==> IsQuiet(st))
  {}

  /** From every reachable state: a schedule that is fair for as long as there is work empties the queue in order. */
  lemma RunsComeToRest(capacity: nat, steps: seq<Step>, schedule: seq<bool>, n: nat)
    requires Work(Run(capacity, steps)) <= n && IsFair(schedule, n)
    ensures var st := Scheduled(Run(capacity, steps), schedule); IsQuiet(st) && st.processed == st.accepted
  {
    RunKeeps(capacity, steps);
    EverythingIsProcessed(Run(capacity, steps), schedule, n);
  }

  // ----- which Interests are accepted -----

  /** The Interest that the listening thread is going to push. */
  function Coming(l: Listener): seq<Interest> {
    match l
    case SawSize(i, _) => [i]
    case SawCapacity(i, _) => [i]
    case Waiting(i) => [i]
    case Locked(i) => [i]
    case _ => []
  }

  /** What the listening thread has read leaves room, and will when it reads the rest. */
  predicate Admits(st: State) {
    match st.listener
    case SawSize(_, size) => size < st.capacity
    case SawCapacity(_, capacity) => st.size < capacity
    case _ => true
  }

  lemma TurnAccepts(st: State, isListener: bool)
    requires Inv(st) && Admits(st)
    ensures var st' := Turn(st, isListener);
      Admits(st') && st'.accepted + Coming(st'.listener) == st.accepted + Coming(st.listener)
  {}

  lemma {:induction false} ScheduleAccepts(st: State, schedule: seq<bool>)
    requires Inv(st) && Admits(st)
    ensures var st' := Scheduled(st, schedule);
      Admits(st') && st'.accepted + Coming(st'.listener) == st.accepted + Coming(st.listener)
    decreases |schedule|
  {
    if schedule != [] {
      TurnWorks(st, schedule[0]);
      TurnAccepts(st, schedule[0]);
      ScheduleAccepts(Turn(st, schedule[0]), schedule[1..]);
    }
  }

  lemma WorkIsBounded(st: State)
    ensures Work(st) <= 6 * |st.queue| + 13
  {}

  /** What is on its way is processed after everything accepted before. */
  lemma ComingIsProcessed(st: State, schedule: seq<bool>, n: nat)
    requires Inv(st) && Admits(st) && 6 * |st.queue| + 13 <= n && IsFair(schedule, n)
    ensures Scheduled(st, schedule).processed == st.accepted + Coming(st.listener)
  {
    WorkIsBounded(st);
    EverythingIsProcessed(st, schedule, n);
    ScheduleAccepts(st, schedule);
  }

  /** An Interest that arrives while the listening thread is free and fewer are counted than the capacity is, is the
      last one processed after any fair schedule that is long enough. */
  lemma ArrivalIsProcessed(capacity: nat, steps: seq<Step>, i: Interest, isSizeFirst: bool, schedule: seq<bool>, n: nat)
    requires var st := Run(capacity, steps);
      st.listener == Listening && st.size < st.capacity && 6 * |st.queue| + 13 <= n && IsFair(schedule, n)
    ensures var st := Run(capacity, steps);
      Scheduled(Take(st, Arrival(i, isSizeFirst)), schedule).processed == st.accepted + [i]
  {
    var st := Run(capacity, steps);
    RunKeeps(capacity, steps);
    TakeKeeps(st, Arrival(i, isSizeFirst));
    ComingIsProcessed(Take(st, Arrival(i, isSizeFirst)), schedule, n);
  }

  /** No step of these is the listening thread's. */
  ghost predicate NoListening(steps: seq<Step>) {
    forall k :: 0 <= k < |steps| ==> steps[k] != ListenerMoves
  }

  function After(st: State, steps: seq<Step>): State {
    if steps == [] then st else Take(After(st, steps[..|steps| - 1]), steps[|steps| - 1])
  }

  /** The listening thread stays where it is while others act. */
  lemma {:induction false} OthersAct(st: State, steps: seq<Step>)
    requires Inv(st) && st.listener != Listening && NoListening(steps)
    ensures var st' := After(st, steps); Inv(st') && st'.listener == st.listener && st'.accepted == st.accepted
  {
    if steps != [] {
      var before := After(st, steps[..|steps| - 1]);
      OthersAct(st, steps[..|steps| - 1]);
      TakeKeeps(before, steps[|steps| - 1]);
    }
  }

  /** Whether an arriving Interest is dropped.  Between its two reads anything else may happen, also changes of the
      capacity; it is dropped if and only if the counter it reads is at or above the capacity it reads, and is
      otherwise processed after everything accepted before. */
  lemma DroppedIff(capacity: nat, steps: seq<Step>, i: Interest, isSizeFirst: bool, between: seq<Step>,
                   schedule: seq<bool>, n: nat)
    requires Run(capacity, steps).listener == Listening && NoListening(between)
    requires var later := After(Take(Run(capacity, steps), Arrival(i, isSizeFirst)), between);
      6 * |later.queue| + 13 <= n && IsFair(schedule, n)
    ensures var st := Run(capacity, steps);
      var later := After(Take(st, Arrival(i, isSizeFirst)), between);
      var isDropped := if isSizeFirst then st.size >= later.capacity else later.size >= st.capacity;
      var decided := Take(later, ListenerMoves);
      && decided.accepted == st.accepted && (isDropped <==> decided.listener == Listening)
      && Scheduled(decided, schedule).processed == if isDropped then st.accepted else st.accepted + [i]
  {
    var st := Run(capacity, steps);
    RunKeeps(capacity, steps);
    TakeKeeps(st, Arrival(i, isSizeFirst));
    var later := After(Take(st, Arrival(i, isSizeFirst)), between);
    OthersAct(Take(st, Arrival(i, isSizeFirst)), between);
    var decided := Take(later, ListenerMoves);
    TakeKeeps(later, ListenerMoves);
    ComingIsProcessed(decided, schedule, n);
  }

  /** A capacity set as an option counts from the next Interest on if it is at least 1, and is ignored otherwise.  Set as
      a size it counts whatever it is, unless the capacity before was 0. */
  lemma NewCapacityCounts(capacity: nat, steps: seq<Step>, c: int, i: Interest, isSizeFirst: bool)
    requires Run(capacity, steps).listener == Listening
    ensures var st := Run(capacity, steps);
      && (c < 1 ==> Take(st, NewCapacity(c)) == st)
      && (c >= 1 ==> (IsDropped(Take(st, NewCapacity(c)), i, isSizeFirst) <==> st.size >= c))
      && (c >= 0 && st.capacity >= 1 ==> (IsDropped(Take(st, NewCapacityUnchecked(c)), i, isSizeFirst) <==> st.size >= c))
      && (c >= 0 && st.capacity == 0 ==> Take(st, NewCapacityUnchecked(c)) == st)
  {}

  /** The listening thread, left alone with an arriving Interest, is free again at once. */
  predicate IsDropped(st: State, i: Interest, isSizeFirst: bool) {
    Take(Take(st, Arrival(i, isSizeFirst)), ListenerMoves).listener == Listening
  }

  /** Both threads take turns. */
  function Alternating(n: nat): seq<bool> {
    if n == 0 then [] else [true, false] + Alternating(n - 1)
  }

  lemma {:induction false} AlternatingIsFair(n: nat)
    ensures IsFair(Alternating(n), n)
  {
    if n > 0 {
      AlternatingIsFair(n - 1);
      var schedule := Alternating(n);
      assert schedule[..2] == [true, false] && schedule[2..] == Alternating(n - 1);
      assert true in schedule[..2] && false in schedule[..2];
    }
  }

  /** An empty queue of capacity 1000: the first Interest is processed; with capacity 0 it is not. */
  lemma FirstInterest()
    ensures Scheduled(Take(Run(1000, []), Arrival(7, true)), Alternating(13)).processed == [7]
    ensures Scheduled(Take(Take(Run(0, []), Arrival(7, true)), ListenerMoves), Alternating(13)).processed == []
  {
    AlternatingIsFair(13);
    ArrivalIsProcessed(1000, [], 7, true, Alternating(13), 13);
    DroppedIff(0, [], 7, true, [], Alternating(13), 13);
  }
}
