/** Admission: a task takes a limiter token, then memory from a budget, and gives both back. Releases
    close the current wake-up channel and open another; waiters wait on the channel they captured. */
module Budgets {
  import opened Common
  import opened Keys

  type Amount = n: nat | n <= MAX_UINT64

  /** Where a task is, between two atomic sections. `Barred` has found all tokens taken and will queue;
      `HasToken(true)`, `LeavingQueue` and `Withdrawing` are still counted as queued until the deferred
      decrement runs. `Waiting` holds the channel it captured. */
  datatype Phase =
    | Arrived | Barred | Queued | Withdrawing | HasToken(queued: bool) | LeavingQueue | Admitted
    | Waiting(channel: nat) | Running | Released | Rejected | Leaving | Completed | Finished | Abandoned

  datatype Task = Task(amount: Amount, phase: Phase)

  /** The shared counters, and every task so far. Channels below `current` are closed. */
  datatype State = State(
    limit: Amount, capacity: nat, used: nat, peak: nat, waiters: nat, current: nat,
    tokens: nat, active: nat, queued: nat, completed: nat, tasks: seq<Task>)

  // ----- Tallies -----------------------------------------------------------------------------------

  datatype Tally = Tally(used: nat, waiters: nat, tokens: nat, active: nat, queued: nat, completed: nat)

  function Plus(a: Tally, b: Tally): Tally {
    Tally(a.used + b.used, a.waiters + b.waiters, a.tokens + b.tokens, a.active + b.active, a.queued + b.queued,
          a.completed + b.completed)
  }

  const NOTHING := Tally(0, 0, 0, 0, 0, 0)

  /** What a task accounts for. */
  function Share(t: Task): Tally {
    match t.phase
    case Arrived => NOTHING
    case Barred => NOTHING
    case Queued => NOTHING.(queued := 1)
    case Withdrawing => NOTHING.(queued := 1)
    case HasToken(queued) => NOTHING.(tokens := 1, queued := if queued then 1 else 0)
    case LeavingQueue => NOTHING.(tokens := 1, active := 1, queued := 1)
    case Admitted => NOTHING.(tokens := 1, active := 1)
    case Waiting(_) => NOTHING.(waiters := 1, tokens := 1, active := 1)
    case Running => NOTHING.(used := t.amount, tokens := 1, active := 1)
    case Released => NOTHING.(tokens := 1, active := 1)
    case Rejected => NOTHING.(tokens := 1, active := 1)
    case Leaving => NOTHING.(tokens := 1)
    case Completed => NOTHING.(tokens := 1, completed := 1)
    case Finished => NOTHING.(completed := 1)
    case Abandoned => NOTHING
  }

  function Sum(tasks: seq<Task>): Tally {
    if tasks == [] then NOTHING else Plus(Sum(tasks[..|tasks| - 1]), Share(tasks[|tasks| - 1]))
  }

  lemma {:induction false} SumUpdate(tasks: seq<Task>, i: nat, t: Task)
    requires i < |tasks|
    ensures Plus(Sum(tasks[i := t]), Share(tasks[i])) == Plus(Sum(tasks), Share(t))
    decreases |tasks|
  {
    hide Share;
    var n := |tasks| - 1;
    if i == n {
      assert tasks[i := t][..n] == tasks[..n];
    } else {
      assert tasks[i := t][..n] == tasks[..n][i := t];
      SumUpdate(tasks[..n], i, t);
    }
  }

  lemma {:induction false} ShareWithin(tasks: seq<Task>, i: nat)
    requires i < |tasks|
    ensures var s, t := Sum(tasks), Share(tasks[i]);
      t.used <= s.used && t.waiters <= s.waiters && t.tokens <= s.tokens && t.active <= s.active && t.queued <= s.queued
      && t.completed <= s.completed
    decreases |tasks|
  {
    hide Share;
    if i < |tasks| - 1 {
      ShareWithin(tasks[..|tasks| - 1], i);
    }
  }

  // ----- Steps ---------------------------------------------------------------------------------------

  /** One atomic section of a task, or a new task. `cancelled` is the context's choice where it has one. */
  datatype Event =
    | Arrive(amount: Amount)
    | TakeToken(task: nat)
    | FindFull(task: nat)
    | JoinQueue(task: nat)
    | GiveUp(task: nat)          // cancelled before or while queued
    | CountActive(task: nat)
    | LeaveQueue(task: nat)      // the deferred decrement of `queued`
    | AcquireMemory(task: nat)
    | CancelWaiting(task: nat)
    | RefuseMemory(task: nat)    // cancelled before asking for memory
    | ReleaseMemory(task: nat)
    | Leave(task: nat)
    | Complete(task: nat)
    | ReturnToken(task: nat)

  /** What the budget answers to a request under its lock. */
  datatype Verdict = TooLarge | NotNow | Overflow | Grant

  function Decide(limit: nat, used: nat, amount: nat): Verdict {
    if limit != 0 && amount > limit then TooLarge
    else if limit != 0 && (used > limit || amount > limit - used) then NotNow
    else if used > MAX_UINT64 || amount > MAX_UINT64 - used then Overflow
    else Grant
  }

  /** The verdicts by sums: granted when the sum stays within the limit and 64 bits, put off when the amount
      fits the limit alone but not now, and otherwise refused for good. */
  lemma DecideExact(limit: nat, used: nat, amount: nat)
    requires limit != 0 ==> used <= limit
    ensures Decide(limit, used, amount) == Grant <==> (limit == 0 || used + amount <= limit) && used + amount <= MAX_UINT64
    ensures Decide(limit, used, amount) == NotNow <==> limit != 0 && amount <= limit < used + amount
    ensures Decide(limit, used, amount) == TooLarge <==> 0 < limit < amount
    ensures Decide(limit, used, amount) == Overflow <==> (limit == 0 || used + amount <= limit) && used + amount > MAX_UINT64
  {
  }

  /** The budget itself. `current` numbers its wake-up channels; those below are closed. */
  class MemoryBudget {
    const limit: nat
    var used: nat
    var peak: nat
    var waiters: nat
    var current: nat

    ghost predicate Valid()
      reads this
    {
      used <= peak && used <= MAX_UINT64 && (limit != 0 ==> used <= limit)
    }

    constructor (limit: nat)
      ensures Valid() && this.limit == limit && used == 0 && peak == 0 && waiters == 0 && current == 0
    {
      this.limit := limit;
      used, peak, waiters, current := 0, 0, 0, 0;
    }

    /** One pass of the acquiring section; a woken request first stops counting as a waiter. When it has
        to wait it returns the channel it captured under the lock. */
    method Acquire(amount: nat, woken: bool) returns (verdict: Verdict, channel: nat)
      requires Valid() && (woken ==> waiters > 0)
      modifies this
      ensures Valid() && verdict == Decide(limit, old(used), amount) && channel == current == old(current)
      ensures verdict == Grant <==> (limit == 0 || old(used) + amount <= limit) && old(used) + amount <= MAX_UINT64
      ensures verdict == NotNow <==> limit != 0 && amount <= limit < old(used) + amount
      ensures used == old(used) + if verdict == Grant then amount else 0
      ensures peak == Max(old(peak), used)
      ensures waiters == old(waiters) - (if woken then 1 else 0) + if verdict == NotNow then 1 else 0
    {
      channel := current;
      if woken {
        waiters := waiters - 1;
      }
      if limit != 0 && amount > limit {
        return TooLarge, channel;
      }
      if limit != 0 && amount > limit - used {
        waiters := waiters + 1;
        return NotNow, channel;
      }
      if amount > MAX_UINT64 - used {
        return Overflow, channel;
      }
      used := used + amount;
      peak := Max(peak, used);
      verdict := Grant;
    }

    /** A waiter gives up. */
    method Cancel()
      requires Valid() && waiters > 0
      modifies this`waiters
      ensures Valid() && waiters == old(waiters) - 1
    {
      waiters := waiters - 1;
    }

    /** Give a grant back: the current channel closes and another opens. */
    method Release(amount: nat)
      requires Valid() && amount <= used
      modifies this`used, this`current
      ensures Valid() && used == old(used) - amount && current == old(current) + 1
    {
      used := used - amount;
      current := current + 1;
    }
  }

  predicate Fits(s: State, amount: Amount) {
    s.limit == 0 || (s.used <= s.limit && amount <= s.limit - s.used)
  }

  predicate At(s: State, task: nat, phase: Phase) {
    task < |s.tasks| && s.tasks[task].phase == phase
  }

  /** A task can enter the budget's section: when admitted, or when its captured channel is closed. */
  predicate Asks(s: State, task: nat) {
    task < |s.tasks| && (s.tasks[task].phase.Admitted? || (s.tasks[task].phase.Waiting? && s.tasks[task].phase.channel < s.current))
  }

  predicate Enabled(s: State, e: Event) {
    match e
    case Arrive(_) => true
    case TakeToken(task) => (At(s, task, Arrived) || At(s, task, Queued)) && s.tokens < s.capacity
    case FindFull(task) => At(s, task, Arrived) && s.tokens >= s.capacity
    case JoinQueue(task) => At(s, task, Barred)
    case GiveUp(task) => At(s, task, Arrived) || At(s, task, Queued)
    case CountActive(task) => task < |s.tasks| && s.tasks[task].phase.HasToken?
    case LeaveQueue(task) => At(s, task, LeavingQueue) || At(s, task, Withdrawing)
    case AcquireMemory(task) => Asks(s, task)
    case CancelWaiting(task) => task < |s.tasks| && s.tasks[task].phase.Waiting?
    case RefuseMemory(task) => At(s, task, Admitted)
    case ReleaseMemory(task) => At(s, task, Running)
    case Leave(task) => At(s, task, Released) || At(s, task, Rejected)
    case Complete(task) => At(s, task, Leaving)
    case ReturnToken(task) => At(s, task, Completed)
  }

  function Move(s: State, task: nat, phase: Phase): State
    requires task < |s.tasks|
  {
    s.(tasks := s.tasks[task := Task(s.tasks[task].amount, phase)])
  }

  /** Decrement a counter the invariant keeps positive here. */
  function Less(n: nat): nat {
    if n > 0 then n - 1 else 0
  }

  /** The section of the budget: refuse what can never fit, wait on the current channel for what does
      not fit now, grant the rest. A woken task stops counting as a waiter first. */
  function AskMemory(s: State, task: nat): State
    requires Asks(s, task)
  {
    var amount := s.tasks[task].amount;
    var awake := if s.tasks[task].phase.Waiting? then s.(waiters := Less(s.waiters)) else s;
    match Decide(s.limit, s.used, amount)
    case TooLarge => Move(awake, task, Rejected)
    case NotNow => Move(awake.(waiters := awake.waiters + 1), task, Waiting(s.current))
    case Overflow => Move(awake, task, Rejected)
    case Grant => Move(awake.(used := s.used + amount, peak := Max(s.peak, s.used + amount)), task, Running)
  }

  function Step(s: State, e: Event): State
    requires Enabled(s, e) && s.used <= MAX_UINT64
  {
    match e
    case Arrive(amount) => s.(tasks := s.tasks + [Task(amount, Arrived)])
    case TakeToken(task) => Move(s.(tokens := s.tokens + 1), task, HasToken(s.tasks[task].phase.Queued?))
    case FindFull(task) => Move(s, task, Barred)
    case JoinQueue(task) => Move(s.(queued := s.queued + 1), task, Queued)
    case GiveUp(task) => Move(s, task, if s.tasks[task].phase.Queued? then Withdrawing else Abandoned)
    case CountActive(task) =>
      Move(s.(active := s.active + 1), task, if s.tasks[task].phase.queued then LeavingQueue else Admitted)
    case LeaveQueue(task) =>
      Move(s.(queued := Less(s.queued)), task, if s.tasks[task].phase.LeavingQueue? then Admitted else Abandoned)
    case AcquireMemory(task) => AskMemory(s, task)
    case CancelWaiting(task) => Move(s.(waiters := Less(s.waiters)), task, Rejected)
    case RefuseMemory(task) => Move(s, task, Rejected)
    case ReleaseMemory(task) =>
      var amount := s.tasks[task].amount;
      Move(s.(used := if amount <= s.used then s.used - amount else 0, current := s.current + 1), task, Released)
    case Leave(task) => Move(s.(active := Less(s.active)), task, Leaving)
    case Complete(task) => Move(s.(completed := s.completed + 1), task, Completed)
    case ReturnToken(task) => Move(s.(tokens := Less(s.tokens)), task, Finished)
  }

  // ----- The invariant ---------------------------------------------------------------------------------

  /** A waiter's channel is one already opened; while it is the current one, the waiter's amount does
      not fit: no release was lost between capturing the channel and waiting on it. */
  ghost predicate WaitsRightly(s: State, t: Task) {
    t.phase.Waiting? ==>
      && t.phase.channel <= s.current
      && s.limit != 0 && t.amount <= s.limit
      && (t.phase.channel == s.current ==> !Fits(s, t.amount))
  }

  ghost predicate Inv(s: State) {
    && Counted(s)
    && (forall i :: 0 <= i < |s.tasks| ==> WaitsRightly(s, s.tasks[i]))
  }

  lemma MoveSum(s: State, task: nat, phase: Phase)
    requires task < |s.tasks|
    ensures Plus(Sum(Move(s, task, phase).tasks), Share(s.tasks[task])) == Plus(Sum(s.tasks), Share(Task(s.tasks[task].amount, phase)))
    ensures Share(s.tasks[task]).used <= Sum(s.tasks).used && Share(s.tasks[task]).waiters <= Sum(s.tasks).waiters
    ensures Share(s.tasks[task]).tokens <= Sum(s.tasks).tokens && Share(s.tasks[task]).active <= Sum(s.tasks).active
    ensures Share(s.tasks[task]).queued <= Sum(s.tasks).queued
  {
    SumUpdate(s.tasks, task, Task(s.tasks[task].amount, phase));
    ShareWithin(s.tasks, task);
  }

  function TallyOf(s: State): Tally {
    Tally(s.used, s.waiters, s.tokens, s.active, s.queued, s.completed)
  }

  ghost predicate Counted(s: State) {
    && TallyOf(s) == Sum(s.tasks)
    && (s.limit != 0 ==> s.used <= s.limit)
    && s.used <= s.peak && s.used <= MAX_UINT64
    && s.tokens <= s.capacity
  }

  lemma AskCounted(s: State, task: nat)
    requires Counted(s) && Asks(s, task)
    ensures Counted(AskMemory(s, task))
  {
    hide Sum;
    var phase := AskMemory(s, task).tasks[task].phase;
    MoveSum(s, task, phase);
    assert AskMemory(s, task).tasks == Move(s, task, phase).tasks;
  }

  lemma QueueCounted(s: State, e: Event)
    requires Counted(s) && Enabled(s, e) && (e.FindFull? || e.JoinQueue? || e.GiveUp? || e.LeaveQueue?)
    ensures Counted(Step(s, e))
  {
    hide Sum;
    MoveSum(s, e.task, Step(s, e).tasks[e.task].phase);
  }

  lemma TokenCounted(s: State, e: Event)
    requires Counted(s) && Enabled(s, e) && (e.TakeToken? || e.CountActive? || e.ReturnToken?)
    ensures Counted(Step(s, e))
  {
    hide Sum;
    MoveSum(s, e.task, Step(s, e).tasks[e.task].phase);
  }

  lemma MemoryCounted(s: State, e: Event)
    requires Counted(s) && Enabled(s, e) && (e.RefuseMemory? || e.CancelWaiting? || e.ReleaseMemory?)
    ensures Counted(Step(s, e))
  {
    hide Sum;
    MoveSum(s, e.task, Step(s, e).tasks[e.task].phase);
  }

  lemma LeaveCounted(s: State, e: Event)
    requires Counted(s) && Enabled(s, e) && (e.Leave? || e.Complete?)
    ensures Counted(Step(s, e))
  {
    hide Sum;
    MoveSum(s, e.task, Step(s, e).tasks[e.task].phase);
  }

  lemma CountsKept(s: State, e: Event)
    requires Counted(s) && Enabled(s, e)
    ensures Counted(Step(s, e))
  {
    match e {
      case Arrive(_) => assert Step(s, e).tasks[..|s.tasks|] == s.tasks;
      case AcquireMemory(task) => AskCounted(s, task);
      case _ =>
        if e.FindFull? || e.JoinQueue? || e.GiveUp? || e.LeaveQueue? {
          QueueCounted(s, e);
        } else if e.TakeToken? || e.CountActive? || e.ReturnToken? {
          TokenCounted(s, e);
        } else if e.RefuseMemory? || e.CancelWaiting? || e.ReleaseMemory? {
          MemoryCounted(s, e);
        } else {
          LeaveCounted(s, e);
        }
    }
  }

  lemma WaitersKept(s: State, e: Event)
    requires Inv(s) && Enabled(s, e)
    ensures var t := Step(s, e);
      forall i :: 0 <= i < |t.tasks| ==> WaitsRightly(t, t.tasks[i])
  {
    hide Sum;
    var t := Step(s, e);
    forall i | 0 <= i < |t.tasks| ensures WaitsRightly(t, t.tasks[i]) {
      if i < |s.tasks| {
        assert WaitsRightly(s, s.tasks[i]);
      }
    }
  }

  lemma StepKeeps(s: State, e: Event)
    requires Inv(s) && Enabled(s, e)
    ensures Inv(Step(s, e))
  {
    WaitersKept(s, e);
    CountsKept(s, e);
    hide WaitsRightly, Counted, Step;
  }

  // ----- Every run ---------------------------------------------------------------------------------------

  function Start(limit: Amount, capacity: nat): State {
    State(limit, capacity, 0, 0, 0, 0, 0, 0, 0, 0, [])
  }

  ghost predicate Possible(s: State, events: seq<Event>)
    decreases |events|
  {
    events == [] || (s.used <= MAX_UINT64 && Enabled(s, events[0]) && Possible(Step(s, events[0]), events[1..]))
  }

  ghost function Run(s: State, events: seq<Event>): State
    requires Possible(s, events)
    decreases |events|
  {
    if events == [] then s else Run(Step(s, events[0]), events[1..])
  }

  lemma {:induction false} RunKeeps(s: State, events: seq<Event>)
    requires Inv(s) && Possible(s, events)
    ensures Inv(Run(s, events))
    ensures Run(s, events).limit == s.limit && Run(s, events).capacity == s.capacity
    decreases |events|
  {
    hide Inv;
    if events != [] {
      StepKeeps(s, events[0]);
      RunKeeps(Step(s, events[0]), events[1..]);
    }
  }

  /** In every interleaving of the source's sections the counters are exact and within their bounds. */
  lemma EveryRunIsExact(limit: Amount, capacity: nat, events: seq<Event>)
    requires Possible(Start(limit, capacity), events)
    ensures var s := Run(Start(limit, capacity), events);
      && TallyOf(s) == Sum(s.tasks)
      && (limit != 0 ==> s.used <= limit)
      && s.active <= s.tokens <= capacity
  {
    RunKeeps(Start(limit, capacity), events);
    ActiveHoldTokens(Run(Start(limit, capacity), events).tasks);
  }

  lemma {:induction false} ActiveHoldTokens(tasks: seq<Task>)
    ensures Sum(tasks).active <= Sum(tasks).tokens
    decreases |tasks|
  {
    if tasks != [] {
      ActiveHoldTokens(tasks[..|tasks| - 1]);
    }
  }

  /** The most memory in use over a run. */
  ghost function HighWater(s: State, events: seq<Event>): nat
    requires Possible(s, events)
    decreases |events|
  {
    if events == [] then s.used else Max(s.used, HighWater(Step(s, events[0]), events[1..]))
  }

  lemma StepPeak(s: State, e: Event)
    requires s.used <= s.peak && Enabled(s, e) && s.used <= MAX_UINT64
    ensures Step(s, e).peak == Max(s.peak, Step(s, e).used)
  {
  }

  lemma {:induction false} PeakOver(s: State, events: seq<Event>)
    requires s.used <= s.peak && Possible(s, events)
    ensures Run(s, events).peak == Max(s.peak, HighWater(s, events))
    decreases |events|
  {
    hide Step, Enabled;
    if events != [] {
      StepPeak(s, events[0]);
      PeakOver(Step(s, events[0]), events[1..]);
    }
  }

  /** The recorded peak is the most memory in use at any point of the run. */
  lemma PeakIsHighWater(limit: Amount, capacity: nat, events: seq<Event>)
    requires Possible(Start(limit, capacity), events)
    ensures Run(Start(limit, capacity), events).peak == HighWater(Start(limit, capacity), events)
  {
    PeakOver(Start(limit, capacity), events);
  }

  /** No wake-up is lost: a waiter whose amount fits now can proceed, its channel is closed. */
  lemma NoLostWakeup(limit: Amount, capacity: nat, events: seq<Event>, task: nat)
    requires Possible(Start(limit, capacity), events)
    requires var s := Run(Start(limit, capacity), events);
      task < |s.tasks| && s.tasks[task].phase.Waiting? && Fits(s, s.tasks[task].amount)
    ensures var s := Run(Start(limit, capacity), events);
      Enabled(s, AcquireMemory(task)) && s.used <= MAX_UINT64 && At(Step(s, AcquireMemory(task)), task, Running)
  {
    RunKeeps(Start(limit, capacity), events);
    var s := Run(Start(limit, capacity), events);
    assert WaitsRightly(s, s.tasks[task]);
  }

  // ----- Progress ----------------------------------------------------------------------------------------

  predicate Ended(t: Task) {
    t.phase.Finished? || t.phase.Abandoned?
  }

  /** A step that brings a task on; cancellations and arrivals are the environment's. */
  predicate Advances(s: State, e: Event) {
    Enabled(s, e) && !e.Arrive? && !e.GiveUp? && !e.CancelWaiting? && !e.RefuseMemory?
  }

  /** A task that neither has ended, queues nor waits can go on by itself. */
  lemma Goes(s: State, i: nat) returns (e: Event)
    requires i < |s.tasks| && !Ended(s.tasks[i])
    requires !s.tasks[i].phase.Queued? && (s.tasks[i].phase.Waiting? ==> s.tasks[i].phase.channel < s.current)
    ensures Advances(s, e)
  {
    match s.tasks[i].phase {
      case Arrived => e := if s.tokens < s.capacity then TakeToken(i) else FindFull(i);
      case Barred => e := JoinQueue(i);
      case Withdrawing => e := LeaveQueue(i);
      case HasToken(_) => e := CountActive(i);
      case LeavingQueue => e := LeaveQueue(i);
      case Admitted => e := AcquireMemory(i);
      case Waiting(_) => e := AcquireMemory(i);
      case Running => e := ReleaseMemory(i);
      case Released => e := Leave(i);
      case Rejected => e := Leave(i);
      case Leaving => e := Complete(i);
      case Completed => e := ReturnToken(i);
    }
  }

  /** Memory in use is some running task's, and a token taken is some task's. */
  lemma {:induction false} HolderOf(tasks: seq<Task>) returns (memory: nat, token: nat)
    ensures Sum(tasks).used > 0 ==> memory < |tasks| && tasks[memory].phase.Running?
    ensures Sum(tasks).tokens > 0 ==> token < |tasks| && Share(tasks[token]).tokens > 0
    decreases |tasks|
  {
    memory, token := 0, 0;
    if tasks != [] {
      var n := |tasks| - 1;
      memory, token := HolderOf(tasks[..n]);
      if Share(tasks[n]).used > 0 {
        memory := n;
      }
      if Share(tasks[n]).tokens > 0 {
        token := n;
      }
    }
  }

  /** A task that waits while nothing fits waits for a running one. */
  lemma WaiterGoes(s: State, i: nat) returns (e: Event)
    requires Inv(s) && i < |s.tasks| && s.tasks[i].phase.Waiting?
    ensures Advances(s, e)
  {
    assert WaitsRightly(s, s.tasks[i]);
    hide Sum, Share;
    if s.tasks[i].phase.channel < s.current {
      e := Goes(s, i);
    } else {
      var memory, token := HolderOf(s.tasks);
      e := ReleaseMemory(memory);
    }
  }

  /** No deadlock: with any capacity, while some task has not ended, some task can go on without the help of a
      cancellation or an arrival. */
  lemma NoDeadlock(limit: Amount, capacity: nat, events: seq<Event>, task: nat)
    requires Possible(Start(limit, capacity), events) && capacity > 0
    requires task < |Run(Start(limit, capacity), events).tasks| && !Ended(Run(Start(limit, capacity), events).tasks[task])
    ensures exists e :: Advances(Run(Start(limit, capacity), events), e)
  {
    RunKeeps(Start(limit, capacity), events);
    var s := Run(Start(limit, capacity), events);
    hide Inv, Run, Advances, Sum;
    var e: Event;
    if s.tasks[task].phase.Waiting? {
      e := WaiterGoes(s, task);
    } else if !s.tasks[task].phase.Queued? {
      e := Goes(s, task);
    } else {
      e := QueuedGoes(s, task);
    }
  }

  lemma QueuedGoes(s: State, i: nat) returns (e: Event)
    requires Inv(s) && s.capacity > 0 && i < |s.tasks| && s.tasks[i].phase.Queued?
    ensures Advances(s, e)
  {
    hide Sum, WaitsRightly;
    if s.tokens < s.capacity {
      e := TakeToken(i);
    } else {
      var memory, token := HolderOf(s.tasks);
      if s.tasks[token].phase.Waiting? {
        e := WaiterGoes(s, token);
      } else {
        e := Goes(s, token);
      }
    }
  }

  /** Nothing leaks on any path: once every task has finished, nothing is held or counted as waiting. */
  lemma NothingLeaks(limit: Amount, capacity: nat, events: seq<Event>)
    requires Possible(Start(limit, capacity), events)
    requires forall t :: t in Run(Start(limit, capacity), events).tasks ==> t.phase.Finished? || t.phase.Abandoned?
    ensures var s := Run(Start(limit, capacity), events);
      s.used == 0 && s.waiters == 0 && s.tokens == 0 && s.active == 0 && s.queued == 0
  {
    RunKeeps(Start(limit, capacity), events);
    AllFinished(Run(Start(limit, capacity), events).tasks);
  }

  lemma {:induction false} AllFinished(tasks: seq<Task>)
    requires forall t :: t in tasks ==> t.phase.Finished? || t.phase.Abandoned?
    ensures Sum(tasks) == NOTHING.(completed := Sum(tasks).completed)
    decreases |tasks|
  {
    if tasks != [] {
      AllFinished(tasks[..|tasks| - 1]);
    }
  }
}
