/** The bot's outbound admission-control queue (`RateLimiter` in
    src/utils/rateLimiter.ts). Tasks wait in a queue kept in non-increasing
    priority order; one pass of `processQueue` resets the expired counters,
    admits the first task that the limits allow, bumps the counters and then
    handles the Telegram outcome of that task. The limits are those of the
    Telegram Bots FAQ: 30 messages per second overall, one per second to a
    private chat, 20 per minute to a group.

    The clock and the API outcome of the admitted task are parameters of a
    pass; timers, promises and the task closures are not modelled. */
module RateLimiting {
  import opened Wrappers
  import opened Telegram
  import StableSort

  const GroupChatLimit: nat := 20
  const BroadcastLimit: nat := 30
  const Minute: int := 60 * 1000
  const Second: int := 1000
  /** `Math.max(SECOND / BROADCAST_LIMIT, 100)`: the wait before the next pass
      when no queued task is admissible. */
  const BlockedWait: int := 100
  /** `Math.max(SECOND / BROADCAST_LIMIT, 50)`: the pause after an admitted task. */
  const PacingDelay: int := 50

  /** A queued task; `id` stands for the task closure and its promise. */
  datatype Task = Task(id: nat, chatId: int, chatType: ChatType, priority: int)

  datatype Counter = Counter(count: nat, lastReset: int)

  /** What the admitted task's Telegram call did: it succeeded, or it threw an
      error whose response may carry `error_code` and `parameters.retry_after`. */
  datatype Outcome = Sent | Failed(errorCode: Option<int>, retryAfter: Option<int>)

  /** What a pass did and how long it waits before the next pass. */
  datatype PassResult =
    | Idle
    | Blocked(wait: int)
    | Delivered(task: Task)
    | Requeued(task: Task, wait: int)
    | Rejected(task: Task)
  {
    predicate Admitted() { Delivered? || Requeued? || Rejected? }
  }

  /** The fields of a `RateLimiter` object as one value. */
  datatype Limiter = Limiter(
    queue: seq<Task>,
    isProcessing: bool,
    chatCounters: map<int, Counter>,
    globalCounter: Counter,
    groupCounters: map<int, Counter>)

  /** The sort key of `(a, b) => b.priority - a.priority`: ascending order of
      this key is non-increasing priority. */
  function NegPriority(t: Task): int {
    -t.priority
  }

  /** The queue after `enqueue`: push, then the stable sort. */
  function Enqueued(queue: seq<Task>, t: Task): seq<Task> {
    StableSort.Sort(queue + [t], NegPriority)
  }

  /** The caps the counters never pass. */
  predicate Valid(l: Limiter) {
    l.globalCounter.count <= BroadcastLimit &&
    forall c :: c in l.groupCounters ==> l.groupCounters[c].count <= GroupChatLimit
  }

  /** The global counter at the start of a pass. */
  function ResetGlobal(g: Counter, now: int): Counter {
    if now - g.lastReset >= Second then Counter(0, now) else g
  }

  /** The group counters at the start of a pass: those set a minute ago or
      earlier are deleted. */
  function PurgeGroups(groups: map<int, Counter>, now: int): map<int, Counter> {
    map c | c in groups && now - groups[c].lastReset < Minute :: groups[c]
  }

  /** The state once a pass over a non-empty queue has reset its counters. */
  function Reset(l: Limiter, now: int): Limiter {
    l.(isProcessing := true,
       globalCounter := ResetGlobal(l.globalCounter, now),
       groupCounters := PurgeGroups(l.groupCounters, now))
  }

  /** A group's count, 0 when it has no counter. */
  function GroupCount(groups: map<int, Counter>, chatId: int): nat {
    if chatId in groups then groups[chatId].count else 0
  }

  /** The `findIndex` predicate of a pass. */
  predicate Admissible(t: Task, l: Limiter, now: int) {
    l.globalCounter.count < BroadcastLimit &&
    match t.chatType
    case Private =>
      !(t.chatId in l.chatCounters && now - l.chatCounters[t.chatId].lastReset < Second)
    case Group => GroupCount(l.groupCounters, t.chatId) < GroupChatLimit
    case Supergroup => GroupCount(l.groupCounters, t.chatId) < GroupChatLimit
    case Channel => true
  }

  predicate IsFirstAdmissible(queue: seq<Task>, l: Limiter, now: int, i: nat) {
    i < |queue| && Admissible(queue[i], l, now) &&
    forall j :: 0 <= j < i ==> !Admissible(queue[j], l, now)
  }

  /** `queue.findIndex(...)`, with `None` for -1. */
  function FirstAdmissible(queue: seq<Task>, l: Limiter, now: int): (r: Option<nat>)
    ensures r.Some? ==> IsFirstAdmissible(queue, l, now, r.value)
    ensures r.None? ==> forall i :: 0 <= i < |queue| ==> !Admissible(queue[i], l, now)
  {
    if queue == [] then None
    else if Admissible(queue[0], l, now) then Some(0)
    else match FirstAdmissible(queue[1..], l, now)
      case None => None
      case Some(i) => Some(i + 1)
  }

  /** The loop `findIndex` runs, proved to find the same index. */
  method FindAdmissible(queue: seq<Task>, l: Limiter, now: int) returns (index: Option<nat>)
    ensures index.Some? <==> exists i :: IsFirstAdmissible(queue, l, now, i)
    ensures index.Some? ==> IsFirstAdmissible(queue, l, now, index.value)
    ensures index == FirstAdmissible(queue, l, now)
  {
    var i := 0;
    while i < |queue|
      invariant 0 <= i <= |queue|
      invariant forall j :: 0 <= j < i ==> !Admissible(queue[j], l, now)
    {
      if Admissible(queue[i], l, now) {
        FirstAdmissibleIsUnique(queue, l, now, i);
        return Some(i);
      }
      i := i + 1;
    }
    return None;
  }

  lemma FirstAdmissibleIsUnique(queue: seq<Task>, l: Limiter, now: int, i: nat)
    requires IsFirstAdmissible(queue, l, now, i)
    ensures FirstAdmissible(queue, l, now) == Some(i)
  {
  }

  /** `queue.splice(i, 1)`. */
  function RemoveAt(queue: seq<Task>, i: nat): seq<Task>
    requires i < |queue|
  {
    queue[..i] + queue[i + 1..]
  }

  /** The counter updates made before the admitted task runs. */
  function Admit(l: Limiter, t: Task, now: int): Limiter {
    var global := l.globalCounter.(count := l.globalCounter.count + 1);
    match t.chatType
    case Private =>
      l.(globalCounter := global, chatCounters := l.chatCounters[t.chatId := Counter(1, now)])
    case Group => l.(globalCounter := global, groupCounters := BumpGroup(l.groupCounters, t.chatId, now))
    case Supergroup => l.(globalCounter := global, groupCounters := BumpGroup(l.groupCounters, t.chatId, now))
    case Channel => l.(globalCounter := global)
  }

  function BumpGroup(groups: map<int, Counter>, chatId: int, now: int): map<int, Counter> {
    var g := if chatId in groups then groups[chatId] else Counter(0, now);
    groups[chatId := g.(count := g.count + 1)]
  }

  /** `retry_after || 1` seconds, in milliseconds. */
  function RetryWait(retryAfter: Option<int>): int {
    (if retryAfter.Some? && retryAfter.value != 0 then retryAfter.value else 1) * 1000
  }

  /** One `processQueue` pass at time `now`, where `outcome` is what the
      admitted task's call does. */
  function Pass(l: Limiter, now: int, outcome: Outcome): (Limiter, PassResult) {
    if |l.queue| == 0 then (l.(isProcessing := false), Idle)
    else
      var r := Reset(l, now);
      match FirstAdmissible(r.queue, r, now)
      case None => (r, Blocked(BlockedWait))
      case Some(i) =>
        var t := r.queue[i];
        var admitted := Admit(r.(queue := RemoveAt(r.queue, i)), t, now);
        match outcome
        case Sent => (admitted, Delivered(t))
        case Failed(code, retryAfter) =>
          if code == Some(429) then
            (admitted.(queue := [t.(priority := t.priority + 1)] + admitted.queue),
             Requeued(t, RetryWait(retryAfter)))
          else (admitted, Rejected(t))
  }

  /** When the next pass starts after this one: never once the queue has
      run dry, after the blocked wait when nothing was admissible, and after
      an admitted task once its 429 retry wait (if any) and then the pacing
      delay have passed. */
  function NextPassDelay(r: PassResult): Option<int> {
    match r
    case Idle => None
    case Blocked(wait) => Some(TimerDelay(wait))
    case Delivered(_) => Some(TimerDelay(PacingDelay))
    case Requeued(_, wait) => Some(TimerDelay(wait) + TimerDelay(PacingDelay))
    case Rejected(_) => Some(TimerDelay(PacingDelay))
  }

  /** The delay Node's `setTimeout` actually waits: a delay below 1 ms or
      above 2^31 - 1 ms becomes 1 ms. */
  function TimerDelay(ms: int): (d: int)
    ensures 1 <= d <= 0x7FFF_FFFF
    ensures 1 <= ms <= 0x7FFF_FFFF ==> d == ms
  {
    if ms < 1 || ms > 0x7FFF_FFFF then 1 else ms
  }

  /** A pass that admits a task is followed by at least the pacing delay,
      one that admits nothing by the blocked wait, and only an empty queue
      stops the passes. */
  lemma PassIsPaced(l: Limiter, now: int, outcome: Outcome)
    ensures var r := Pass(l, now, outcome).1;
      (r.Admitted() ==> NextPassDelay(r).Some? && NextPassDelay(r).value >= PacingDelay)
      && (r.Blocked? ==> NextPassDelay(r) == Some(BlockedWait))
      && (NextPassDelay(r).None? <==> |l.queue| == 0)
  {
  }

  /** Tasks admitted at least the pacing delay apart: the last comes at
      least `PacingDelay` times the number of gaps after the first. */
  lemma {:induction false} PacedSpan(times: seq<int>)
    requires |times| >= 1
    requires forall i :: 0 <= i < |times| - 1 ==> times[i + 1] - times[i] >= PacingDelay
    ensures times[|times| - 1] - times[0] >= PacingDelay * (|times| - 1)
  {
    if |times| > 1 {
      PacedSpan(times[..|times| - 1]);
    }
  }

  /** One chain of passes admits at most 20 tasks in any second: the pacing
      delay alone caps it below the broadcast limit of 30. */
  lemma PacingCapsRate(times: seq<int>, start: int)
    requires forall i :: 0 <= i < |times| - 1 ==> times[i + 1] - times[i] >= PacingDelay
    requires forall i :: 0 <= i < |times| ==> start <= times[i] < start + Second
    ensures |times| <= Second / PacingDelay
    ensures Second / PacingDelay < BroadcastLimit
  {
    if |times| >= 1 {
      PacedSpan(times);
    }
  }

  /** The task a pass admitted. */
  function AdmittedTask(r: PassResult): Task
    requires r.Admitted()
  {
    match r
    case Delivered(t) => t
    case Requeued(t, _) => t
    case Rejected(t) => t
  }

  class RateLimiter {
    var queue: seq<Task>
    var isProcessing: bool
    var chatCounters: map<int, Counter>
    var globalCounter: Counter
    var groupCounters: map<int, Counter>

    function Model(): Limiter
      reads this
    {
      Limiter(queue, isProcessing, chatCounters, globalCounter, groupCounters)
    }

    /** A limiter created at time `now`. */
    constructor(now: int)
      ensures Model() == Limiter([], false, map[], Counter(0, now), map[])
      ensures Valid(Model())
    {
      queue := [];
      isProcessing := false;
      chatCounters := map[];
      globalCounter := Counter(0, now);
      groupCounters := map[];
    }

    /** `enqueue`: push and re-sort. `startsPass` says whether the call starts
        a `processQueue` pass, which happens only when none is running; the
        pass sets `isProcessing` before its first wait. */
    method Enqueue(t: Task) returns (startsPass: bool)
      modifies this
      ensures queue == Enqueued(old(queue), t)
      ensures startsPass == !old(isProcessing)
      ensures isProcessing
      ensures chatCounters == old(chatCounters) && globalCounter == old(globalCounter)
      ensures groupCounters == old(groupCounters)
    {
      queue := StableSort.Sort(queue + [t], NegPriority);
      startsPass := !isProcessing;
      isProcessing := true;
    }

    /** One `processQueue` pass. */
    method Step(now: int, outcome: Outcome) returns (result: PassResult)
      requires Valid(Model())
      modifies this
      ensures (Model(), result) == Pass(old(Model()), now, outcome)
      ensures Valid(Model())
    {
      PassKeepsValid(Model(), now, outcome);
      if |queue| == 0 {
        isProcessing := false;
        return Idle;
      }
      isProcessing := true;
      if now - globalCounter.lastReset >= Second {
        globalCounter := Counter(0, now);
      }
      PurgeExpiredGroups(now);
      ghost var r := Reset(old(Model()), now);
      assert Model() == r;
      var found := FindAdmissible(queue, Model(), now);
      if found.None? {
        return Blocked(BlockedWait);
      }
      var t := Splice(found.value);
      assert t == r.queue[found.value] && Model() == r.(queue := RemoveAt(r.queue, found.value));
      CountAdmission(t, now);
      ghost var admitted := Admit(r.(queue := RemoveAt(r.queue, found.value)), t, now);
      assert Model() == admitted;
      match outcome {
        case Sent =>
          result := Delivered(t);
        case Failed(code, retryAfter) =>
          if code == Some(429) {
            queue := [t.(priority := t.priority + 1)] + queue;
            result := Requeued(t, RetryWait(retryAfter));
          } else {
            result := Rejected(t);
          }
      }
    }

    /** `queue.splice(i, 1)[0]`. */
    method Splice(i: nat) returns (t: Task)
      requires i < |queue|
      modifies this
      ensures t == old(queue)[i] && queue == RemoveAt(old(queue), i)
      ensures isProcessing == old(isProcessing) && chatCounters == old(chatCounters)
      ensures globalCounter == old(globalCounter) && groupCounters == old(groupCounters)
    {
      t := queue[i];
      queue := queue[..i] + queue[i + 1..];
    }

    /** The counter updates made before the admitted task runs. */
    method CountAdmission(t: Task, now: int)
      modifies this
      ensures Model() == Admit(old(Model()), t, now)
    {
      globalCounter := globalCounter.(count := globalCounter.count + 1);
      match t.chatType {
        case Private =>
          chatCounters := chatCounters[t.chatId := Counter(1, now)];
        case Group =>
          groupCounters := BumpGroup(groupCounters, t.chatId, now);
        case Supergroup =>
          groupCounters := BumpGroup(groupCounters, t.chatId, now);
        case Channel =>
      }
    }

    /** The `for ... of groupCounters` loop deleting expired group counters. */
    method PurgeExpiredGroups(now: int)
      modifies this
      ensures groupCounters == PurgeGroups(old(groupCounters), now)
      ensures queue == old(queue) && isProcessing == old(isProcessing)
      ensures chatCounters == old(chatCounters) && globalCounter == old(globalCounter)
    {
      var keys := groupCounters.Keys;
      while keys != {}
        invariant keys <= old(groupCounters).Keys
        invariant groupCounters ==
          map c | c in old(groupCounters) && (c in keys || now - old(groupCounters)[c].lastReset < Minute)
            :: old(groupCounters)[c]
        invariant queue == old(queue) && isProcessing == old(isProcessing)
        invariant chatCounters == old(chatCounters) && globalCounter == old(globalCounter)
        decreases keys
      {
        HasElement(keys);
        var c :| c in keys;
        if now - groupCounters[c].lastReset >= Minute {
          groupCounters := groupCounters - {c};
        }
        keys := keys - {c};
      }
    }

    /** `clearChatCounters`. */
    method ClearChatCounters()
      modifies this
      ensures chatCounters == map[] && groupCounters == map[]
      ensures queue == old(queue) && isProcessing == old(isProcessing)
      ensures globalCounter == old(globalCounter)
      ensures Valid(old(Model())) ==> Valid(Model())
    {
      chatCounters := map[];
      groupCounters := map[];
    }
  }

  lemma HasElement(s: set<int>)
    requires s != {}
    ensures exists x :: x in s
  {
    if forall x :: x !in s {
      assert false;
    }
  }

  /** The global count never exceeds 30 and no group count exceeds 20. */
  lemma PassKeepsValid(l: Limiter, now: int, outcome: Outcome)
    requires Valid(l)
    ensures Valid(Pass(l, now, outcome).0)
  {
    if |l.queue| > 0 {
      var r := Reset(l, now);
      var found := FirstAdmissible(r.queue, r, now);
      if found.Some? {
        var t := r.queue[found.value];
        assert Admissible(t, r, now);
      }
    }
  }

  /** A pass over an empty queue ends the processing and changes nothing
      else; any other pass marks the limiter as processing. */
  lemma PassOnEmptyQueue(l: Limiter, now: int, outcome: Outcome)
    ensures l.queue == [] <==> Pass(l, now, outcome).1 == Idle
    ensures l.queue == [] ==> Pass(l, now, outcome).0 == l.(isProcessing := false)
    ensures l.queue != [] ==> Pass(l, now, outcome).0.isProcessing
  {
  }

  /** A pass waits exactly when the queue holds no task admissible after the
      resets, and then nothing but the resets changes. */
  lemma PassBlocksIffNoneAdmissible(l: Limiter, now: int, outcome: Outcome)
    ensures Pass(l, now, outcome).1.Blocked? <==>
      l.queue != [] && forall i :: 0 <= i < |l.queue| ==> !Admissible(l.queue[i], Reset(l, now), now)
    ensures Pass(l, now, outcome).1.Blocked? ==>
      Pass(l, now, outcome) == (Reset(l, now), Blocked(100))
  {
    if l.queue != [] {
      var r := Reset(l, now);
      if FirstAdmissible(r.queue, r, now).Some? {
        var i := FirstAdmissible(r.queue, r, now).value;
        assert Admissible(l.queue[i], r, now);
      }
    }
  }

  /** An admitting pass takes the first task admissible after the resets out
      of the queue by splice and leaves every other task in its place; on a
      429 the task goes back to the front with one more priority. */
  lemma PassAdmitsFirstAdmissible(l: Limiter, now: int, outcome: Outcome)
    requires Pass(l, now, outcome).1.Admitted()
    ensures FirstAdmissible(l.queue, Reset(l, now), now).Some?
    ensures var i := FirstAdmissible(l.queue, Reset(l, now), now).value;
      var t := l.queue[i];
      IsFirstAdmissible(l.queue, Reset(l, now), now, i)
      && AdmittedTask(Pass(l, now, outcome).1) == t
      && Pass(l, now, outcome).0.queue ==
           (if outcome.Failed? && outcome.errorCode == Some(429) then [t.(priority := t.priority + 1)] else [])
           + l.queue[..i] + l.queue[i + 1..]
  {
    var r := Reset(l, now);
    var i := FirstAdmissible(r.queue, r, now).value;
    assert Admit(r.(queue := RemoveAt(r.queue, i)), l.queue[i], now).queue == RemoveAt(l.queue, i);
  }

  /** At the start of a pass the global counter restarts at {0, now} once a
      second has passed; every group counter a minute old or older is deleted
      and the others are kept as they were; private counters and the queue are
      not touched. */
  lemma ResetRules(l: Limiter, now: int)
    ensures Reset(l, now).globalCounter ==
      (if now - l.globalCounter.lastReset >= 1000 then Counter(0, now) else l.globalCounter)
    ensures forall c :: c in Reset(l, now).groupCounters <==>
      c in l.groupCounters && now - l.groupCounters[c].lastReset < 60000
    ensures forall c :: c in Reset(l, now).groupCounters ==> Reset(l, now).groupCounters[c] == l.groupCounters[c]
    ensures Reset(l, now).chatCounters == l.chatCounters && Reset(l, now).queue == l.queue
  {
  }

  /** Admitting a task adds one to the global count; a private chat's counter
      becomes {1, now}; a group's counter is incremented keeping its lastReset,
      or created at {1, now}; no other counter changes. */
  lemma AdmitCounters(l: Limiter, now: int, outcome: Outcome)
    requires Pass(l, now, outcome).1.Admitted()
    ensures var (l', r) := Pass(l, now, outcome);
      var t := AdmittedTask(r);
      var before := Reset(l, now);
      l'.globalCounter == Counter(before.globalCounter.count + 1, before.globalCounter.lastReset)
      && (t.chatType == Private ==> l'.chatCounters == before.chatCounters[t.chatId := Counter(1, now)])
      && (t.chatType != Private ==> l'.chatCounters == before.chatCounters)
      && ((t.chatType == Group || t.chatType == Supergroup) ==>
            l'.groupCounters.Keys == before.groupCounters.Keys + {t.chatId}
            && l'.groupCounters[t.chatId] ==
                 (if t.chatId in before.groupCounters
                  then Counter(before.groupCounters[t.chatId].count + 1, before.groupCounters[t.chatId].lastReset)
                  else Counter(1, now))
            && forall c :: c in before.groupCounters && c != t.chatId ==> l'.groupCounters[c] == before.groupCounters[c])
      && ((t.chatType == Private || t.chatType == Channel) ==> l'.groupCounters == before.groupCounters)
  {
    var r := Reset(l, now);
    var i := FirstAdmissible(r.queue, r, now).value;
    assert AdmittedTask(Pass(l, now, outcome).1) == r.queue[i];
  }

  /** A private chat that received a task at `now` gets nothing more while
      less than a second has passed. */
  lemma PrivateCooldown(l: Limiter, now: int, outcome: Outcome, later: int, t: Task)
    requires Pass(l, now, outcome).1.Admitted()
    requires AdmittedTask(Pass(l, now, outcome).1).chatType == Private
    requires t.chatType == Private && t.chatId == AdmittedTask(Pass(l, now, outcome).1).chatId
    requires later - now < 1000
    ensures !Admissible(t, Reset(Pass(l, now, outcome).0, later), later)
  {
    AdmitCounters(l, now, outcome);
  }

  /** A group counter at 20 blocks every task to that group until it expires,
      and a pass never moves a surviving counter's lastReset: a new counter
      starts at {1, now}. So a group gets at most 20 tasks in the minute after
      its counter is created. */
  lemma GroupCapHolds(l: Limiter, now: int, outcome: Outcome, t: Task)
    requires l.queue != []
    requires t.chatType == Group || t.chatType == Supergroup
    ensures GroupCount(Reset(l, now).groupCounters, t.chatId) >= 20 ==> !Admissible(t, Reset(l, now), now)
    ensures forall c :: c in Pass(l, now, outcome).0.groupCounters ==>
      (c in Reset(l, now).groupCounters
         && Pass(l, now, outcome).0.groupCounters[c].lastReset == Reset(l, now).groupCounters[c].lastReset)
      || Pass(l, now, outcome).0.groupCounters[c] == Counter(1, now)
  {
    var res := Pass(l, now, outcome).1;
    if res.Admitted() {
      AdmitCounters(l, now, outcome);
    }
  }

  /** With 30 admissions in the current second no task is admitted. */
  lemma GlobalCapBlocks(l: Limiter, now: int, outcome: Outcome)
    requires l.queue != []
    requires ResetGlobal(l.globalCounter, now).count >= 30
    ensures Pass(l, now, outcome).1 == Blocked(100)
  {
    PassBlocksIffNoneAdmissible(l, now, outcome);
  }

  /** In a queue sorted by `enqueue`, the admitted task has the highest
      priority among the admissible ones. */
  lemma SortedQueueAdmitsHighest(l: Limiter, now: int, outcome: Outcome)
    requires StableSort.SortedBy(l.queue, NegPriority)
    requires Pass(l, now, outcome).1.Admitted()
    ensures forall i :: 0 <= i < |l.queue| && Admissible(l.queue[i], Reset(l, now), now) ==>
      l.queue[i].priority <= AdmittedTask(Pass(l, now, outcome).1).priority
  {
    PassAdmitsFirstAdmissible(l, now, outcome);
    var k := FirstAdmissible(l.queue, Reset(l, now), now).value;
    forall i | 0 <= i < |l.queue| && Admissible(l.queue[i], Reset(l, now), now)
      ensures l.queue[i].priority <= l.queue[k].priority
    {
      if i != k {
        assert NegPriority(l.queue[k]) <= NegPriority(l.queue[i]);
      }
    }
  }

  /** A 429 puts the task back at the front with one more priority, without
      re-sorting: when it was not the queue's first task the queue is left out
      of priority order until the next `enqueue`. */
  lemma RequeueCanUnsortQueue()
    ensures var blocked := Task(1, 7, Private, 5);
      var channel := Task(2, -100, Channel, 0);
      var l := Limiter([blocked, channel], true, map[7 := Counter(1, 0)], Counter(0, 0), map[]);
      StableSort.SortedBy(l.queue, NegPriority)
      && Pass(l, 500, Failed(Some(429), None)) == (
           l.(queue := [channel.(priority := 1), blocked], globalCounter := Counter(1, 0)),
           Requeued(channel, 1000))
      && !StableSort.SortedBy(Pass(l, 500, Failed(Some(429), None)).0.queue, NegPriority)
  {
    var blocked := Task(1, 7, Private, 5);
    var channel := Task(2, -100, Channel, 0);
    var l := Limiter([blocked, channel], true, map[7 := Counter(1, 0)], Counter(0, 0), map[]);
    var r := Reset(l, 500);
    assert r.groupCounters == map[];
    assert !Admissible(blocked, r, 500);
    assert Admissible(channel, r, 500);
    assert IsFirstAdmissible(r.queue, r, 500, 1);
    FirstAdmissibleIsUnique(r.queue, r, 500, 1);
    assert RemoveAt(r.queue, 1) == [blocked];
    var q := Pass(l, 500, Failed(Some(429), None)).0.queue;
    assert q == [channel.(priority := 1), blocked];
    assert NegPriority(q[0]) > NegPriority(q[1]);
  }

  /** `enqueue` adds exactly the new task; the queue ends in non-increasing
      priority order; tasks of equal priority keep their arrival order; and in
      a sorted queue the new task goes after every task of priority at least
      its own and before the rest. */
  lemma EnqueueSorts(queue: seq<Task>, t: Task, p: int)
    ensures StableSort.SortedBy(Enqueued(queue, t), NegPriority)
    ensures multiset(Enqueued(queue, t)) == multiset(queue) + multiset{t}
    ensures StableSort.WithKey(Enqueued(queue, t), NegPriority, -p)
         == StableSort.WithKey(queue + [t], NegPriority, -p)
    ensures StableSort.SortedBy(queue, NegPriority) ==>
      var k := StableSort.InsertIndex(queue, t, NegPriority);
      Enqueued(queue, t) == queue[..k] + [t] + queue[k..]
      && (forall i :: 0 <= i < k ==> queue[i].priority >= t.priority)
      && (forall i :: k <= i < |queue| ==> queue[i].priority < t.priority)
  {
    StableSort.SortIsSortedPermutation(queue + [t], NegPriority);
    StableSort.SortIsStable(queue + [t], NegPriority, -p);
    if StableSort.SortedBy(queue, NegPriority) {
      StableSort.SortAppend(queue, t, NegPriority);
      StableSort.InsertIndexSorted(queue, t, NegPriority);
      StableSort.InsertSplit(queue, t, NegPriority);
    }
  }

  /** The four wrappers that put Telegram calls on the queue. */
  datatype SafeCall = SendMessage | CopyMessage | EditMessage | DeleteMessage

  /** The task a wrapper enqueues: priority 0 and, when the caller gives no
      chat type, 'private' for `sendSafeMessage` and 'channel' for the other
      three. */
  function SafeCallTask(call: SafeCall, id: nat, chatId: int, chatType: Option<ChatType>): (t: Task)
    ensures t.chatId == chatId && t.id == id && t.priority == 0
    ensures chatType.Some? ==> t.chatType == chatType.value
  {
    Task(id, chatId, chatType.GetOr(if call == SendMessage then Private else Channel), 0)
  }

  /** Without an explicit chat type, a copy, edit or delete faces only the
      global cap, while a send to a chat is held by the private cooldown. */
  lemma SafeCallDefaults(call: SafeCall, id: nat, chatId: int, l: Limiter, now: int)
    ensures call != SendMessage ==>
      (Admissible(SafeCallTask(call, id, chatId, None), l, now) <==> l.globalCounter.count < 30)
    ensures call == SendMessage ==>
      (Admissible(SafeCallTask(call, id, chatId, None), l, now) <==>
         l.globalCounter.count < 30
         && !(chatId in l.chatCounters && now - l.chatCounters[chatId].lastReset < 1000))
  {
  }
}
