/**
 The parallel check queue (src/checkqueue.h) as a state machine whose steps are the critical
 sections of one master and any number of workers, interleaved in any order.
 */
module CheckQueue {
  import opened Wrappers

  /** A verification to perform, with the answer it will give. */
  datatype Check = Check(id: nat, result: bool)

  datatype Thread =
    | Outside
    | Waiting(notified: bool)
    | Working(batch: seq<Check>, executed: nat, ok: bool)

  const MASTER := 0

  /** `added` records the checks added since the master's last return. */
  datatype State = State(
    queue: seq<Check>,
    nIdle: int,
    nTotal: int,
    allOk: bool,
    nTodo: int,
    quit: bool,
    batchSize: nat,
    threads: seq<Thread>,
    added: seq<Check>)

  datatype Event =
    | Add(checks: seq<Check>)
    | Enter(thread: nat)
    | Execute(thread: nat)
    | Finish(thread: nat)
    | Wake(thread: nat)

  /** The state after an event and, when a call of Wait returned, its answer. */
  datatype Outcome = Blocked | Moved(state: State, answer: Option<bool>)

  function Init(threads: nat, batchSize: nat): State {
    State([], 0, 0, true, 0, false, batchSize, seq(threads + 1, i => Outside), [])
  }

  // ---- the steps ----

  /** How many checks to take: fewer when more threads share them, at least one. */
  function BatchCount(s: State): nat
    requires s.nTotal + s.nIdle + 1 > 0
  {
    var share := |s.queue| / (s.nTotal + s.nIdle + 1);
    var capped := if s.batchSize < share then s.batchSize else share;
    if capped < 1 then 1 else capped
  }

  /** The last n checks of the queue, the last one first. */
  function TakeBack(queue: seq<Check>, n: nat): seq<Check>
    requires n <= |queue|
  {
    if n == 0 then [] else [queue[|queue| - 1]] + TakeBack(queue[..|queue| - 1], n - 1)
  }

  /** From the top of the inner loop on: return, wait, or take a batch. */
  function LoopHead(s: State, t: nat): Outcome
    requires t < |s.threads|
  {
    if s.queue == [] then
      if (t == MASTER || s.quit) && s.nTodo == 0 then
        var s' := s.(nTotal := s.nTotal - 1, threads := s.threads[t := Outside]);
        if t == MASTER then Moved(s'.(allOk := true, added := []), Some(s.allOk)) else Moved(s', None)
      else
        Moved(s.(nIdle := s.nIdle + 1, threads := s.threads[t := Waiting(false)]), None)
    else if s.nTotal + s.nIdle + 1 <= 0 || BatchCount(s) > |s.queue| then Blocked
    else
      var n := BatchCount(s);
      Moved(s.(queue := s.queue[..|s.queue| - n],
               threads := s.threads[t := Working(TakeBack(s.queue, n), 0, s.allOk)]), None)
  }

  /** Wake the master up, if it is waiting. */
  function NotifyMaster(threads: seq<Thread>): seq<Thread>
    requires |threads| > 0
  {
    if threads[MASTER].Waiting? then threads[MASTER := Waiting(true)] else threads
  }

  /** A thread enters the loop. */
  function Entered(s: State): State {
    s.(nTotal := s.nTotal + 1)
  }

  /** A thread that was woken is on its way back to the top of the inner loop. */
  function Woken(s: State, t: nat): State
    requires t < |s.threads|
  {
    s.(nIdle := s.nIdle - 1, threads := s.threads[t := Outside])
  }

  /** A thread hands in its batch; a worker that finished the last check notifies the master. */
  function HandedIn(s: State, t: nat): State
    requires t < |s.threads| && s.threads[t].Working?
  {
    var todo := s.nTodo - |s.threads[t].batch|;
    var threads := s.threads[t := Outside];
    s.(allOk := s.allOk && s.threads[t].ok, nTodo := todo,
       threads := if todo == 0 && t != MASTER then NotifyMaster(threads) else threads)
  }

  function Next(s: State, e: Event): Outcome {
    if |s.threads| == 0 then Blocked else
    match e
    case Add(checks) =>
      // The master adds checks before it joins the workers.
      if !s.threads[MASTER].Outside? then Blocked
      else Moved(s.(queue := s.queue + checks, nTodo := s.nTodo + |checks|, added := s.added + checks), None)
    case Enter(t) =>
      if t >= |s.threads| || !s.threads[t].Outside? then Blocked
      else LoopHead(Entered(s), t)
    case Execute(t) =>
      if t >= |s.threads| || !s.threads[t].Working? || s.threads[t].executed >= |s.threads[t].batch| then Blocked
      else
        var Working(batch, executed, ok) := s.threads[t];
        Moved(s.(threads := s.threads[t := Working(batch, executed + 1, ok && batch[executed].result)]), None)
    case Finish(t) =>
      if t >= |s.threads| || !s.threads[t].Working? || s.threads[t].executed < |s.threads[t].batch| then Blocked
      else LoopHead(HandedIn(s, t), t)
    case Wake(t) =>
      if t >= |s.threads| || !s.threads[t].Waiting? then Blocked
      else LoopHead(Woken(s, t), t)
  }

  // ---- what every step keeps ----

  ghost predicate AllTrue(checks: seq<Check>) {
    forall i :: 0 <= i < |checks| ==> checks[i].result
  }

  ghost function Held(t: Thread): nat {
    if t.Working? then |t.batch| else 0
  }

  ghost function InHand(threads: seq<Thread>): nat {
    if threads == [] then 0 else InHand(threads[..|threads| - 1]) + Held(threads[|threads| - 1])
  }

  ghost function Busy(threads: seq<Thread>): nat {
    if threads == [] then 0
    else Busy(threads[..|threads| - 1]) + (if threads[|threads| - 1].Outside? then 0 else 1)
  }

  ghost function Idle(threads: seq<Thread>): nat {
    if threads == [] then 0
    else Idle(threads[..|threads| - 1]) + (if threads[|threads| - 1].Waiting? then 1 else 0)
  }

  /** A thread has seen no failure, and none is left in its batch. */
  ghost predicate Clean(t: Thread) {
    t.Working? && t.executed <= |t.batch| ==> t.ok && AllTrue(t.batch[t.executed..])
  }

  ghost predicate AllClean(threads: seq<Thread>) {
    forall i :: 0 <= i < |threads| ==> Clean(threads[i])
  }

  ghost predicate ThreadOk(t: Thread) {
    t.Working? ==> 0 < |t.batch| && t.executed <= |t.batch|
  }

  /**
   The invariant. The third line accounts for every check, executed or skipped: the checks
   added so far all succeed exactly when no failure was recorded, none is held by a thread
   and none is left to find.
   */
  ghost predicate Inv(s: State) {
    && |s.threads| > 0 && !s.quit && (forall i :: 0 <= i < |s.threads| ==> ThreadOk(s.threads[i]))
    && s.nTodo == |s.queue| + InHand(s.threads)
    && (AllTrue(s.added) <==> s.allOk && AllTrue(s.queue) && AllClean(s.threads))
    && s.nTotal == Busy(s.threads) && s.nIdle == Idle(s.threads)
    && (s.threads[MASTER].Waiting? ==> s.queue == [])
    && (s.threads[MASTER] == Waiting(false) ==> InHand(s.threads) > 0)
  }

  lemma {:induction false} UpdateCounts(threads: seq<Thread>, t: nat, now: Thread)
    requires t < |threads|
    ensures InHand(threads[t := now]) == InHand(threads) - Held(threads[t]) + Held(now)
    ensures Busy(threads[t := now]) == Busy(threads)
      - (if threads[t].Outside? then 0 else 1) + (if now.Outside? then 0 else 1)
    ensures Idle(threads[t := now]) == Idle(threads)
      - (if threads[t].Waiting? then 1 else 0) + (if now.Waiting? then 1 else 0)
    decreases |threads|
  {
    var n := |threads| - 1;
    if t == n {
      assert threads[t := now][..n] == threads[..n];
    } else {
      assert threads[t := now][..n] == threads[..n][t := now];
      UpdateCounts(threads[..n], t, now);
    }
  }

  lemma {:induction false} TakeBackSame(queue: seq<Check>, n: nat)
    requires n <= |queue|
    ensures |TakeBack(queue, n)| == n
    ensures AllTrue(queue) <==> AllTrue(queue[..|queue| - n]) && AllTrue(TakeBack(queue, n))
  {
    if n > 0 {
      var m := |queue| - 1;
      TakeBackSame(queue[..m], n - 1);
      assert queue == queue[..m] + [queue[m]];
      assert queue[..m][..m - (n - 1)] == queue[..|queue| - n];
      var taken, rest := TakeBack(queue, n), TakeBack(queue[..m], n - 1);
      assert taken == [queue[m]] + rest;
      assert AllTrue(taken) <==> queue[m].result && AllTrue(rest) by {
        assert taken[0] == queue[m];
        assert forall i :: 0 <= i < |rest| ==> taken[i + 1] == rest[i];
      }
      assert AllTrue(queue) <==> AllTrue(queue[..m]) && queue[m].result;
    }
  }

  lemma CleanUpdate(threads: seq<Thread>, t: nat, now: Thread)
    requires t < |threads|
    ensures AllClean(threads) <==> AllClean(threads[t := Outside]) && Clean(threads[t])
    ensures AllClean(threads[t := now]) <==> AllClean(threads[t := Outside]) && Clean(now)
  {
    var out, new_ := threads[t := Outside], threads[t := now];
    assert Clean(Outside);
    assert forall i :: 0 <= i < |threads| && i != t ==> out[i] == threads[i] && new_[i] == threads[i];
    assert new_[t] == now && out[t] == Outside;
  }

  lemma {:induction false} SomeoneHolds(threads: seq<Thread>)
    requires InHand(threads) > 0
    ensures exists i :: 0 <= i < |threads| && threads[i].Working?
  {
    var n := |threads| - 1;
    if !threads[n].Working? {
      SomeoneHolds(threads[..n]);
      var i :| 0 <= i < n && threads[..n][i].Working?;
      assert threads[i].Working?;
    }
  }

  lemma {:induction false} NobodyHolds(threads: seq<Thread>)
    requires InHand(threads) == 0 && forall i :: 0 <= i < |threads| ==> ThreadOk(threads[i])
    ensures forall i :: 0 <= i < |threads| ==> !threads[i].Working?
  {
    if threads != [] {
      var n := |threads| - 1;
      assert ThreadOk(threads[n]);
      forall i | 0 <= i < n
        ensures ThreadOk(threads[..n][i])
      {
        assert threads[..n][i] == threads[i];
      }
      NobodyHolds(threads[..n]);
      forall i | 0 <= i < |threads|
        ensures !threads[i].Working?
      {
        if i < n {
          assert threads[..n][i] == threads[i];
        }
      }
    }
  }

  /** At the top of the inner loop thread t holds nothing and is already counted. */
  ghost predicate AtHead(s: State, t: nat) {
    && t < |s.threads| && !s.quit && (forall i :: 0 <= i < |s.threads| ==> ThreadOk(s.threads[i]))
    && s.threads[t].Outside?
    && s.nTodo == |s.queue| + InHand(s.threads)
    && (AllTrue(s.added) <==> s.allOk && AllTrue(s.queue) && AllClean(s.threads))
    && s.nTotal == Busy(s.threads) + 1 && s.nIdle == Idle(s.threads)
    && (s.threads[MASTER].Waiting? ==> s.queue == [])
    && (s.threads[MASTER] == Waiting(false) ==> InHand(s.threads) > 0)
  }

  /** What a call of Wait answers: whether all checks added since the last one succeed. */
  ghost predicate AnswerOk(s: State, s': State, answer: Option<bool>) {
    if answer == None then s'.added == s.added else
      && s.queue == [] && s.nTodo == 0 && (forall i :: 0 <= i < |s.threads| ==> !s.threads[i].Working?)
      && (answer.value <==> AllTrue(s.added))
      && s'.added == [] && s'.allOk && s'.nTodo == 0
  }

  lemma {:induction false} Returning(s: State, t: nat)
    requires AtHead(s, t) && s.queue == [] && s.nTodo == 0 && t == MASTER
    ensures var o := LoopHead(s, t); o.Moved? && Inv(o.state) && AnswerOk(s, o.state, o.answer)
  {
    UpdateCounts(s.threads, t, Outside);
    NobodyHolds(s.threads);
    assert AllClean(s.threads);
    assert s.threads[t := Outside] == s.threads;
  }

  lemma {:induction false} StartWaiting(s: State, t: nat)
    requires AtHead(s, t) && s.queue == [] && !(s.nTodo == 0 && t == MASTER)
    ensures var o := LoopHead(s, t); o.Moved? && Inv(o.state) && o.answer == None && o.state.added == s.added
  {
    UpdateCounts(s.threads, t, Waiting(false));
    CleanUpdate(s.threads, t, Waiting(false));
  }

  /** The batch is never larger than the queue. */
  lemma BatchFits(s: State)
    requires s.queue != [] && s.nTotal + s.nIdle + 1 > 0
    ensures 1 <= BatchCount(s) <= |s.queue|
  {
  }

  lemma {:induction false} TakeBatch(s: State, t: nat)
    requires AtHead(s, t) && s.queue != []
    ensures var o := LoopHead(s, t); o.Moved? && Inv(o.state) && o.answer == None && o.state.added == s.added
  {
    BatchFits(s);
    var n := BatchCount(s);
    TakeBackSame(s.queue, n);
    var batch := TakeBack(s.queue, n);
    var now := Working(batch, 0, s.allOk);
    assert batch[0..] == batch;
    UpdateCounts(s.threads, t, now);
    CleanUpdate(s.threads, t, now);
    hide BatchCount, TakeBack;
  }

  lemma {:induction false} LoopHeadKeeps(s: State, t: nat)
    requires AtHead(s, t)
    ensures var o := LoopHead(s, t); o.Moved? && Inv(o.state) && AnswerOk(s, o.state, o.answer)
  {
    hide Inv;
    if s.queue != [] {
      TakeBatch(s, t);
    } else if s.nTodo == 0 && t == MASTER {
      Returning(s, t);
    } else {
      StartWaiting(s, t);
    }
  }

  lemma {:induction false} EnterKeeps(s: State, t: nat)
    requires Inv(s) && t < |s.threads| && s.threads[t].Outside?
    ensures AtHead(Entered(s), t)
  {
  }

  /** A thread outside can always enter. */
  lemma {:induction false} CanEnter(s: State, t: nat)
    requires Inv(s) && t < |s.threads|
    ensures Next(s, Enter(t)).Moved? <==> s.threads[t].Outside?
  {
    hide LoopHead, AtHead;
    if s.threads[t].Outside? {
      EnterKeeps(s, t);
      LoopHeadKeeps(Entered(s), t);
    }
  }

  lemma {:induction false} WakeKeeps(s: State, t: nat)
    requires Inv(s) && t < |s.threads| && s.threads[t].Waiting?
    ensures AtHead(Woken(s, t), t)
  {
    UpdateCounts(s.threads, t, Outside);
    CleanUpdate(s.threads, t, Outside);
  }

  lemma {:induction false} FinishKeeps(s: State, t: nat)
    requires Inv(s) && t < |s.threads| && s.threads[t].Working? && s.threads[t].executed >= |s.threads[t].batch|
    ensures AtHead(HandedIn(s, t), t)
  {
    var threads := s.threads[t := Outside];
    UpdateCounts(s.threads, t, Outside);
    CleanUpdate(s.threads, t, Outside);
    assert ThreadOk(s.threads[t]);
    if threads[MASTER].Waiting? {
      UpdateCounts(threads, MASTER, Waiting(true));
      CleanUpdate(threads, MASTER, Waiting(true));
    }
  }

  lemma {:induction false} ExecuteKeeps(s: State, t: nat)
    requires Inv(s) && Next(s, Execute(t)).Moved?
    ensures Inv(Next(s, Execute(t)).state)
  {
    hide AllTrue, AllClean;
    var Working(batch, executed, ok) := s.threads[t];
    var now := Working(batch, executed + 1, ok && batch[executed].result);
    UpdateCounts(s.threads, t, now);
    CleanUpdate(s.threads, t, now);
    AllTrueAppend([batch[executed]], batch[executed + 1..]);
    AllTrueOne(batch[executed]);
    assert batch[executed..] == [batch[executed]] + batch[executed + 1..];
  }

  lemma AllTrueOne(c: Check)
    ensures AllTrue([c]) <==> c.result
  {
    assert [c][0] == c;
  }

  lemma {:induction false} AddKeeps(s: State, checks: seq<Check>)
    requires Inv(s) && Next(s, Add(checks)).Moved?
    ensures Inv(Next(s, Add(checks)).state)
  {
    AllTrueAppend(s.queue, checks);
    AllTrueAppend(s.added, checks);
  }

  lemma AllTrueAppend(a: seq<Check>, b: seq<Check>)
    ensures AllTrue(a + b) <==> AllTrue(a) && AllTrue(b)
  {
    if AllTrue(a + b) {
      assert forall i :: 0 <= i < |a| ==> (a + b)[i] == a[i];
      assert forall i :: 0 <= i < |b| ==> (a + b)[|a| + i] == b[i];
    }
  }

  lemma {:induction false} InitInv(threads: nat, batchSize: nat)
    ensures Inv(Init(threads, batchSize))
  {
    AllOutside(Init(threads, batchSize).threads);
  }

  lemma {:induction false} AllOutside(threads: seq<Thread>)
    requires forall i :: 0 <= i < |threads| ==> threads[i].Outside?
    ensures InHand(threads) == Busy(threads) == Idle(threads) == 0
  {
    if threads != [] {
      AllOutside(threads[..|threads| - 1]);
    }
  }

  /** Every step keeps the invariant, and an answer is given only when it is right. */
  lemma {:induction false} StepKeeps(s: State, e: Event)
    requires Inv(s) && Next(s, e).Moved?
    ensures Inv(Next(s, e).state)
    ensures Next(s, e).answer.Some? ==> Next(s, e).answer == Some(AllTrue(s.added)) && Next(s, e).state.added == []
    ensures Next(s, e).answer.Some? ==> Next(s, e).state.nTodo == 0
    ensures Next(s, e).answer == None ==> Next(s, e).state.added == s.added + (if e.Add? then e.checks else [])
  {
    hide Inv, AtHead, LoopHead, AllTrue;
    match e {
      case Add(checks) => AddKeeps(s, checks);
      case Execute(t) => ExecuteKeeps(s, t);
      case Enter(t) =>
        EnterKeeps(s, t);
        LoopHeadKeeps(Entered(s), t);
      case Finish(t) =>
        FinishKeeps(s, t);
        LoopHeadKeeps(HandedIn(s, t), t);
      case Wake(t) =>
        WakeKeeps(s, t);
        LoopHeadKeeps(Woken(s, t), t);
    }
  }

  // ---- whole runs ----

  /** The state after a run, if every event of it could happen. */
  function Run(s: State, events: seq<Event>): Option<State> {
    if events == [] then Some(s)
    else
      var n := |events| - 1;
      var before := Run(s, events[..n]);
      if before == None then None
      else
        var o := Next(before.value, events[n]);
        if o.Moved? then Some(o.state) else None
  }

  /** The checks added in a run since a call of Wait last returned. */
  function AddedSince(s: State, events: seq<Event>): seq<Check> {
    if events == [] then []
    else
      var n := |events| - 1;
      var before := Run(s, events[..n]);
      if before.Some? && Next(before.value, events[n]).Moved? && Next(before.value, events[n]).answer.Some? then []
      else AddedSince(s, events[..n]) + (if events[n].Add? then events[n].checks else [])
  }

  lemma {:induction false} RunKeeps(threads: nat, batchSize: nat, events: seq<Event>)
    requires Run(Init(threads, batchSize), events).Some?
    ensures var s := Run(Init(threads, batchSize), events).value;
      Inv(s) && s.added == AddedSince(Init(threads, batchSize), events)
  {
    hide Inv, Next;
    if events == [] {
      InitInv(threads, batchSize);
    } else {
      var n := |events| - 1;
      RunKeeps(threads, batchSize, events[..n]);
      StepKeeps(Run(Init(threads, batchSize), events[..n]).value, events[n]);
    }
  }

  /**
   Under every interleaving: nTodo counts the checks that are queued or in hand, and a call
   of Wait returns only when there are none, with the conjunction of exactly the checks
   added since the previous call returned.
   */
  lemma {:induction false} WaitAnswers(threads: nat, batchSize: nat, events: seq<Event>, e: Event)
    requires Run(Init(threads, batchSize), events).Some?
    ensures var s := Run(Init(threads, batchSize), events).value;
      && s.nTodo == |s.queue| + InHand(s.threads)
      && var o := Next(s, e);
         o.Moved? && o.answer.Some? ==>
           o.state.nTodo == 0 && (o.answer.value <==> AllTrue(AddedSince(Init(threads, batchSize), events)))
  {
    RunKeeps(threads, batchSize, events);
    var s := Run(Init(threads, batchSize), events).value;
    assert s.nTodo == |s.queue| + InHand(s.threads);
    if Next(s, e).Moved? {
      hide Inv, Next, Run, AddedSince, InHand;
      StepKeeps(s, e);
    }
  }

  // ---- no lost wake-up, and only so much work ----

  /** The thread holds a batch, and its next step is possible. */
  predicate CanGoOn(s: State, t: nat) {
    t < |s.threads| && s.threads[t].Working? && (Next(s, Execute(t)).Moved? || Next(s, Finish(t)).Moved?)
  }

  /** While the master waits without having been notified, some worker holds a batch and can go on. */
  lemma {:induction false} NoLostWakeup(s: State)
    requires Inv(s) && s.threads[MASTER] == Waiting(false)
    ensures exists t :: 0 < t < |s.threads| && CanGoOn(s, t)
  {
    SomeoneHolds(s.threads);
    var t :| 0 <= t < |s.threads| && s.threads[t].Working?;
    assert t != MASTER && ThreadOk(s.threads[t]);
    if s.threads[t].executed == |s.threads[t].batch| {
      FinishKeeps(s, t);
      LoopHeadKeeps(HandedIn(s, t), t);
    }
    assert CanGoOn(s, t);
  }

  ghost function Pending(t: Thread): int {
    if t.Working? then 2 * |t.batch| - t.executed else 0
  }

  ghost function PendingAll(threads: seq<Thread>): int {
    if threads == [] then 0 else PendingAll(threads[..|threads| - 1]) + Pending(threads[|threads| - 1])
  }

  /** Steps left: at most three for each queued check. */
  ghost function Work(s: State): int {
    3 * |s.queue| + PendingAll(s.threads)
  }

  lemma {:induction false} UpdatePending(threads: seq<Thread>, t: nat, now: Thread)
    requires t < |threads|
    ensures PendingAll(threads[t := now]) == PendingAll(threads) - Pending(threads[t]) + Pending(now)
    decreases |threads|
  {
    var n := |threads| - 1;
    if t == n {
      assert threads[t := now][..n] == threads[..n];
    } else {
      assert threads[t := now][..n] == threads[..n][t := now];
      UpdatePending(threads[..n], t, now);
    }
  }

  lemma {:induction false} HeadWork(s: State, t: nat)
    requires AtHead(s, t) && LoopHead(s, t).Moved?
    ensures Work(LoopHead(s, t).state) <= Work(s)
  {
    UpdatePending(s.threads, t, Outside);
    UpdatePending(s.threads, t, Waiting(false));
    if s.queue != [] {
      BatchFits(s);
      TakeBackSame(s.queue, BatchCount(s));
      UpdatePending(s.threads, t, Working(TakeBack(s.queue, BatchCount(s)), 0, s.allOk));
    }
  }

  /** Executing or handing in checks uses up work; entering and waking never creates any. */
  lemma {:induction false} WorkShrinks(s: State, e: Event)
    requires Inv(s) && Next(s, e).Moved? && !e.Add?
    ensures Work(Next(s, e).state) <= Work(s)
    ensures e.Execute? || e.Finish? ==> Work(Next(s, e).state) < Work(s)
  {
    match e {
      case Execute(t) =>
        var Working(batch, executed, ok) := s.threads[t];
        UpdatePending(s.threads, t, Working(batch, executed + 1, ok && batch[executed].result));
      case Enter(t) =>
        EnterKeeps(s, t);
        HeadWork(Entered(s), t);
      case Finish(t) =>
        FinishKeeps(s, t);
        assert ThreadOk(s.threads[t]);
        UpdatePending(s.threads, t, Outside);
        if s.threads[t := Outside][MASTER].Waiting? {
          UpdatePending(s.threads[t := Outside], MASTER, Waiting(true));
        }
        HeadWork(HandedIn(s, t), t);
      case Wake(t) =>
        WakeKeeps(s, t);
        UpdatePending(s.threads, t, Outside);
        HeadWork(Woken(s, t), t);
    }
  }

  // ---- the master gets its answer ----

  ghost predicate Notified(s: State) {
    |s.threads| > 0 && s.threads[MASTER] == Waiting(true)
  }

  ghost predicate Inside(s: State) {
    |s.threads| > 0 && !s.threads[MASTER].Outside?
  }

  /** From the top of its loop the master returns, waits or works; others do not touch it. */
  lemma {:induction false} HeadMaster(s: State, t: nat)
    requires AtHead(s, t) && LoopHead(s, t).Moved? && (t != MASTER ==> Inside(s))
    ensures LoopHead(s, t).answer == None ==> Inside(LoopHead(s, t).state)
    ensures t == MASTER ==> !Notified(LoopHead(s, t).state)
  {
  }

  /** While the master is inside there is a step that answers it, does work, or sends it back to wait
      for work that is in hand. */
  lemma {:induction false} SomeStep(s: State) returns (e: Event)
    requires Inv(s) && Inside(s)
    ensures !e.Add? && Next(s, e).Moved?
    ensures var o := Next(s, e);
      o.answer == None ==>
        && Inside(o.state)
        && (Work(o.state) < Work(s) || (Work(o.state) <= Work(s) && Notified(s) && !Notified(o.state)))
  {
    hide Work, AllTrue, AllClean, InHand;
    var t := MASTER;
    if Notified(s) {
      e := Wake(MASTER);
      WakeKeeps(s, MASTER);
      LoopHeadKeeps(Woken(s, MASTER), MASTER);
      HeadMaster(Woken(s, MASTER), MASTER);
    } else {
      if s.threads[MASTER].Waiting? {
        NoLostWakeup(s);
        t :| 0 < t < |s.threads| && CanGoOn(s, t);
      }
      e := WorkStep(s, t);
    }
    WorkShrinks(s, e);
  }

  /** A thread with a batch can execute a check or hand the batch in. */
  lemma {:induction false} WorkStep(s: State, t: nat) returns (e: Event)
    requires Inv(s) && Inside(s) && t < |s.threads| && s.threads[t].Working?
    ensures (e.Execute? || e.Finish?) && Next(s, e).Moved?
    ensures Next(s, e).answer == None ==> Inside(Next(s, e).state)
  {
    assert ThreadOk(s.threads[t]);
    if s.threads[t].executed < |s.threads[t].batch| {
      e := Execute(t);
    } else {
      e := Finish(t);
      FinishKeeps(s, t);
      LoopHeadKeeps(HandedIn(s, t), t);
      HeadMaster(HandedIn(s, t), t);
    }
  }

  lemma {:induction false} WorkNonNegative(threads: seq<Thread>)
    requires forall i :: 0 <= i < |threads| ==> ThreadOk(threads[i])
    ensures PendingAll(threads) >= 0
  {
    if threads != [] {
      assert ThreadOk(threads[|threads| - 1]);
      WorkNonNegative(threads[..|threads| - 1]);
    }
  }

  /** A run can be extended at the front. */
  lemma {:induction false} RunFront(s: State, e: Event, events: seq<Event>)
    requires Next(s, e).Moved?
    ensures Run(s, [e] + events) == Run(Next(s, e).state, events)
  {
    hide Next;
    var all := [e] + events;
    var n := |all| - 1;
    if events == [] {
      assert all[..n] == [] && all[n] == e;
    } else {
      assert all[..n] == [e] + events[..n - 1] && all[n] == events[n - 1];
      RunFront(s, e, events[..n - 1]);
    }
  }

  /**
   No deadlock: from every state with the master inside, some schedule of the threads alone lets
   its call of Wait return, with the right answer.
   */
  lemma {:induction false} MasterAnswered(s: State) returns (events: seq<Event>, last: Event)
    requires Inv(s) && Inside(s)
    ensures !last.Add? && forall i :: 0 <= i < |events| ==> !events[i].Add?
    ensures Run(s, events).Some? && Next(Run(s, events).value, last).Moved?
    ensures Next(Run(s, events).value, last).answer == Some(AllTrue(s.added))
    decreases Work(s), Notified(s)
  {
    hide Inv, Next, AllTrue, Work, Inside, Notified;
    var e := SomeStep(s);
    StepKeeps(s, e);
    var o := Next(s, e);
    if o.answer.Some? {
      events, last := [], e;
    } else {
      WorkBounded(o.state);
      var rest;
      rest, last := MasterAnswered(o.state);
      RunFront(s, e, rest);
      events := [e] + rest;
      assert s.added + [] == s.added;
    }
  }

  lemma {:induction false} WorkBounded(s: State)
    requires Inv(s)
    ensures Work(s) >= 0
  {
    WorkNonNegative(s.threads);
  }

  /** So no reachable state is a deadlock: whenever the master is inside, it can still be answered. */
  lemma {:induction false} NoDeadlock(threads: nat, batchSize: nat, events: seq<Event>)
      returns (more: seq<Event>, last: Event)
    requires Run(Init(threads, batchSize), events).Some?
    requires Inside(Run(Init(threads, batchSize), events).value)
    ensures var s := Run(Init(threads, batchSize), events).value;
      && (!last.Add? && forall i :: 0 <= i < |more| ==> !more[i].Add?)
      && Run(s, more).Some? && Next(Run(s, more).value, last).Moved?
      && Next(Run(s, more).value, last).answer == Some(AllTrue(AddedSince(Init(threads, batchSize), events)))
  {
    hide Inv, Next, Run, AllTrue, AddedSince, Inside;
    RunKeeps(threads, batchSize, events);
    more, last := MasterAnswered(Run(Init(threads, batchSize), events).value);
  }
}
