/** The verification queue: one master and any number of workers share a stack of checks under one
    mutex and two condition variables. A step is one critical section (up to the next wait or release)
    or the local execution of a batch; a run is any interleaving of steps.
 */
module CheckQueue {
  import opened Wrappers

  /** Where a thread is: outside Loop, about to lock the mutex with the result of its last batch, inside
      the critical section (only while a step is under way), blocked on its condition variable, or
      executing a batch without the lock. A check is represented by its outcome. */
  datatype Thread =
    | Outside
    | Ready(nNow: nat, fOk: bool)
    | Critical
    | Waiting(signalled: bool)
    | Working(batch: seq<bool>, fOk: bool)

  /** Thread 0 is the master. `added` records the checks added since Wait last returned. */
  datatype State = State(queue: seq<bool>, nIdle: int, nTotal: int, fAllOk: bool, nTodo: int, fQuit: bool,
                         threads: seq<Thread>, added: seq<bool>)

  const MASTER: nat := 0

  datatype Step =
    | Start(t: nat)                                  // Thread() or Wait() enters Loop
    | Add(checks: seq<bool>, woken: Option<nat>)     // the master adds checks; notify_one picks a waiter
    | Lock(t: nat)                                   // the critical section at the top of the loop
    | Wake(t: nat)                                   // return from cond.wait, signalled or spurious
    | Work(t: nat)                                   // execute the batch

  ghost predicate AllTrue(checks: seq<bool>) {
    forall i :: 0 <= i < |checks| ==> checks[i]
  }

  // ---------------------------------------------------------------------------------------------
  // The pieces of Loop

  function BatchSize(nBatchSize: nat, queued: nat, nTotal: int, nIdle: int): nat
    requires nTotal + nIdle + 1 > 0
  {
    var share := queued / (nTotal + nIdle + 1);
    var capped := if nBatchSize < share then nBatchSize else share;
    if capped < 1 then 1 else capped
  }

  /** n checks off the back of the queue, last first. */
  function Taken(queue: seq<bool>, n: nat): seq<bool>
    requires n <= |queue|
  {
    if n == 0 then [] else [queue[|queue| - 1]] + Taken(queue[..|queue| - 1], n - 1)
  }

  method TakeBatch(queue: seq<bool>, n: nat) returns (batch: seq<bool>, rest: seq<bool>)
    requires n <= |queue|
    ensures batch == Taken(queue, n) && rest == queue[..|queue| - n]
  {
    batch, rest := [], queue;
    for i := 0 to n
      invariant rest == queue[..|queue| - i]
      invariant batch + Taken(rest, n - i) == Taken(queue, n)
    {
      var last := |rest| - 1;
      batch := batch + [rest[last]];
      rest := rest[..last];
    }
  }

  /** Once a check has failed the rest of the batch is skipped. */
  function Executed(batch: seq<bool>, fOk: bool): bool {
    if batch == [] then fOk else Executed(batch[1..], if fOk then batch[0] else fOk)
  }

  method ExecuteBatch(batch: seq<bool>, ok: bool) returns (fOk: bool)
    ensures fOk == Executed(batch, ok) == (ok && AllTrue(batch))
  {
    ExecutedMeans(batch, ok);
    fOk := ok;
    for i := 0 to |batch|
      invariant fOk == (ok && AllTrue(batch[..i]))
    {
      assert batch[..i + 1] == batch[..i] + [batch[i]];
      if fOk {
        fOk := batch[i];
      }
    }
    assert batch[..|batch|] == batch;
  }

  function SetThread(s: State, t: nat, x: Thread): State
    requires t < |s.threads|
  {
    s.(threads := s.threads[t := x])
  }

  function NotifyMaster(s: State): State
    requires MASTER < |s.threads|
  {
    if s.threads[MASTER].Waiting? then SetThread(s, MASTER, Waiting(true)) else s
  }

  /** Clean-up of the previous batch, or joining the pool on the first iteration. */
  function Settle(s: State, t: nat): State
    requires t < |s.threads| && s.threads[t].Ready?
  {
    var Ready(nNow, fOk) := s.threads[t];
    var locked := SetThread(s, t, Critical);
    if nNow > 0 then
      var s' := locked.(fAllOk := s.fAllOk && fOk, nTodo := s.nTodo - nNow);
      if s'.nTodo == 0 && t != MASTER then NotifyMaster(s') else s'
    else locked.(nTotal := s.nTotal + 1)
  }

  /** Coming back from cond.wait with the mutex held. */
  function LeaveWait(s: State, t: nat): State
    requires t < |s.threads|
  {
    SetThread(s, t, Critical).(nIdle := s.nIdle - 1)
  }

  predicate CanReturn(s: State, t: nat) {
    s.queue == [] && (t == MASTER || s.fQuit) && s.nTodo == 0
  }

  /** From the test of queue.empty() on: return, wait, or take a batch. */
  function Proceed(s: State, t: nat, nBatchSize: nat): State
    requires t < |s.threads| && s.nTotal + s.nIdle + 1 > 0
  {
    if CanReturn(s, t) then
      var s' := SetThread(s, t, Outside).(nTotal := s.nTotal - 1);
      if t == MASTER then s'.(fAllOk := true, added := []) else s'
    else if s.queue == [] then
      SetThread(s, t, Waiting(false)).(nIdle := s.nIdle + 1)
    else
      var n := BatchSize(nBatchSize, |s.queue|, s.nTotal, s.nIdle);
      BatchFits(nBatchSize, |s.queue|, s.nTotal, s.nIdle);
      SetThread(s, t, Working(Taken(s.queue, n), s.fAllOk)).(queue := s.queue[..|s.queue| - n])
  }

  lemma BatchFits(nBatchSize: nat, queued: nat, nTotal: int, nIdle: int)
    requires nTotal + nIdle + 1 > 0 && queued > 0
    ensures 1 <= BatchSize(nBatchSize, queued, nTotal, nIdle) <= queued
    ensures BatchSize(nBatchSize, queued, nTotal, nIdle) <= nBatchSize || BatchSize(nBatchSize, queued, nTotal, nIdle) == 1
  {
    var d := nTotal + nIdle + 1;
    assert queued / d <= queued;
  }

  function NotifyAllWorkers(threads: seq<Thread>): seq<Thread> {
    seq(|threads|, i requires 0 <= i < |threads| =>
      if i != MASTER && threads[i].Waiting? then Waiting(true) else threads[i])
  }

  /** Which waiter notify_one wakes: some waiting worker, if there is one. */
  ghost predicate NotifiedOne(threads: seq<Thread>, woken: Option<nat>) {
    match woken
    case Some(w) => w != MASTER && w < |threads| && threads[w].Waiting?
    case None => forall i :: 0 <= i < |threads| && i != MASTER ==> !threads[i].Waiting?
  }

  function AddChecks(s: State, checks: seq<bool>, woken: Option<nat>): State {
    var s' := s.(queue := s.queue + checks, nTodo := s.nTodo + |checks|, added := s.added + checks);
    if |checks| == 1 then
      if woken.Some? && woken.value < |s.threads| then SetThread(s', woken.value, Waiting(true)) else s'
    else if |checks| > 1 then s'.(threads := NotifyAllWorkers(s.threads))
    else s'
  }

  // ---------------------------------------------------------------------------------------------
  // Steps

  /** Only the controlling thread adds, and not while it is inside Wait. */
  ghost predicate Enabled(s: State, step: Step) {
    match step
    case Start(t) => t < |s.threads| && s.threads[t] == Outside
    case Add(checks, woken) =>
      && MASTER < |s.threads| && s.threads[MASTER] == Outside
      && (|checks| == 1 ==> NotifiedOne(s.threads, woken))
    case Lock(t) => t < |s.threads| && s.threads[t].Ready?
    case Wake(t) => t < |s.threads| && s.threads[t].Waiting?
    case Work(t) => t < |s.threads| && s.threads[t].Working?
  }

  /** A wake-up nobody asked for. */
  ghost predicate Spurious(s: State, step: Step) {
    step.Wake? && step.t < |s.threads| && s.threads[step.t] == Waiting(false)
  }

  ghost function Apply(s: State, step: Step, nBatchSize: nat): State
    requires Inv(s) && Enabled(s, step)
  {
    match step
    case Start(t) => SetThread(s, t, Ready(0, true))
    case Add(checks, woken) => AddChecks(s, checks, woken)
    case Lock(t) => SettleKeeps(s, t); Proceed(Settle(s, t), t, nBatchSize)
    case Wake(t) => LeaveWaitKeeps(s, t); Proceed(LeaveWait(s, t), t, nBatchSize)
    case Work(t) => SetThread(s, t, Ready(|s.threads[t].batch|, Executed(s.threads[t].batch, s.threads[t].fOk)))
  }

  /** The critical section from the test of queue.empty() on, taking its batch check by check. */
  method RunSection(s: State, t: nat, nBatchSize: nat) returns (r: State)
    requires t < |s.threads| && s.nTotal + s.nIdle + 1 > 0
    ensures r == Proceed(s, t, nBatchSize)
  {
    r := s;
    if s.queue == [] {
      if CanReturn(s, t) {
        r := SetThread(r, t, Outside).(nTotal := r.nTotal - 1);
        if t == MASTER {
          r := r.(fAllOk := true, added := []);
        }
        return;
      }
      r := SetThread(r, t, Waiting(false)).(nIdle := r.nIdle + 1);
      return;
    }
    var n := BatchSize(nBatchSize, |s.queue|, s.nTotal, s.nIdle);
    BatchFits(nBatchSize, |s.queue|, s.nTotal, s.nIdle);
    var batch, rest := TakeBatch(s.queue, n);
    r := SetThread(r, t, Working(batch, s.fAllOk)).(queue := rest);
  }

  /** A thread's step as the code takes it: the loops over batches do what the step says. */
  method TakeStep(s: State, step: Step, nBatchSize: nat) returns (r: State)
    requires Inv(s) && Enabled(s, step)
    ensures r == Apply(s, step, nBatchSize)
  {
    hide Inv;
    match step
    case Start(t) => return SetThread(s, t, Ready(0, true));
    case Add(checks, woken) => return AddChecks(s, checks, woken);
    case Lock(t) =>
      InvIsConsistent(s);
      SettleKeeps(s, t);
      r := RunSection(Settle(s, t), t, nBatchSize);
    case Wake(t) =>
      InvIsConsistent(s);
      LeaveWaitKeeps(s, t);
      r := RunSection(LeaveWait(s, t), t, nBatchSize);
    case Work(t) =>
      var fOk := ExecuteBatch(s.threads[t].batch, s.threads[t].fOk);
      r := SetThread(s, t, Ready(|s.threads[t].batch|, fOk));
  }

  lemma InvIsConsistent(s: State)
    requires Inv(s)
    ensures Consistent(s)
  {
  }

  ghost predicate Initial(s: State) {
    && s.queue == [] && s.nIdle == 0 && s.nTotal == 0 && s.fAllOk && s.nTodo == 0 && !s.fQuit && s.added == []
    && |s.threads| > 0 && forall i :: 0 <= i < |s.threads| ==> s.threads[i] == Outside
  }

  // ---------------------------------------------------------------------------------------------
  // Counting over threads

  ghost function Sum(threads: seq<Thread>, f: Thread -> nat): nat {
    if threads == [] then 0 else Sum(threads[..|threads| - 1], f) + f(threads[|threads| - 1])
  }

  lemma {:induction false} SumUpdate(threads: seq<Thread>, f: Thread -> nat, t: nat, x: Thread)
    requires t < |threads|
    ensures Sum(threads[t := x], f) == Sum(threads, f) - f(threads[t]) + f(x)
    ensures f(threads[t]) <= Sum(threads, f)
  {
    var n := |threads| - 1;
    var updated := threads[t := x];
    if t < n {
      assert updated[..n] == threads[..n][t := x];
      SumUpdate(threads[..n], f, t, x);
    } else {
      assert updated[..n] == threads[..n];
    }
  }

  lemma {:induction false} SumPositive(threads: seq<Thread>, f: Thread -> nat) returns (t: nat)
    requires Sum(threads, f) > 0
    ensures t < |threads| && f(threads[t]) > 0
  {
    var n := |threads| - 1;
    if f(threads[n]) > 0 {
      t := n;
    } else {
      t := SumPositive(threads[..n], f);
    }
  }

  lemma {:induction false} SumZero(threads: seq<Thread>, f: Thread -> nat)
    requires forall i :: 0 <= i < |threads| ==> f(threads[i]) == 0
    ensures Sum(threads, f) == 0
  {
    if threads != [] { SumZero(threads[..|threads| - 1], f); }
  }

  lemma {:induction false} SumSame(a: seq<Thread>, b: seq<Thread>, f: Thread -> nat)
    requires |a| == |b| && forall i :: 0 <= i < |a| ==> f(a[i]) == f(b[i])
    ensures Sum(a, f) == Sum(b, f)
  {
    if a != [] { SumSame(a[..|a| - 1], b[..|b| - 1], f); }
  }

  function Held(x: Thread): nat {
    match x
    case Ready(n, _) => n
    case Working(batch, _) => |batch|
    case _ => 0
  }

  function Blocked(x: Thread): nat {
    if x.Waiting? then 1 else 0
  }

  function Joined(x: Thread): nat {
    if x.Outside? || (x.Ready? && x.nNow == 0) then 0 else 1
  }

  // ---------------------------------------------------------------------------------------------
  // The invariant

  /** No check a thread holds, or has just run, failed. */
  ghost predicate Good(x: Thread) {
    match x
    case Ready(n, ok) => n > 0 ==> ok
    case Working(batch, ok) => ok && AllTrue(batch)
    case _ => true
  }

  ghost predicate AllGood(threads: seq<Thread>) {
    forall i :: 0 <= i < |threads| ==> Good(threads[i])
  }

  ghost predicate CountsOk(s: State) {
    && |s.threads| > 0 && !s.fQuit
    && s.nTodo == |s.queue| + Sum(s.threads, Held)
    && s.nIdle == Sum(s.threads, Blocked)
    && s.nTotal == Sum(s.threads, Joined)
    && (forall i :: 0 <= i < |s.threads| && s.threads[i].Working? ==> s.threads[i].batch != [])
  }

  /** What the flag and the outstanding checks say together is what the added checks say. */
  ghost predicate OutcomeOk(s: State) {
    AllTrue(s.added) <==> s.fAllOk && AllTrue(s.queue) && AllGood(s.threads)
  }

  /** A blocked master left an empty queue, and unless its wake-up is on the way work is outstanding. */
  ghost predicate MasterOk(s: State)
    requires |s.threads| > 0
  {
    && (s.threads[MASTER].Waiting? ==> s.queue == [])
    && (s.threads[MASTER] == Waiting(false) ==> s.nTodo > 0)
  }

  ghost predicate Consistent(s: State) {
    CountsOk(s) && OutcomeOk(s) && MasterOk(s)
  }

  ghost predicate Inv(s: State) {
    Consistent(s) && Unlocked(s.threads, |s.threads|)
  }

  /** No thread, except possibly t, is inside the critical section. */
  ghost predicate Unlocked(threads: seq<Thread>, t: nat) {
    forall i :: 0 <= i < |threads| && i != t ==> !threads[i].Critical?
  }

  // ---------------------------------------------------------------------------------------------
  // Every step keeps the invariant

  lemma GoodUpdate(threads: seq<Thread>, t: nat, x: Thread)
    requires t < |threads|
    ensures AllGood(threads[t := x]) && Good(threads[t]) <==> AllGood(threads) && Good(x)
    ensures (AllGood(threads[t := x]) ==> Good(x)) && (AllGood(threads) ==> Good(threads[t]))
  {
    var updated := threads[t := x];
    if AllGood(updated) { assert Good(updated[t]); }
    if AllGood(updated) && Good(threads[t]) {
      forall i | 0 <= i < |threads| ensures Good(threads[i]) { assert Good(updated[i]); }
      assert Good(updated[t]);
    }
    if AllGood(threads) && Good(x) {
      forall i | 0 <= i < |threads| ensures Good(updated[i]) { assert Good(threads[i]); }
    }
  }

  lemma SetThreadCounts(s: State, t: nat, x: Thread)
    requires t < |s.threads|
    ensures var u := SetThread(s, t, x).threads;
            && Sum(u, Held) == Sum(s.threads, Held) - Held(s.threads[t]) + Held(x)
            && Sum(u, Blocked) == Sum(s.threads, Blocked) - Blocked(s.threads[t]) + Blocked(x)
            && Sum(u, Joined) == Sum(s.threads, Joined) - Joined(s.threads[t]) + Joined(x)
            && Held(s.threads[t]) <= Sum(s.threads, Held)
  {
    SumUpdate(s.threads, Held, t, x);
    SumUpdate(s.threads, Blocked, t, x);
    SumUpdate(s.threads, Joined, t, x);
  }

  lemma NotifyMasterKeeps(s: State)
    requires CountsOk(s) && OutcomeOk(s) && (s.threads[MASTER].Waiting? ==> s.queue == [])
    ensures Consistent(NotifyMaster(s))
  {
    hide Sum, AllTrue;
    SetThreadCounts(s, MASTER, Waiting(true));
    GoodUpdate(s.threads, MASTER, Waiting(true));
  }

  lemma SettleKeeps(s: State, t: nat)
    requires Consistent(s) && t < |s.threads| && s.threads[t].Ready?
    ensures Consistent(Settle(s, t)) && Settle(s, t).threads[t] == Critical
    ensures |Settle(s, t).threads| == |s.threads|
    ensures Settle(s, t).nTotal >= 0 && Settle(s, t).nIdle >= 0
    ensures Settle(s, t).added == s.added && Settle(s, t).queue == s.queue
  {
    hide Sum, AllTrue;
    SetThreadCounts(s, t, Critical);
    GoodUpdate(s.threads, t, Critical);
    var Ready(nNow, fOk) := s.threads[t];
    if nNow > 0 {
      var s' := SetThread(s, t, Critical).(fAllOk := s.fAllOk && fOk, nTodo := s.nTodo - nNow);
      NotifyMasterKeeps(s');
    }
  }

  lemma LeaveWaitKeeps(s: State, t: nat)
    requires Consistent(s) && t < |s.threads| && s.threads[t].Waiting?
    ensures |LeaveWait(s, t).threads| == |s.threads| && LeaveWait(s, t).threads[t] == Critical
    ensures Consistent(LeaveWait(s, t))
    ensures LeaveWait(s, t).nTotal >= 0 && LeaveWait(s, t).nIdle >= 0
  {
    hide Sum, AllTrue;
    SetThreadCounts(s, t, Critical);
    GoodUpdate(s.threads, t, Critical);
  }

  lemma {:induction false} TakenAll(queue: seq<bool>, n: nat)
    requires n <= |queue|
    ensures |Taken(queue, n)| == n
    ensures AllTrue(queue) <==> AllTrue(queue[..|queue| - n]) && AllTrue(Taken(queue, n))
  {
    if n == 0 {
      assert queue[..|queue|] == queue;
    } else {
      var m := |queue| - 1;
      assert queue == queue[..m] + [queue[m]];
      assert queue[..m][..m - (n - 1)] == queue[..|queue| - n];
      TakenAll(queue[..m], n - 1);
      AllTrueSplit(queue[..m], [queue[m]]);
      AllTrueSplit([queue[m]], Taken(queue[..m], n - 1));
    }
  }

  lemma AllTrueSplit(a: seq<bool>, b: seq<bool>)
    ensures AllTrue(a + b) <==> AllTrue(a) && AllTrue(b)
  {
    if AllTrue(a + b) {
      forall i | 0 <= i < |a| ensures a[i] { assert (a + b)[i]; }
      forall i | 0 <= i < |b| ensures b[i] { assert (a + b)[|a| + i]; }
    }
  }

  lemma {:induction false} ExecutedMeans(batch: seq<bool>, fOk: bool)
    ensures Executed(batch, fOk) == (fOk && AllTrue(batch))
  {
    if batch != [] {
      assert batch == [batch[0]] + batch[1..];
      AllTrueSplit([batch[0]], batch[1..]);
      ExecutedMeans(batch[1..], if fOk then batch[0] else fOk);
    }
  }

  /** When nothing is outstanding, the flag alone is the outcome. */
  lemma NothingHeld(s: State)
    requires Consistent(s) && s.nTodo == 0
    ensures s.queue == [] && Sum(s.threads, Held) == 0 && AllGood(s.threads)
    ensures s.fAllOk <==> AllTrue(s.added)
  {
    forall i | 0 <= i < |s.threads| ensures Good(s.threads[i]) {
      SumUpdate(s.threads, Held, i, s.threads[i]);
    }
  }

  lemma ReturnKeeps(s: State, t: nat, nBatchSize: nat)
    requires Consistent(s) && t < |s.threads| && s.threads[t] == Critical && s.nTotal + s.nIdle + 1 > 0
    requires CanReturn(s, t)
    ensures Consistent(Proceed(s, t, nBatchSize))
  {
    hide Sum;
    NothingHeld(s);
    SetThreadCounts(s, t, Outside);
    GoodUpdate(s.threads, t, Outside);
  }

  lemma WaitKeeps(s: State, t: nat, nBatchSize: nat)
    requires Consistent(s) && t < |s.threads| && s.threads[t] == Critical && s.nTotal + s.nIdle + 1 > 0
    requires !CanReturn(s, t) && s.queue == []
    ensures Consistent(Proceed(s, t, nBatchSize))
  {
    hide Sum, AllTrue;
    SetThreadCounts(s, t, Waiting(false));
    GoodUpdate(s.threads, t, Waiting(false));
  }

  lemma TakeKeeps(s: State, t: nat, nBatchSize: nat)
    requires Consistent(s) && t < |s.threads| && s.threads[t] == Critical && s.nTotal + s.nIdle + 1 > 0
    requires s.queue != []
    ensures Consistent(Proceed(s, t, nBatchSize))
  {
    hide Sum, AllTrue, Taken, BatchSize;
    var n := BatchSize(nBatchSize, |s.queue|, s.nTotal, s.nIdle);
    BatchFits(nBatchSize, |s.queue|, s.nTotal, s.nIdle);
    TakenAll(s.queue, n);
    var x := Working(Taken(s.queue, n), s.fAllOk);
    SetThreadCounts(s, t, x);
    GoodUpdate(s.threads, t, x);
  }

  lemma ProceedKeeps(s: State, t: nat, nBatchSize: nat)
    requires Consistent(s) && t < |s.threads| && s.threads[t] == Critical && s.nTotal + s.nIdle + 1 > 0
    ensures Consistent(Proceed(s, t, nBatchSize))
  {
    hide Consistent, Proceed;
    if CanReturn(s, t) {
      ReturnKeeps(s, t, nBatchSize);
    } else if s.queue == [] {
      WaitKeeps(s, t, nBatchSize);
    } else {
      TakeKeeps(s, t, nBatchSize);
    }
  }

  lemma WorkKeeps(s: State, t: nat, nBatchSize: nat)
    requires Inv(s) && t < |s.threads| && s.threads[t].Working?
    ensures Consistent(Apply(s, Work(t), nBatchSize))
  {
    hide Sum, AllTrue;
    var Working(batch, fOk) := s.threads[t];
    ExecutedMeans(batch, fOk);
    var x := Ready(|batch|, Executed(batch, fOk));
    SetThreadCounts(s, t, x);
    GoodUpdate(s.threads, t, x);
    assert Good(x) <==> Good(s.threads[t]);
    assert CountsOk(SetThread(s, t, x));
  }

  lemma StartKeeps(s: State, t: nat)
    requires Consistent(s) && t < |s.threads| && s.threads[t] == Outside
    ensures Consistent(SetThread(s, t, Ready(0, true)))
  {
    hide Sum, AllTrue;
    SetThreadCounts(s, t, Ready(0, true));
    GoodUpdate(s.threads, t, Ready(0, true));
  }

  lemma AddKeeps(s: State, checks: seq<bool>, woken: Option<nat>)
    requires Consistent(s) && Enabled(s, Add(checks, woken))
    ensures Consistent(AddChecks(s, checks, woken))
  {
    hide Sum, AllTrue;
    AllTrueSplit(s.queue, checks);
    AllTrueSplit(s.added, checks);
    if |checks| == 1 && woken.Some? {
      SetThreadCounts(s, woken.value, Waiting(true));
      GoodUpdate(s.threads, woken.value, Waiting(true));
    } else if |checks| > 1 {
      var u := NotifyAllWorkers(s.threads);
      SumSame(s.threads, u, Held);
      SumSame(s.threads, u, Blocked);
      SumSame(s.threads, u, Joined);
      assert AllGood(u) <==> AllGood(s.threads) by {
        if AllGood(u) {
          forall i | 0 <= i < |u| ensures Good(s.threads[i]) { assert Good(u[i]); }
        }
      }
    }
  }

  lemma ProceedUnlocks(s: State, t: nat, nBatchSize: nat)
    requires t < |s.threads| && s.nTotal + s.nIdle + 1 > 0 && Unlocked(s.threads, t)
    ensures var r := Proceed(s, t, nBatchSize); |r.threads| == |s.threads| && Unlocked(r.threads, |r.threads|)
  {
    hide Taken, BatchSize;
  }

  lemma NoneCritical(s: State, step: Step, nBatchSize: nat)
    requires Inv(s) && Enabled(s, step)
    ensures var r := Apply(s, step, nBatchSize); |r.threads| == |s.threads| && Unlocked(r.threads, |r.threads|)
  {
    hide Consistent, Proceed, Executed;
    match step {
      case Lock(t) =>
        SettleKeeps(s, t);
        ProceedUnlocks(Settle(s, t), t, nBatchSize);
      case Wake(t) =>
        LeaveWaitKeeps(s, t);
        ProceedUnlocks(LeaveWait(s, t), t, nBatchSize);
      case _ =>
    }
  }

  /** Every step of every thread keeps the invariant. */
  lemma StepKeepsInv(s: State, step: Step, nBatchSize: nat)
    requires Inv(s) && Enabled(s, step)
    ensures Inv(Apply(s, step, nBatchSize))
  {
    hide Consistent, Proceed, Settle, LeaveWait;
    match step {
      case Start(t) => StartKeeps(s, t);
      case Add(checks, woken) => AddKeeps(s, checks, woken);
      case Lock(t) =>
        SettleKeeps(s, t);
        ProceedKeeps(Settle(s, t), t, nBatchSize);
      case Wake(t) =>
        LeaveWaitKeeps(s, t);
        ProceedKeeps(LeaveWait(s, t), t, nBatchSize);
      case Work(t) => WorkKeeps(s, t, nBatchSize);
    }
    NoneCritical(s, step, nBatchSize);
  }

  lemma InitialInv(s: State)
    requires Initial(s)
    ensures Inv(s)
  {
    SumZero(s.threads, Held);
    SumZero(s.threads, Blocked);
    SumZero(s.threads, Joined);
  }

  // ---------------------------------------------------------------------------------------------
  // What Wait returns

  /** The step in which the master returns from Wait. */
  ghost predicate MasterReturns(s: State, step: Step, nBatchSize: nat)
    requires Inv(s) && Enabled(s, step)
  {
    s.threads[MASTER] != Outside && Apply(s, step, nBatchSize).threads[MASTER] == Outside
  }

  /** The value returned: the flag as the master reads it on its way out. */
  ghost function Returned(s: State, step: Step): bool
    requires Inv(s) && Enabled(s, step) && (step == Lock(MASTER) || step == Wake(MASTER))
  {
    if step.Lock? then Settle(s, MASTER).fAllOk else s.fAllOk
  }

  lemma OnlyMasterReturns(s: State, step: Step, nBatchSize: nat)
    requires Inv(s) && Enabled(s, step) && MasterReturns(s, step, nBatchSize)
    ensures step == Lock(MASTER) || step == Wake(MASTER)
    ensures CanReturn(if step.Lock? then Settle(s, MASTER) else LeaveWait(s, MASTER), MASTER)
  {
  }

  /** Wait returns true exactly when every check added since the last return is true, and it leaves
      the queue empty, nothing in flight, and the flag reset for the next round. */
  lemma WaitReturnsConjunction(s: State, step: Step, nBatchSize: nat)
    requires Inv(s) && Enabled(s, step) && MasterReturns(s, step, nBatchSize)
    ensures step == Lock(MASTER) || step == Wake(MASTER)
    ensures Returned(s, step) <==> AllTrue(s.added)
    ensures var r := Apply(s, step, nBatchSize);
            r.queue == [] && r.nTodo == 0 && r.fAllOk && r.added == [] && Sum(r.threads, Held) == 0
  {
    OnlyMasterReturns(s, step, nBatchSize);
    StepKeepsInv(s, step, nBatchSize);
    hide Sum, AllTrue;
    if step.Lock? {
      SettleKeeps(s, MASTER);
      NothingHeld(Settle(s, MASTER));
    } else {
      LeaveWaitKeeps(s, MASTER);
      NothingHeld(LeaveWait(s, MASTER));
    }
    NothingHeld(Apply(s, step, nBatchSize));
  }

  // ---------------------------------------------------------------------------------------------
  // Progress: no lost wake-ups, no deadlock, and Wait always comes back

  /** While the master is in Wait some thread can take a step that is not a spurious wake-up. */
  lemma SomethingCanRun(s: State) returns (step: Step)
    requires Inv(s) && s.threads[MASTER] != Outside
    ensures Enabled(s, step) && !Spurious(s, step) && !step.Add?
  {
    var m := s.threads[MASTER];
    if m.Ready? {
      step := Lock(MASTER);
    } else if m.Working? {
      step := Work(MASTER);
    } else if m.signalled {
      step := Wake(MASTER);
    } else {
      var w := SumPositive(s.threads, Held);
      step := if s.threads[w].Ready? then Lock(w) else Work(w);
    }
  }

  function Rank(x: Thread): nat {
    match x
    case Outside => 3
    case Ready(_, _) => 2
    case Critical => 2
    case Waiting(signalled) => if signalled then 1 else 0
    case Working(_, _) => 3
  }

  /** Bounds how many steps can still be taken before Wait returns. */
  ghost function Remaining(s: State): nat {
    4 * |s.queue| + Sum(s.threads, Rank)
  }

  lemma SettleRank(s: State, t: nat)
    requires Consistent(s) && t < |s.threads| && s.threads[t].Ready?
    ensures Settle(s, t).queue == s.queue && |Settle(s, t).threads| == |s.threads|
    ensures Remaining(Settle(s, t)) <= Remaining(s) + if Settle(s, t).nTodo == 0 then 1 else 0
  {
    hide Sum;
    var locked := SetThread(s, t, Critical);
    SumUpdate(s.threads, Rank, t, Critical);
    SumUpdate(locked.threads, Rank, MASTER, Waiting(true));
  }

  lemma ProceedRank(s: State, t: nat, nBatchSize: nat)
    requires Consistent(s) && t < |s.threads| && s.threads[t] == Critical && s.nTotal + s.nIdle + 1 > 0
    requires !CanReturn(s, t)
    ensures Remaining(Proceed(s, t, nBatchSize)) <= Remaining(s) - if s.queue == [] then 2 else 3
  {
    hide Sum, Taken, BatchSize;
    if s.queue == [] {
      SumUpdate(s.threads, Rank, t, Waiting(false));
    } else {
      var n := BatchSize(nBatchSize, |s.queue|, s.nTotal, s.nIdle);
      BatchFits(nBatchSize, |s.queue|, s.nTotal, s.nIdle);
      SumUpdate(s.threads, Rank, t, Working(Taken(s.queue, n), s.fAllOk));
    }
  }

  /** Every step but a spurious wake-up brings Wait closer to returning; a spurious one never puts it off. */
  lemma StepMakesProgress(s: State, step: Step, nBatchSize: nat)
    requires Inv(s) && Enabled(s, step) && s.threads[MASTER] != Outside
    requires !MasterReturns(s, step, nBatchSize)
    ensures Remaining(Apply(s, step, nBatchSize)) <= Remaining(s) - if Spurious(s, step) then 0 else 1
  {
    hide Sum, Taken, BatchSize, Executed, AllTrue;
    match step {
      case Start(t) => SumUpdate(s.threads, Rank, t, Ready(0, true));
      case Add(checks, woken) =>
      case Lock(t) =>
        SettleKeeps(s, t);
        SettleRank(s, t);
        ProceedRank(Settle(s, t), t, nBatchSize);
      case Wake(t) =>
        LeaveWaitKeeps(s, t);
        SumUpdate(s.threads, Rank, t, Critical);
        ProceedRank(LeaveWait(s, t), t, nBatchSize);
      case Work(t) => SumUpdate(s.threads, Rank, t, Ready(|s.threads[t].batch|, Executed(s.threads[t].batch, s.threads[t].fOk)));
    }
  }

  // ---------------------------------------------------------------------------------------------
  // Whole runs

  /** Each step is enabled when its turn comes. */
  ghost predicate IsRun(s: State, steps: seq<Step>, nBatchSize: nat)
    requires Inv(s)
    decreases |steps|
  {
    steps == [] ||
    (Enabled(s, steps[0]) && (StepKeepsInv(s, steps[0], nBatchSize); IsRun(Apply(s, steps[0], nBatchSize), steps[1..], nBatchSize)))
  }

  /** The state a run ends in; it satisfies the invariant whatever the interleaving. */
  ghost function After(s: State, steps: seq<Step>, nBatchSize: nat): (r: State)
    requires Inv(s) && IsRun(s, steps, nBatchSize)
    ensures Inv(r)
    decreases |steps|
  {
    if steps == [] then s
    else
      StepKeepsInv(s, steps[0], nBatchSize);
      After(Apply(s, steps[0], nBatchSize), steps[1..], nBatchSize)
  }

  /** In every interleaving from a new queue: at any point nTodo counts exactly the queued and in-flight
      checks, and if the next step makes Wait return, it returns whether all checks added since its last
      return are true and leaves the queue as good as new. */
  lemma EveryRunIsSafe(s: State, steps: seq<Step>, step: Step, nBatchSize: nat)
    requires Initial(s) && (InitialInv(s); IsRun(s, steps, nBatchSize))
    ensures var r := (InitialInv(s); After(s, steps, nBatchSize));
            && r.nTodo == |r.queue| + Sum(r.threads, Held)
            && (r.threads[MASTER] == Waiting(false) ==> r.nTodo > 0)
            && (Enabled(r, step) && MasterReturns(r, step, nBatchSize) ==>
                  && (step == Lock(MASTER) || step == Wake(MASTER))
                  && (Returned(r, step) <==> AllTrue(r.added))
                  && var e := Apply(r, step, nBatchSize); e.queue == [] && e.nTodo == 0 && e.fAllOk && e.added == [])
  {
    InitialInv(s);
    var r := After(s, steps, nBatchSize);
    if Enabled(r, step) && MasterReturns(r, step, nBatchSize) {
      WaitReturnsConjunction(r, step, nBatchSize);
    }
  }

  /** The master is in Wait at the start of the run and does not return during it. */
  ghost predicate StaysInWait(s: State, steps: seq<Step>, nBatchSize: nat)
    requires Inv(s) && IsRun(s, steps, nBatchSize)
    decreases |steps|
  {
    s.threads[MASTER] != Outside &&
    (steps == [] ||
     (StepKeepsInv(s, steps[0], nBatchSize); StaysInWait(Apply(s, steps[0], nBatchSize), steps[1..], nBatchSize)))
  }

  /** Steps that are not spurious wake-ups. */
  ghost function Productive(s: State, steps: seq<Step>, nBatchSize: nat): nat
    requires Inv(s) && IsRun(s, steps, nBatchSize)
    decreases |steps|
  {
    if steps == [] then 0
    else
      StepKeepsInv(s, steps[0], nBatchSize);
      (if Spurious(s, steps[0]) then 0 else 1) + Productive(Apply(s, steps[0], nBatchSize), steps[1..], nBatchSize)
  }

  /** Wait cannot go on for ever: however the threads interleave, fewer than Remaining(s) productive steps
      fit into it, and by SomethingCanRun one is always available until it returns. */
  lemma {:induction false} WaitIsBounded(s: State, steps: seq<Step>, nBatchSize: nat)
    requires Inv(s) && IsRun(s, steps, nBatchSize) && StaysInWait(s, steps, nBatchSize)
    ensures Productive(s, steps, nBatchSize) + Remaining(After(s, steps, nBatchSize)) <= Remaining(s)
    decreases |steps|
  {
    hide Apply, Remaining, Inv, Enabled, Spurious;
    if steps != [] {
      StepKeepsInv(s, steps[0], nBatchSize);
      NotReturning(s, steps, nBatchSize);
      StepMakesProgress(s, steps[0], nBatchSize);
      WaitIsBounded(Apply(s, steps[0], nBatchSize), steps[1..], nBatchSize);
    }
  }

  lemma NotReturning(s: State, steps: seq<Step>, nBatchSize: nat)
    requires Inv(s) && steps != [] && IsRun(s, steps, nBatchSize) && StaysInWait(s, steps, nBatchSize)
    ensures s.threads[MASTER] != Outside && !MasterReturns(s, steps[0], nBatchSize)
  {
    hide Apply;
    StepKeepsInv(s, steps[0], nBatchSize);
  }
}
