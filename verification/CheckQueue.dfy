/**
 The parallel check queue: one master and any number of workers share a queue under one
 mutex.  Each critical section is one atomic step, and so is the execution of one check
 outside the lock, so a run is any interleaving of these steps.  Thread 0 is the master.

 Condition variables may wake a thread at any time; a notification is only recorded for
 the master, because a round never depends on a worker being woken.
 */
module CheckQueue {
  import opened Wrappers

  /** A queued verification; `verdict` is what running it returns (None means it passed). */
  datatype Check = Check(id: nat, verdict: Option<int>)

  datatype Pc =
    | Outside                                             // not in `Loop`
    | Starting                                            // first iteration, before the lock
    | Waiting(notified: bool)                             // asleep on its condition variable
    | Working(batch: seq<Check>, next: nat, doWork: bool) // outside the lock, `next` checks have run

  datatype Thread = Thread(pc: Pc, local: Option<int>)

  /** One finished round: what `Complete` returned, what had been added, what had run. */
  datatype Outcome = Outcome(result: Option<int>, added: multiset<Check>, ran: multiset<Check>)

  datatype State = State(
    queue: seq<Check>, nTodo: int, nIdle: int, nTotal: int, result: Option<int>,
    threads: seq<Thread>, batchSize: nat,
    // history of the current round and of the finished ones
    added: multiset<Check>, done: multiset<Check>, doneRan: multiset<Check>, outcomes: seq<Outcome>)

  datatype Step =
    | Add(checks: seq<Check>)   // the master adds work between rounds
    | Complete                  // the master joins the pool
    | Start(t: nat)             // a thread's first critical section
    | Execute(t: nat)           // one check runs outside the lock
    | Finish(t: nat)            // clean-up of a batch, in the same critical section as the next wait or take
    | Resume(t: nat)            // a sleeping thread wakes, for a reason or spuriously

  function Init(workers: nat, batchSize: nat): State {
    State([], 0, 0, 0, None, [Thread(Outside, None)] + seq(workers, _ => Thread(Starting, None)),
          batchSize, multiset{}, multiset{}, multiset{}, [])
  }

  /** A batch is over when it was skipped, has run to its end, or was cut short by a failure. */
  predicate BatchOver(th: Thread) {
    th.pc.Working? && (!th.pc.doWork || th.pc.next >= |th.pc.batch| || (th.pc.next > 0 && th.local.Some?))
  }

  predicate Enabled(s: State, step: Step) {
    match step
    case Add(_) => |s.threads| > 0 && s.threads[0].pc.Outside?
    case Complete => |s.threads| > 0 && s.threads[0].pc.Outside?
    case Start(t) => t < |s.threads| && s.threads[t].pc.Starting?
    case Execute(t) => t < |s.threads| && s.threads[t].pc.Working? && !BatchOver(s.threads[t])
    case Finish(t) => t < |s.threads| && BatchOver(s.threads[t])
    case Resume(t) => t < |s.threads| && s.threads[t].pc.Waiting?
  }

  function Max(a: int, b: int): int { if a < b then b else a }
  function Min(a: int, b: int): int { if a < b then a else b }

  /** How many checks a thread takes; unsigned division by at least one. */
  function BatchOf(s: State): int {
    var share := s.nTotal + s.nIdle + 1;
    Max(1, Min(s.batchSize, if share > 0 then |s.queue| / share else 0))
  }

  /** With the lock held: return, go to sleep, or take a batch. */
  function Proceed(s: State, t: nat): State
    requires t < |s.threads|
  {
    var th := s.threads[t];
    if s.queue == [] then
      if t == 0 && s.nTodo == 0 then
        s.(nTotal := s.nTotal - 1, result := None,
           threads := s.threads[t := Thread(Outside, None)],
           added := multiset{}, done := multiset{}, doneRan := multiset{},
           outcomes := s.outcomes + [Outcome(s.result, s.added, s.doneRan)])
      else
        s.(nIdle := s.nIdle + 1, threads := s.threads[t := th.(pc := Waiting(false))])
    else
      var n := Min(BatchOf(s), |s.queue|);
      var cut := |s.queue| - n;
      s.(queue := s.queue[..cut],
         threads := s.threads[t := th.(pc := Working(s.queue[cut..], 0, s.result.None?))])
  }

  function NotifyMaster(threads: seq<Thread>): seq<Thread> {
    if |threads| > 0 && threads[0].pc.Waiting? then threads[0 := threads[0].(pc := Waiting(true))]
    else threads
  }

  /** The clean-up of a finished batch, still holding the lock. */
  function CleanUp(s: State, t: nat): State
    requires t < |s.threads| && s.threads[t].pc.Working?
  {
    var th := s.threads[t];
    var publish := th.local.Some? && s.result.None?;
    var left := s.nTodo - |th.pc.batch|;
    var threads := s.threads[t := Thread(Starting, if publish then None else th.local)];
    s.(result := if publish then th.local else s.result,
       nTodo := left,
       threads := if left == 0 && t != 0 then NotifyMaster(threads) else threads,
       done := s.done + multiset(th.pc.batch),
       doneRan := s.doneRan + Executed(th))
  }

  function WakeUp(s: State, t: nat): State
    requires t < |s.threads|
  {
    s.(nIdle := s.nIdle - 1, threads := s.threads[t := s.threads[t].(pc := Starting)])
  }

  function Next(s: State, step: Step): State
    requires Enabled(s, step)
  {
    match step
    case Add(checks) =>
      s.(queue := s.queue + checks, nTodo := s.nTodo + |checks|, added := s.added + multiset(checks))
    case Complete => s.(threads := s.threads[0 := Thread(Starting, None)])
    case Start(t) => Proceed(s.(nTotal := s.nTotal + 1), t)
    case Execute(t) =>
      var th := s.threads[t];
      s.(threads := s.threads[t := Thread(th.pc.(next := th.pc.next + 1), th.pc.batch[th.pc.next].verdict)])
    case Finish(t) => Proceed(CleanUp(s, t), t)
    case Resume(t) => Proceed(WakeUp(s, t), t)
  }

  // ---------------------------------------------------------------- what the threads hold together

  function Executed(th: Thread): multiset<Check> {
    if th.pc.Working? && th.pc.doWork && th.pc.next <= |th.pc.batch| then multiset(th.pc.batch[..th.pc.next])
    else multiset{}
  }

  /** What one thread contributes to a shared count. */
  function InFlight(): Thread -> nat {
    (th: Thread) => if th.pc.Working? then |th.pc.batch| else 0
  }

  function Sleeping(): Thread -> nat {
    (th: Thread) => if th.pc.Waiting? then 1 else 0
  }

  function Active(): Thread -> nat {
    (th: Thread) => if th.pc.Working? || th.pc.Waiting? then 1 else 0
  }

  function Holding(c: Check): Thread -> nat {
    (th: Thread) => if th.pc.Working? then multiset(th.pc.batch)[c] else 0
  }

  function Sum(f: Thread -> nat, threads: seq<Thread>): nat {
    if threads == [] then 0 else f(threads[0]) + Sum(f, threads[1..])
  }

  lemma {:induction false} SumUpdate(f: Thread -> nat, threads: seq<Thread>, t: nat, th: Thread)
    requires t < |threads|
    ensures Sum(f, threads[t := th]) + f(threads[t]) == Sum(f, threads) + f(th)
  {
    if t == 0 {
      assert threads[t := th][1..] == threads[1..];
    } else {
      SumUpdate(f, threads[1..], t - 1, th);
      assert threads[t := th][1..] == threads[1..][t - 1 := th];
    }
  }

  lemma {:induction false} SumIsZero(f: Thread -> nat, threads: seq<Thread>)
    ensures Sum(f, threads) == 0 <==> forall i :: 0 <= i < |threads| ==> f(threads[i]) == 0
  {
    if threads != [] {
      SumIsZero(f, threads[1..]);
      assert forall i :: 0 < i < |threads| ==> threads[i] == threads[1..][i - 1];
    }
  }

  // ---------------------------------------------------------------- the invariant

  ghost predicate AllPass(checks: multiset<Check>) {
    forall c :: c in checks ==> c.verdict.None?
  }

  /** `local` speaks of this very batch as soon as one of its checks has run. */
  ghost predicate ThreadOk(s: State, th: Thread) {
    th.pc.Working? ==>
      && 0 < |th.pc.batch|
      && th.pc.next <= |th.pc.batch|
      && (!th.pc.doWork ==> s.result.Some? && th.pc.next == 0)
      && (forall i :: 0 <= i < th.pc.next - 1 ==> th.pc.batch[i].verdict.None?)
      && (th.pc.next > 0 ==> th.local == th.pc.batch[th.pc.next - 1].verdict)
  }

  /** What the result slot says about the checks already finished in this round. */
  ghost predicate ResultOk(s: State) {
    && s.doneRan <= s.done
    && (s.result.None? ==> s.doneRan == s.done && AllPass(s.done))
    && (s.result.Some? ==> exists c :: c in s.doneRan && c.verdict == s.result)
  }

  /** What a finished round guarantees. */
  ghost predicate Sound(o: Outcome) {
    && o.ran <= o.added
    && (o.result.None? <==> AllPass(o.added))
    && (o.result.None? ==> o.ran == o.added)
    && (o.result.Some? ==> exists c :: c in o.ran && c.verdict == o.result)
  }

  /** The counters and the checks of the round; `locked` threads are counted but in a critical section. */
  ghost predicate CountsOk(s: State, locked: nat) {
    && s.nTodo == |s.queue| + Sum(InFlight(), s.threads)
    && s.nIdle == Sum(Sleeping(), s.threads)
    && s.nTotal == Sum(Active(), s.threads) + locked
    && forall c :: Conserved(s, c)
  }

  /** Every added check is queued, in a batch, or done. */
  ghost predicate Conserved(s: State, c: Check) {
    s.added[c] == multiset(s.queue)[c] + Sum(Holding(c), s.threads) + s.done[c]
  }

  /** The master sleeps only while others still hold checks, unless it has been notified. */
  ghost predicate MasterOk(s: State) {
    |s.threads| > 0 &&
    (s.threads[0].pc.Waiting? ==> s.queue == [] && (!s.threads[0].pc.notified ==> s.nTodo > 0))
  }

  ghost predicate Inv(s: State) {
    && CountsOk(s, 0)
    && (forall i :: 0 <= i < |s.threads| ==> ThreadOk(s, s.threads[i]))
    && ResultOk(s)
    && MasterOk(s)
    && (forall i :: 0 <= i < |s.outcomes| ==> Sound(s.outcomes[i]))
  }

  /** The state inside a critical section of thread `t`, which is counted but holds nothing. */
  ghost predicate LockedInv(s: State, t: nat) {
    && t < |s.threads| && s.threads[t].pc.Starting?
    && CountsOk(s, 1)
    && (forall i :: 0 <= i < |s.threads| ==> ThreadOk(s, s.threads[i]))
    && ResultOk(s)
    && MasterOk(s)
    && (forall i :: 0 <= i < |s.outcomes| ==> Sound(s.outcomes[i]))
  }

  // ---------------------------------------------------------------- every step keeps it

  lemma InitOk(workers: nat, batchSize: nat)
    ensures Inv(Init(workers, batchSize))
  {
    var s := Init(workers, batchSize);
    SumIsZero(InFlight(), s.threads);
    SumIsZero(Sleeping(), s.threads);
    SumIsZero(Active(), s.threads);
    forall c ensures Conserved(s, c) {
      SumIsZero(Holding(c), s.threads);
    }
  }

  /** A batch is never empty and never longer than the queue, whatever the batch size. */
  lemma BatchBounds(s: State)
    requires |s.queue| > 0 && s.nTotal >= 0 && s.nIdle >= 0
    ensures 1 <= BatchOf(s) <= |s.queue|
    ensures BatchOf(s) <= Max(1, s.batchSize)
  {
    var share := s.nTotal + s.nIdle + 1;
    DivideDown(|s.queue|, share);
  }

  /** A batch is a fair share: the largest number, up to the batch size, that every thread could take. */
  lemma BatchFair(s: State)
    requires |s.queue| > 0 && s.nTotal >= 0 && s.nIdle >= 0
    ensures var n, share := BatchOf(s), s.nTotal + s.nIdle + 1;
            && (n == 1 || (n <= s.batchSize && n * share <= |s.queue|))
            && (n >= s.batchSize || |s.queue| < (n + 1) * share)
  {
    var share := s.nTotal + s.nIdle + 1;
    var q := |s.queue| / share;
    assert |s.queue| == share * q + |s.queue| % share;
    assert (q + 1) * share == q * share + share;
    if BatchOf(s) < q && BatchOf(s) < s.batchSize {
      assert false;
    }
    if q <= 1 {
      assert q * share <= share;
    }
  }

  /** What a thread takes comes off the end of the queue, and is run only while no failure is known. */
  lemma TakeOutcome(s: State, t: nat)
    requires LockedInv(s, t) && s.queue != []
    ensures var u := Proceed(s, t);
            && t < |u.threads| && u.threads[t].pc.Working?
            && |u.threads[t].pc.batch| == BatchOf(s) && u.queue + u.threads[t].pc.batch == s.queue
            && (BatchOver(u.threads[t]) <==> s.result.Some?)
  {
    BatchBounds(s);
  }

  /** Once a check of a batch has failed, no further one of that batch is run. */
  lemma StopsAtFailure(s: State, t: nat)
    requires Inv(s) && Enabled(s, Execute(t))
    ensures var u := Next(s, Execute(t));
            && u.threads[t].pc.batch == s.threads[t].pc.batch && u.threads[t].pc.next == s.threads[t].pc.next + 1
            && (BatchOver(u.threads[t]) <==>
                  || u.threads[t].pc.next == |u.threads[t].pc.batch|
                  || s.threads[t].pc.batch[s.threads[t].pc.next].verdict.Some?)
  {
    assert ThreadOk(s, s.threads[t]);
  }

  lemma DivideDown(a: nat, b: nat)
    requires b > 0
    ensures 0 <= a / b <= a
  {
    var q := a / b;
    assert a == b * q + a % b;
    MultiplyUp(b, q);
  }

  lemma {:induction false} MultiplyUp(b: nat, q: nat)
    requires b > 0
    ensures b * q >= q
  {
    if b > 1 {
      MultiplyUp(b - 1, q);
      assert b * q == (b - 1) * q + q;
    }
  }

  /** Moving thread `t` from a critical section to `th` moves the counts by what `th` holds. */
  lemma CountsMove(threads: seq<Thread>, t: nat, th: Thread)
    requires t < |threads| && threads[t].pc.Starting?
    ensures var threads' := threads[t := th];
            && Sum(InFlight(), threads') == Sum(InFlight(), threads) + InFlight()(th)
            && Sum(Sleeping(), threads') == Sum(Sleeping(), threads) + Sleeping()(th)
            && Sum(Active(), threads') == Sum(Active(), threads) + Active()(th)
    ensures forall c :: Sum(Holding(c), threads[t := th]) == Sum(Holding(c), threads) + Holding(c)(th)
  {
    SumUpdate(InFlight(), threads, t, th);
    SumUpdate(Sleeping(), threads, t, th);
    SumUpdate(Active(), threads, t, th);
    forall c ensures Sum(Holding(c), threads[t := th]) == Sum(Holding(c), threads) + Holding(c)(th) {
      SumUpdate(Holding(c), threads, t, th);
    }
  }

  /** When nothing is in flight, nobody works and every added check that is not queued is done. */
  lemma NothingInFlight(s: State)
    requires Sum(InFlight(), s.threads) == 0
    requires forall i :: 0 <= i < |s.threads| ==> ThreadOk(s, s.threads[i])
    ensures forall i :: 0 <= i < |s.threads| ==> !s.threads[i].pc.Working?
    ensures forall c :: Sum(Holding(c), s.threads) == 0
  {
    SumIsZero(InFlight(), s.threads);
    forall i | 0 <= i < |s.threads| ensures !s.threads[i].pc.Working? {
      assert ThreadOk(s, s.threads[i]) && InFlight()(s.threads[i]) == 0;
    }
    forall c ensures Sum(Holding(c), s.threads) == 0 {
      SumIsZero(Holding(c), s.threads);
    }
  }

  /** A round that ends has been sound. */
  lemma RoundSound(s: State)
    requires LockedInv(s, 0) && s.queue == [] && s.nTodo == 0
    ensures Sound(Outcome(s.result, s.added, s.doneRan))
  {
    NothingInFlight(s);
    assert s.added == s.done by {
      forall c ensures s.added[c] == s.done[c] {
        assert Conserved(s, c);
      }
    }
    if s.result.Some? {
      var c :| c in s.doneRan && c.verdict == s.result;
      assert c in s.added;
    }
  }

  lemma ReturnOk(s: State)
    requires LockedInv(s, 0) && s.queue == [] && s.nTodo == 0
    ensures Inv(Proceed(s, 0))
  {
    RoundSound(s);
    NothingInFlight(s);
    CountsMove(s.threads, 0, Thread(Outside, None));
    var s' := Proceed(s, 0);
    forall c ensures Conserved(s', c) {
    }
  }

  lemma SleepOk(s: State, t: nat)
    requires LockedInv(s, t) && s.queue == [] && !(t == 0 && s.nTodo == 0)
    ensures Inv(Proceed(s, t))
  {
    CountsMove(s.threads, t, s.threads[t].(pc := Waiting(false)));
    var s' := Proceed(s, t);
    forall c ensures Conserved(s', c) {
      assert Conserved(s, c);
    }
    forall i | 0 <= i < |s'.threads| ensures ThreadOk(s', s'.threads[i]) {
      assert ThreadOk(s, s.threads[i]);
    }
  }

  lemma TakeOk(s: State, t: nat)
    requires LockedInv(s, t) && s.queue != []
    ensures Inv(Proceed(s, t))
  {
    BatchBounds(s);
    var cut := |s.queue| - BatchOf(s);
    var batch := s.queue[cut..];
    CountsMove(s.threads, t, s.threads[t].(pc := Working(batch, 0, s.result.None?)));
    var s' := Proceed(s, t);
    assert s'.threads == s.threads[t := s.threads[t].(pc := Working(batch, 0, s.result.None?))];
    forall c ensures Conserved(s', c) {
      assert Conserved(s, c);
      CountSplit(s.queue, cut, c);
    }
    forall i | 0 <= i < |s'.threads| ensures ThreadOk(s', s'.threads[i]) {
      assert ThreadOk(s, s.threads[i]);
    }
  }

  lemma CountSplit(q: seq<Check>, cut: nat, c: Check)
    requires cut <= |q|
    ensures multiset(q)[c] == multiset(q[..cut])[c] + multiset(q[cut..])[c]
  {
    assert q == q[..cut] + q[cut..];
  }

  lemma ProceedOk(s: State, t: nat)
    requires LockedInv(s, t)
    ensures Inv(Proceed(s, t))
  {
    if s.queue != [] {
      TakeOk(s, t);
    } else if t == 0 && s.nTodo == 0 {
      ReturnOk(s);
    } else {
      SleepOk(s, t);
    }
  }

  /** The clean-up publishes a verdict only if it belongs to a check of this round. */
  lemma CleanUpResultOk(s: State, t: nat)
    requires Inv(s) && t < |s.threads| && BatchOver(s.threads[t])
    ensures ResultOk(CleanUp(s, t))
  {
    var th := s.threads[t];
    assert ThreadOk(s, th);
    hide Inv, ThreadOk;
    if s.result.Some? {
      ResultStays(s, t);
    } else {
      BatchDone(s, t);
    }
  }

  lemma ExecutedWithin(th: Thread)
    requires BatchOver(th)
    ensures Executed(th) <= multiset(th.pc.batch)
  {
    var batch := th.pc.batch;
    if th.pc.doWork && th.pc.next <= |batch| {
      assert batch == batch[..th.pc.next] + batch[th.pc.next..];
    }
  }

  lemma ResultStays(s: State, t: nat)
    requires t < |s.threads| && BatchOver(s.threads[t]) && ResultOk(s) && s.result.Some?
    ensures ResultOk(CleanUp(s, t))
  {
    ExecutedWithin(s.threads[t]);
    var c :| c in s.doneRan && c.verdict == s.result;
    assert c in CleanUp(s, t).doneRan;
  }

  /** No failure was known: the batch has been run to its end, or to its first failure. */
  lemma BatchDone(s: State, t: nat)
    requires t < |s.threads| && BatchOver(s.threads[t]) && ThreadOk(s, s.threads[t]) && ResultOk(s) && s.result.None?
    ensures ResultOk(CleanUp(s, t))
  {
    var th, s' := s.threads[t], CleanUp(s, t);
    var batch := th.pc.batch;
    ExecutedWithin(th);
    assert th.pc.doWork && th.pc.next > 0;
    var last := batch[th.pc.next - 1];
    if th.local.Some? {
      assert last in batch[..th.pc.next];
      assert last in s'.doneRan;
    } else {
      assert batch[..th.pc.next] == batch;
      forall c | c in s'.done ensures c.verdict.None? {
        if c !in s.done {
          assert c in batch;
        }
      }
    }
  }

  lemma CleanUpOk(s: State, t: nat)
    requires Inv(s) && t < |s.threads| && BatchOver(s.threads[t])
    ensures LockedInv(CleanUp(s, t), t)
  {
    var th := s.threads[t];
    var s' := CleanUp(s, t);
    var locked := s.threads[t := s'.threads[t]];
    assert locked[t := th] == s.threads;
    CountsMove(locked, t, th);
    NotifyCounts(locked);
    CleanUpResultOk(s, t);
    forall c ensures Conserved(s', c) {
      assert Conserved(s, c);
    }
    forall i | 0 <= i < |s'.threads| ensures ThreadOk(s', s'.threads[i]) {
      assert ThreadOk(s, s.threads[i]);
    }
  }

  lemma NotifyCounts(threads: seq<Thread>)
    requires |threads| > 0
    ensures var threads' := NotifyMaster(threads);
            && Sum(InFlight(), threads') == Sum(InFlight(), threads)
            && Sum(Sleeping(), threads') == Sum(Sleeping(), threads)
            && Sum(Active(), threads') == Sum(Active(), threads)
    ensures forall c :: Sum(Holding(c), NotifyMaster(threads)) == Sum(Holding(c), threads)
  {
    var th := NotifyMaster(threads)[0];
    assert NotifyMaster(threads) == threads[0 := th];
    SumUpdate(InFlight(), threads, 0, th);
    SumUpdate(Sleeping(), threads, 0, th);
    SumUpdate(Active(), threads, 0, th);
    forall c ensures Sum(Holding(c), threads[0 := th]) == Sum(Holding(c), threads) {
      SumUpdate(Holding(c), threads, 0, th);
    }
  }

  lemma StartOk(s: State, t: nat)
    requires Inv(s) && Enabled(s, Start(t))
    ensures LockedInv(s.(nTotal := s.nTotal + 1), t)
  {
    var s' := s.(nTotal := s.nTotal + 1);
    forall c ensures Conserved(s', c) {
      assert Conserved(s, c);
    }
    forall i | 0 <= i < |s'.threads| ensures ThreadOk(s', s'.threads[i]) {
      assert ThreadOk(s, s.threads[i]);
    }
  }

  lemma WakeUpOk(s: State, t: nat)
    requires Inv(s) && Enabled(s, Resume(t))
    ensures LockedInv(WakeUp(s, t), t)
  {
    var s' := WakeUp(s, t);
    assert s'.threads[t := s.threads[t]] == s.threads;
    CountsMove(s'.threads, t, s.threads[t]);
    forall c ensures Conserved(s', c) {
      assert Conserved(s, c);
    }
    forall i | 0 <= i < |s'.threads| ensures ThreadOk(s', s'.threads[i]) {
      assert ThreadOk(s, s.threads[i]);
    }
  }

  lemma ExecuteOk(s: State, t: nat)
    requires Inv(s) && Enabled(s, Execute(t))
    ensures Inv(Next(s, Execute(t)))
  {
    var th, th' := s.threads[t], Next(s, Execute(t)).threads[t];
    var s' := Next(s, Execute(t));
    SumUpdate(InFlight(), s.threads, t, th');
    SumUpdate(Sleeping(), s.threads, t, th');
    SumUpdate(Active(), s.threads, t, th');
    forall c ensures Conserved(s', c) {
      assert Conserved(s, c);
      SumUpdate(Holding(c), s.threads, t, th');
    }
    forall i | 0 <= i < |s'.threads| ensures ThreadOk(s', s'.threads[i]) {
      assert ThreadOk(s, s.threads[i]);
    }
  }

  lemma AddOk(s: State, checks: seq<Check>)
    requires Inv(s) && Enabled(s, Add(checks))
    ensures Inv(Next(s, Add(checks)))
  {
    var s' := Next(s, Add(checks));
    forall c ensures Conserved(s', c) {
      assert Conserved(s, c);
    }
    forall i | 0 <= i < |s'.threads| ensures ThreadOk(s', s'.threads[i]) {
      assert ThreadOk(s, s.threads[i]);
    }
  }

  lemma CompleteOk(s: State)
    requires Inv(s) && Enabled(s, Complete)
    ensures Inv(Next(s, Complete))
  {
    var s' := Next(s, Complete);
    assert s'.threads[0 := s.threads[0]] == s.threads;
    CountsMove(s'.threads, 0, s.threads[0]);
    forall c ensures Conserved(s', c) {
      assert Conserved(s, c);
    }
    forall i | 0 <= i < |s'.threads| ensures ThreadOk(s', s'.threads[i]) {
      assert ThreadOk(s, s.threads[i]);
    }
  }

  /** One critical section, or one executed check, keeps the invariant. */
  lemma NextOk(s: State, step: Step)
    requires Inv(s) && Enabled(s, step)
    ensures Inv(Next(s, step))
  {
    match step
    case Add(checks) => AddOk(s, checks);
    case Complete => CompleteOk(s);
    case Start(t) =>
      StartOk(s, t);
      ProceedOk(s.(nTotal := s.nTotal + 1), t);
    case Execute(t) => ExecuteOk(s, t);
    case Finish(t) =>
      CleanUpOk(s, t);
      ProceedOk(CleanUp(s, t), t);
    case Resume(t) =>
      WakeUpOk(s, t);
      ProceedOk(WakeUp(s, t), t);
  }

  // ---------------------------------------------------------------- runs

  predicate IsRun(s: State, steps: seq<Step>)
    decreases |steps|
  {
    steps == [] || (Enabled(s, steps[0]) && IsRun(Next(s, steps[0]), steps[1..]))
  }

  function After(s: State, steps: seq<Step>): State
    requires IsRun(s, steps)
    decreases |steps|
  {
    if steps == [] then s else After(Next(s, steps[0]), steps[1..])
  }

  lemma {:induction false} RunKeepsInv(s: State, steps: seq<Step>)
    requires Inv(s) && IsRun(s, steps)
    ensures Inv(After(s, steps))
    decreases |steps|
  {
    if steps != [] {
      NextOk(s, steps[0]);
      RunKeepsInv(Next(s, steps[0]), steps[1..]);
    }
  }

  /**
   For any number of workers, any batch size and any interleaving, every round that
   completed was sound: `Complete` returned None exactly when all the checks added in that
   round pass, in which case each ran exactly once, and otherwise it returned the verdict
   of a check of that same round; no check ever ran twice.
   */
  lemma EveryRoundSound(workers: nat, batchSize: nat, steps: seq<Step>)
    requires IsRun(Init(workers, batchSize), steps)
    ensures Inv(After(Init(workers, batchSize), steps))
    ensures forall i :: 0 <= i < |After(Init(workers, batchSize), steps).outcomes| ==>
              Sound(After(Init(workers, batchSize), steps).outcomes[i])
  {
    InitOk(workers, batchSize);
    RunKeepsInv(Init(workers, batchSize), steps);
  }

  // ---------------------------------------------------------------- no lost wake-up

  /**
   Work left.  A thread about to enter its loop and a notified master have one critical section
   ahead; a batch weighs two more than twice its checks still to run, a queued check four.
   */
  function Weight(): Thread -> nat {
    (th: Thread) =>
      match th.pc
      case Outside => 0
      case Starting => 1
      case Waiting(notified) => if notified then 1 else 0
      case Working(batch, next, _) => if next <= |batch| then 2 * (1 + |batch| - next) else 0
  }

  function Work(s: State): nat {
    4 * |s.queue| + Sum(Weight(), s.threads)
  }

  /** A step that is not an idle wake-up: it starts, runs, finishes, or is the notified master's. */
  predicate Useful(s: State, step: Step) {
    match step
    case Add(_) => false
    case Complete => false
    case Resume(t) => t == 0 && t < |s.threads| && s.threads[0].pc.Waiting? && s.threads[0].pc.notified
    case _ => true
  }

  /**
   While the master is inside `Complete` the protocol is never stuck, even if no sleeping
   worker ever wakes: the master can move on its own, has been notified, or a worker holds
   a batch it can run or finish.
   */
  lemma NeverStuck(s: State) returns (step: Step)
    requires Inv(s) && !s.threads[0].pc.Outside?
    ensures Enabled(s, step) && Useful(s, step)
  {
    var pc := s.threads[0].pc;
    if pc.Starting? {
      return Start(0);
    }
    if pc.Waiting? && pc.notified {
      return Resume(0);
    }
    var i := 0;
    if pc.Waiting? {
      SumIsZero(InFlight(), s.threads);
      i :| 0 <= i < |s.threads| && InFlight()(s.threads[i]) != 0;
    }
    step := if BatchOver(s.threads[i]) then Finish(i) else Execute(i);
  }

  /** Every useful step uses up work, whatever the thread does next; idle wake-ups add none. */
  lemma WorkShrinks(s: State, step: Step)
    requires Inv(s) && Enabled(s, step) && !step.Add? && !step.Complete?
    ensures Work(Next(s, step)) <= Work(s)
    ensures Useful(s, step) ==> Work(Next(s, step)) < Work(s)
  {
    match step
    case Execute(t) =>
      assert ThreadOk(s, s.threads[t]);
      SumUpdate(Weight(), s.threads, t, Next(s, step).threads[t]);
    case Start(t) =>
      StartOk(s, t);
      hide Inv, LockedInv;
      ProceedWork(s.(nTotal := s.nTotal + 1), t);
    case Finish(t) => FinishWork(s, t);
    case Resume(t) =>
      WakeUpOk(s, t);
      hide Inv, LockedInv;
      SumUpdate(Weight(), s.threads, t, WakeUp(s, t).threads[t]);
      ProceedWork(WakeUp(s, t), t);
  }

  lemma FinishWork(s: State, t: nat)
    requires Inv(s) && Enabled(s, Finish(t))
    ensures Work(Next(s, Finish(t))) < Work(s)
  {
    assert ThreadOk(s, s.threads[t]);
    var c := CleanUp(s, t);
    CleanUpOk(s, t);
    hide Inv, LockedInv;
    NotifyWeighsLittle(s.threads, t, Thread(Starting, c.threads[t].local));
    ProceedWork(c, t);
  }

  lemma NotifyWeighsLittle(threads: seq<Thread>, t: nat, th: Thread)
    requires t < |threads| && th.pc.Starting?
    ensures Sum(Weight(), threads[t := th]) + Weight()(threads[t]) == Sum(Weight(), threads) + 1
    ensures Sum(Weight(), NotifyMaster(threads[t := th])) <= Sum(Weight(), threads[t := th]) + 1
  {
    SumUpdate(Weight(), threads, t, th);
    var threads' := threads[t := th];
    SumUpdate(Weight(), threads', 0, threads'[0].(pc := Waiting(true)));
  }

  /** A critical section itself weighs one, and taking checks off the queue makes nothing heavier. */
  lemma ProceedWork(s: State, t: nat)
    requires LockedInv(s, t)
    ensures Work(Proceed(s, t)) < Work(s)
  {
    if s.queue != [] {
      BatchBounds(s);
    }
    SumUpdate(Weight(), s.threads, t, Proceed(s, t).threads[t]);
  }

  predicate NoneAdded(steps: seq<Step>) {
    forall i :: 0 <= i < |steps| ==> !steps[i].Add? && !steps[i].Complete?
  }

  function UsefulSteps(s: State, steps: seq<Step>): nat
    requires IsRun(s, steps)
    decreases |steps|
  {
    if steps == [] then 0
    else (if Useful(s, steps[0]) then 1 else 0) + UsefulSteps(Next(s, steps[0]), steps[1..])
  }

  /**
   However the threads are scheduled and however often they wake for nothing, a round has room for
   no more useful steps than the work it starts with.
   */
  lemma {:induction false} RoundBounded(s: State, steps: seq<Step>)
    requires Inv(s) && IsRun(s, steps) && NoneAdded(steps)
    ensures UsefulSteps(s, steps) + Work(After(s, steps)) <= Work(s)
    decreases |steps|
  {
    if steps != [] {
      WorkShrinks(s, steps[0]);
      NextOk(s, steps[0]);
      RoundBounded(Next(s, steps[0]), steps[1..]);
    }
  }

  lemma UsefulInside(s: State, step: Step)
    requires Enabled(s, step) && Useful(s, step)
    ensures !step.Add? && !step.Complete?
  {
  }

  /**
   From any state in which the master is inside, useful steps alone, no more than the work left,
   bring it out again, even if no sleeping worker ever wakes.
   */
  lemma {:induction false} RoundEnds(s: State) returns (steps: seq<Step>)
    requires Inv(s)
    ensures IsRun(s, steps) && NoneAdded(steps) && |steps| == UsefulSteps(s, steps) <= Work(s)
    ensures After(s, steps).threads != [] && After(s, steps).threads[0].pc.Outside?
    decreases Work(s)
  {
    assert s.threads != [];
    hide Inv, Next, Enabled, Useful;
    if s.threads[0].pc.Outside? {
      return [];
    }
    var step := NeverStuck(s);
    UsefulInside(s, step);
    WorkShrinks(s, step);
    NextOk(s, step);
    var rest := RoundEnds(Next(s, step));
    steps := [step] + rest;
    assert steps[1..] == rest;
  }
}
