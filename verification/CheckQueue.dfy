/** CCheckQueue (src/checkqueue.h): one master and any number of workers share a stack of checks
    under a mutex. Every critical section is one atomic step; a thread that waits on a condition
    variable gives the mutex up and later resumes, notified or spuriously. */
module CheckQueue {
  import opened Arithmetic

  /** A verification: what operator() would answer. */
  datatype Check = Check(id: nat, holds: bool)

  /** The fields the mutex protects. */
  datatype Shared = Shared(queue: seq<Check>, nIdle: int, nTotal: int, fAllOk: bool, nTodo: int, fQuit: bool)

  /** How a pass through the critical section of Loop ends. */
  datatype Outcome =
    | Take(batch: seq<Check>, fOk: bool)
    | Sleep
    | Leave(result: bool)

  predicate AllHold(s: seq<Check>) {
    forall c | c in s :: c.holds
  }

  // ----- the critical sections, as functions of the shared fields

  /** How many checks a thread takes at once. */
  function BatchSize(q: Shared, limit: nat): int
    requires q.nTotal + q.nIdle + 1 > 0
  {
    var share := |q.queue| / (q.nTotal + q.nIdle + 1);
    var n := if limit < share then limit else share;
    if n > 1 then n else 1
  }

  /** The top n checks of the stack, the top one first. */
  function Popped(queue: seq<Check>, n: nat): (s: seq<Check>)
    requires n <= |queue|
    ensures |s| == n
  {
    seq(n, i requires 0 <= i < n => queue[|queue| - 1 - i])
  }

  predicate Sane(q: Shared) {
    q.nTotal >= 0 && q.nIdle >= 0
  }

  lemma BatchFits(q: Shared, limit: nat)
    requires Sane(q) && q.queue != []
    ensures 1 <= BatchSize(q, limit) <= |q.queue|
    ensures var n, d := BatchSize(q, limit), q.nTotal + q.nIdle + 1;
            n == 1 || (n <= limit && n * d <= |q.queue|)
    ensures var n, d := BatchSize(q, limit), q.nTotal + q.nIdle + 1;
            n >= limit || (n + 1) * d > |q.queue|
  {
    var d := q.nTotal + q.nIdle + 1;
    DivBounds(|q.queue|, d);
    var share := |q.queue| / d;
    assert |q.queue| == share * d + |q.queue| % d;
    MulMonotone(1, d, share);
    var n := BatchSize(q, limit);
    if n <= share {
      MulMonotone(n, share, d);
    }
    if n >= share {
      MulMonotone(share + 1, n + 1, d);
    }
  }

  /** From the test for an empty queue to the end of the section (or to the wait). */
  function Dequeue(q: Shared, fMaster: bool, limit: nat): (r: (Shared, Outcome))
    requires Sane(q)
  {
    if q.queue == [] then
      if (fMaster || q.fQuit) && q.nTodo == 0 then
        (q.(nTotal := q.nTotal - 1, fAllOk := fMaster || q.fAllOk), Leave(q.fAllOk))
      else
        (q.(nIdle := q.nIdle + 1), Sleep)
    else
      BatchFits(q, limit);
      var n := BatchSize(q, limit);
      (q.(queue := q.queue[..|q.queue| - n]), Take(Popped(q.queue, n), q.fAllOk))
  }

  /** The clean-up of the previous turn. */
  function Settled(q: Shared, batch: seq<Check>, fOk: bool): Shared {
    q.(fAllOk := q.fAllOk && fOk, nTodo := q.nTodo - |batch|)
  }

  function Added(q: Shared, checks: seq<Check>): Shared {
    q.(queue := q.queue + checks, nTodo := q.nTodo + |checks|)
  }

  lemma PoppedContents(queue: seq<Check>, n: nat)
    requires n <= |queue|
    ensures multiset(queue) == multiset(queue[..|queue| - n]) + multiset(Popped(queue, n))
    decreases n
  {
    if n == 0 {
      assert queue[..|queue|] == queue;
    } else {
      PoppedContents(queue, n - 1);
      var k := |queue| - n;
      assert queue[..k + 1] == queue[..k] + [queue[k]];
      assert Popped(queue, n) == Popped(queue, n - 1) + [queue[k]];
    }
  }

  // ----- the same sections as the source runs them, on an object

  class Queue {
    var queue: seq<Check>
    var nIdle: int
    var nTotal: int
    var fAllOk: bool
    var nTodo: int
    var fQuit: bool
    const nBatchSize: nat

    ghost function View(): Shared
      reads this
    {
      Shared(queue, nIdle, nTotal, fAllOk, nTodo, fQuit)
    }

    constructor (batchSize: nat)
      ensures nBatchSize == batchSize && View() == Start()
    {
      nBatchSize := batchSize;
      queue, nIdle, nTotal, fAllOk, nTodo, fQuit := [], 0, 0, true, 0, false;
    }

    /** The body of Add under the lock. */
    method Add(checks: seq<Check>)
      modifies this
      ensures View() == Added(old(View()), checks)
    {
      for i := 0 to |checks|
        invariant View() == old(View()).(queue := old(queue) + checks[..i])
      {
        queue := queue + [checks[i]];
        assert checks[..i + 1] == checks[..i] + [checks[i]];
      }
      assert checks[..|checks|] == checks;
      nTodo := nTodo + |checks|;
    }

    /** The decision to leave, sleep or work, and the loop that moves a batch out of the queue. */
    method NextTurn(fMaster: bool) returns (o: Outcome)
      requires Sane(View())
      modifies this
      ensures (View(), o) == Dequeue(old(View()), fMaster, nBatchSize)
    {
      if queue == [] {
        if (fMaster || fQuit) && nTodo == 0 {
          nTotal := nTotal - 1;
          var fRet := fAllOk;
          if fMaster {
            fAllOk := true;
          }
          return Leave(fRet);
        }
        nIdle := nIdle + 1;
        return Sleep;
      }
      BatchFits(View(), nBatchSize);
      var share := |queue| / (nTotal + nIdle + 1);
      var nNow := if nBatchSize < share then nBatchSize else share;
      nNow := if nNow > 1 then nNow else 1;
      var vChecks := [];
      for i := 0 to nNow
        invariant vChecks == Popped(old(queue), i)
        invariant View() == old(View()).(queue := old(queue)[..|old(queue)| - i])
      {
        vChecks := vChecks + [queue[|queue| - 1]];
        queue := queue[..|queue| - 1];
      }
      o := Take(vChecks, fAllOk);
    }

    /** The clean-up of the previous turn; last says that the master has to be told. */
    method CleanUp(batch: seq<Check>, fOk: bool, fMaster: bool) returns (last: bool)
      modifies this
      ensures View() == Settled(old(View()), batch, fOk)
      ensures last == (View().nTodo == 0 && !fMaster)
    {
      fAllOk := fAllOk && fOk;
      nTodo := nTodo - |batch|;
      last := nTodo == 0 && !fMaster;
    }
  }

  /** The loop that executes a batch outside the lock: nothing is evaluated once one has failed. */
  method Execute(batch: seq<Check>, start: bool) returns (fOk: bool)
    ensures fOk == (start && AllHold(batch))
  {
    fOk := start;
    for i := 0 to |batch|
      invariant fOk == (start && AllHold(batch[..i]))
    {
      assert batch[..i + 1] == batch[..i] + [batch[i]];
      if fOk {
        fOk := batch[i].holds;
      }
      assert AllHold(batch[..i + 1]) <==> AllHold(batch[..i]) && batch[i].holds;
    }
    assert batch[..|batch|] == batch;
  }

  function Start(): Shared {
    Shared([], 0, 0, true, 0, false)
  }

  // ----- threads and runs

  datatype Phase =
    | Outside
    | Working(batch: seq<Check>, done: nat, fOk: bool)
    | Asleep(woken: bool)
    | Gone

  /** What one call of Wait was told and what it answered. */
  datatype Report = Report(added: multiset<Check>, settled: multiset<Check>, result: bool)

  /** threads[0] is the master. added and settled are the checks added, and accounted for, since
      the last Wait returned; log holds the answers given so far. */
  datatype State = State(q: Shared, threads: seq<Phase>, added: multiset<Check>, settled: multiset<Check>,
                         log: seq<Report>)

  predicate Init(s: State) {
    && s.q == Start()
    && |s.threads| > 0
    && (forall t | 0 <= t < |s.threads| :: s.threads[t] == Outside)
    && s.added == multiset{} && s.settled == multiset{} && s.log == []
  }

  datatype Step =
    | Add(checks: seq<Check>, wakes: nat)
    | Enter(t: nat)
    | Run(t: nat)
    | Finish(t: nat)
    | Resume(t: nat)
    | Quit

  /** What the thread does next, given how its section ended. */
  function PhaseAfter(o: Outcome, fMaster: bool): Phase {
    match o
    case Take(batch, fOk) => Working(batch, 0, fOk)
    case Sleep => Asleep(false)
    case Leave(_) => if fMaster then Outside else Gone
  }

  /** Thread t passes through the rest of its section, the shared fields being q on the way. */
  function Proceed(s: State, q: Shared, t: nat, limit: nat): State
    requires t < |s.threads| && Sane(q)
  {
    var (q', o) := Dequeue(q, t == 0, limit);
    var s' := s.(q := q', threads := s.threads[t := PhaseAfter(o, t == 0)]);
    if o.Leave? && t == 0 then
      s'.(added := multiset{}, settled := multiset{}, log := s.log + [Report(s.added, s.settled, o.result)])
    else s'
  }

  function Nudge(p: Phase): Phase {
    if p.Asleep? then Asleep(true) else p
  }

  /** condMaster.notify_one. */
  function NotifyMaster(ts: seq<Phase>): seq<Phase>
    requires |ts| > 0
  {
    ts[0 := Nudge(ts[0])]
  }

  /** condWorker.notify_all. */
  function NotifyWorkers(ts: seq<Phase>): seq<Phase> {
    seq(|ts|, i requires 0 <= i < |ts| => if i == 0 then ts[i] else Nudge(ts[i]))
  }

  /** condWorker.notify_one wakes some waiting worker, if there is one. */
  predicate WokenOne(ts: seq<Phase>, w: nat, ts': seq<Phase>) {
    if 0 < w < |ts| && ts[w] == Asleep(false) then ts' == ts[w := Asleep(true)]
    else ts' == ts && forall i | 0 < i < |ts| :: ts[i] != Asleep(false)
  }

  predicate DoAdd(s: State, checks: seq<Check>, w: nat, s': State) {
    && |s.threads| > 0 && s.threads[0] == Outside
    && s'.q == Added(s.q, checks)
    && s'.added == s.added + multiset(checks) && s'.settled == s.settled && s'.log == s.log
    && (if |checks| == 0 then s'.threads == s.threads
        else if |checks| == 1 then WokenOne(s.threads, w, s'.threads)
        else s'.threads == NotifyWorkers(s.threads))
  }

  predicate DoEnter(s: State, t: nat, limit: nat, s': State) {
    && t < |s.threads| && s.threads[t] == Outside
    && Sane(s.q) && s' == Proceed(s, s.q.(nTotal := s.q.nTotal + 1), t, limit)
  }

  predicate DoRun(s: State, t: nat, s': State) {
    && t < |s.threads| && s.threads[t].Working? && s.threads[t].done < |s.threads[t].batch|
    && var p := s.threads[t];
       s' == s.(threads := s.threads[t := p.(done := p.done + 1, fOk := p.fOk && p.batch[p.done].holds)])
  }

  /** The state between a thread's clean-up and the rest of its section. */
  function Cleaned(s: State, t: nat): State
    requires t < |s.threads| && s.threads[t].Working?
  {
    var p := s.threads[t];
    var q := Settled(s.q, p.batch, p.fOk);
    State(q,
          if q.nTodo == 0 && t != 0 then NotifyMaster(s.threads) else s.threads,
          s.added, s.settled + multiset(p.batch), s.log)
  }

  predicate DoFinish(s: State, t: nat, limit: nat, s': State) {
    && t < |s.threads| && s.threads[t].Working? && s.threads[t].done == |s.threads[t].batch|
    && Sane(s.q)
    && s' == Proceed(Cleaned(s, t), Cleaned(s, t).q, t, limit)
  }

  predicate DoResume(s: State, t: nat, limit: nat, s': State) {
    && t < |s.threads| && s.threads[t].Asleep?
    && Sane(s.q.(nIdle := s.q.nIdle - 1)) && s' == Proceed(s, s.q.(nIdle := s.q.nIdle - 1), t, limit)
  }

  predicate DoQuit(s: State, s': State) {
    s' == s.(q := s.q.(fQuit := true), threads := NotifyWorkers(s.threads))
  }

  predicate Next(s: State, step: Step, limit: nat, s': State) {
    match step
    case Add(checks, w) => DoAdd(s, checks, w, s')
    case Enter(t) => DoEnter(s, t, limit, s')
    case Run(t) => DoRun(s, t, s')
    case Finish(t) => DoFinish(s, t, limit, s')
    case Resume(t) => DoResume(s, t, limit, s')
    case Quit => DoQuit(s, s')
  }

  // ----- counting over the threads

  function Load(p: Phase): nat {
    if p.Working? then |p.batch| else 0
  }

  function Idle(p: Phase): nat {
    if p.Asleep? then 1 else 0
  }

  function Inside(p: Phase): nat {
    if p.Asleep? || p.Working? then 1 else 0
  }

  /** How often c is in the thread's own batch. */
  function CopiesIn(p: Phase, c: Check): nat {
    if p.Working? then multiset(p.batch)[c] else 0
  }

  function Copies(c: Check): Phase -> nat {
    p => CopiesIn(p, c)
  }

  /** The total of f over the first n threads. */
  function Count(ts: seq<Phase>, f: Phase -> nat, n: nat): nat
    requires n <= |ts|
  {
    if n == 0 then 0 else Count(ts, f, n - 1) + f(ts[n - 1])
  }

  function Total(ts: seq<Phase>, f: Phase -> nat): nat {
    Count(ts, f, |ts|)
  }

  lemma {:induction false} CountUpdate(ts: seq<Phase>, f: Phase -> nat, t: nat, p: Phase, n: nat)
    requires t < |ts| && n <= |ts|
    ensures t < n ==> Count(ts[t := p], f, n) + f(ts[t]) == Count(ts, f, n) + f(p)
    ensures n <= t ==> Count(ts[t := p], f, n) == Count(ts, f, n)
  {
    if n > 0 {
      CountUpdate(ts, f, t, p, n - 1);
    }
  }

  lemma TotalUpdate(ts: seq<Phase>, f: Phase -> nat, t: nat, p: Phase)
    requires t < |ts|
    ensures Total(ts[t := p], f) + f(ts[t]) == Total(ts, f) + f(p)
  {
    CountUpdate(ts, f, t, p, |ts|);
  }

  lemma {:induction false} CountHas(ts: seq<Phase>, f: Phase -> nat, t: nat, n: nat)
    requires t < n <= |ts|
    ensures f(ts[t]) <= Count(ts, f, n)
  {
    if t < n - 1 {
      CountHas(ts, f, t, n - 1);
    }
  }

  lemma TotalHas(ts: seq<Phase>, f: Phase -> nat, t: nat)
    requires t < |ts|
    ensures f(ts[t]) <= Total(ts, f)
  {
    CountHas(ts, f, t, |ts|);
  }

  lemma {:induction false} SameCount(ts: seq<Phase>, us: seq<Phase>, f: Phase -> nat, n: nat)
    requires n <= |ts| == |us| && forall i | 0 <= i < n :: f(us[i]) == f(ts[i])
    ensures Count(us, f, n) == Count(ts, f, n)
  {
    if n > 0 {
      SameCount(ts, us, f, n - 1);
    }
  }

  lemma {:induction false} CountZero(ts: seq<Phase>, f: Phase -> nat, n: nat)
    requires n <= |ts| && forall i | 0 <= i < n :: f(ts[i]) == 0
    ensures Count(ts, f, n) == 0
  {
    if n > 0 {
      CountZero(ts, f, n - 1);
    }
  }

  // ----- the invariant

  /** A worker's own verdict. */
  predicate BatchOk(p: Phase, fAllOk: bool) {
    p.Working? ==>
      && 0 < |p.batch| && p.done <= |p.batch|
      && (p.fOk ==> AllHold(p.batch[..p.done]))
      && (!p.fOk ==> !fAllOk || !AllHold(p.batch[..p.done]))
  }

  predicate Batches(s: State) {
    forall t | 0 <= t < |s.threads| :: BatchOk(s.threads[t], s.q.fAllOk)
  }

  predicate AllOf(m: multiset<Check>) {
    forall c | c in m :: c.holds
  }

  /** The three counters are exact: nTodo is queued plus in-flight. */
  predicate Exact(s: State) {
    && s.q.nIdle == Total(s.threads, Idle)
    && s.q.nTotal == Total(s.threads, Inside)
    && s.q.nTodo == |s.q.queue| + Total(s.threads, Load)
  }

  /** Every copy of c that was added is accounted for, queued or in a batch. */
  predicate Accounted(s: State, c: Check) {
    s.added[c] == s.settled[c] + multiset(s.q.queue)[c] + Total(s.threads, Copies(c))
  }

  ghost predicate AllAccounted(s: State) {
    forall c :: Accounted(s, c)
  }

  /** The master sleeps only on an empty queue, and is woken when nothing is left to do. */
  predicate NotStranded(s: State) {
    |s.threads| > 0 && s.threads[0] != Gone &&
    (s.threads[0].Asleep? ==> s.q.queue == [] && (s.q.nTodo == 0 ==> s.threads[0].woken))
  }

  predicate ReportOk(r: Report) {
    r.settled == r.added && (r.result <==> AllOf(r.added))
  }

  predicate Reports(s: State) {
    forall i | 0 <= i < |s.log| :: ReportOk(s.log[i])
  }

  predicate Verdict(s: State) {
    s.q.fAllOk <==> AllOf(s.settled)
  }

  ghost predicate Inv(s: State) {
    Exact(s) && AllAccounted(s) && Batches(s) && NotStranded(s) && Reports(s) && Verdict(s)
  }

  // ----- every step keeps the invariant

  lemma InitInv(s: State)
    requires Init(s)
    ensures Inv(s)
  {
    CountZero(s.threads, Idle, |s.threads|);
    CountZero(s.threads, Inside, |s.threads|);
    CountZero(s.threads, Load, |s.threads|);
    forall c
      ensures Accounted(s, c)
    {
      CountZero(s.threads, Copies(c), |s.threads|);
    }
  }

  /** What holds in the middle of a section of thread t: its own batch no longer counts. */
  ghost predicate Middle(s: State, t: nat) {
    && t < |s.threads|
    && MiddleExact(s, s.threads[t := Outside])
    && AllAccounted(s.(threads := s.threads[t := Outside]))
    && (t != 0 ==> NotStranded(s))
    && (forall i | 0 <= i < |s.threads| && i != t :: BatchOk(s.threads[i], s.q.fAllOk))
    && Reports(s) && Verdict(s)
  }

  predicate MiddleExact(s: State, ts: seq<Phase>) {
    && s.q.nIdle == Total(ts, Idle)
    && s.q.nTotal == Total(ts, Inside) + 1
    && s.q.nTodo == |s.q.queue| + Total(ts, Load)
  }

  /** With nothing queued and nothing in flight, no thread holds a batch. */
  lemma NoneInFlight(ts: seq<Phase>, i: nat)
    requires i < |ts| && Total(ts, Load) == 0
    ensures Load(ts[i]) == 0
  {
    CountHas(ts, Load, i, |ts|);
  }

  lemma NoCopiesInFlight(ts: seq<Phase>, c: Check)
    requires Total(ts, Load) == 0
    ensures Total(ts, Copies(c)) == 0
  {
    forall i | 0 <= i < |ts|
      ensures Copies(c)(ts[i]) == 0
    {
      NoneInFlight(ts, i);
    }
    CountZero(ts, Copies(c), |ts|);
  }

  lemma ProceedExact(s: State, t: nat, limit: nat)
    requires t < |s.threads| && MiddleExact(s, s.threads[t := Outside]) && Sane(s.q)
    ensures Exact(Proceed(s, s.q, t, limit))
  {
    hide Total, Popped, AllHold;
    var ts := s.threads[t := Outside];
    var (q', o) := Dequeue(s.q, t == 0, limit);
    var p := PhaseAfter(o, t == 0);
    assert ts[t := p] == s.threads[t := p];
    TotalUpdate(ts, Idle, t, p);
    TotalUpdate(ts, Inside, t, p);
    TotalUpdate(ts, Load, t, p);
    assert Proceed(s, s.q, t, limit).threads == ts[t := p];
  }

  lemma ProceedAccounted(s: State, t: nat, limit: nat, c: Check)
    requires Middle(s, t) && Sane(s.q)
    ensures Accounted(Proceed(s, s.q, t, limit), c)
  {
    hide Total, Popped, AllHold, Reports, Verdict, BatchOk, NotStranded;
    var ts := s.threads[t := Outside];
    var (q', o) := Dequeue(s.q, t == 0, limit);
    var p := PhaseAfter(o, t == 0);
    assert ts[t := p] == s.threads[t := p];
    TotalUpdate(ts, Copies(c), t, p);
    var s' := Proceed(s, s.q, t, limit);
    assert s'.threads == ts[t := p];
    assert Accounted(s.(threads := ts), c);
    if o.Take? {
      BatchFits(s.q, limit);
      PoppedContents(s.q.queue, BatchSize(s.q, limit));
    } else if o.Leave? && t == 0 {
      NoCopiesInFlight(ts, c);
    }
  }

  lemma ProceedBatches(s: State, t: nat, limit: nat)
    requires Middle(s, t) && Sane(s.q)
    ensures Batches(Proceed(s, s.q, t, limit))
  {
    hide Reports, Verdict, Total, AllAccounted, NotStranded;
    var (q', o) := Dequeue(s.q, t == 0, limit);
    if o.Take? {
      BatchFits(s.q, limit);
    }
    if o.Leave? && t == 0 {
      var ts := s.threads[t := Outside];
      forall i | 0 <= i < |ts| && i != t
        ensures !s.threads[i].Working?
      {
        assert BatchOk(s.threads[i], s.q.fAllOk);
        NoneInFlight(ts, i);
      }
    }
  }

  lemma AllOfNothing()
    ensures AllOf(multiset{})
  {
  }

  /** The reports given so far depend on the log alone. */
  lemma SameLog(s: State, s': State)
    requires Reports(s) && s'.log == s.log
    ensures Reports(s')
  {
  }

  lemma SameVerdict(s: State, s': State)
    requires Verdict(s) && s'.q.fAllOk == s.q.fAllOk && s'.settled == s.settled
    ensures Verdict(s')
  {
  }

  lemma ProceedReports(s: State, t: nat, limit: nat)
    requires Middle(s, t) && Sane(s.q)
    ensures var s' := Proceed(s, s.q, t, limit);
            NotStranded(s') && Reports(s') && Verdict(s')
  {
    hide Total, AllOf;
    var ts := s.threads[t := Outside];
    var (q', o) := Dequeue(s.q, t == 0, limit);
    if o.Leave? && t == 0 {
      forall c
        ensures s.added[c] == s.settled[c]
      {
        NoCopiesInFlight(ts, c);
        assert Accounted(s.(threads := ts), c);
      }
      assert s.settled == s.added;
      AllOfNothing();
      var s' := Proceed(s, s.q, t, limit);
      forall i | 0 <= i < |s'.log|
        ensures ReportOk(s'.log[i])
      {
        if i < |s.log| {
          assert ReportOk(s.log[i]);
        }
      }
    }
  }

  lemma ProceedInv(s: State, t: nat, limit: nat)
    requires Middle(s, t) && Sane(s.q)
    ensures Inv(Proceed(s, s.q, t, limit))
  {
    ProceedExact(s, t, limit);
    ProceedBatches(s, t, limit);
    ProceedReports(s, t, limit);
    forall c
      ensures Accounted(Proceed(s, s.q, t, limit), c)
    {
      ProceedAccounted(s, t, limit, c);
    }
  }

  lemma EnterInv(s: State, t: nat, limit: nat, s': State)
    requires Inv(s) && DoEnter(s, t, limit, s')
    ensures Inv(s')
  {
    hide Total, Reports, AllOf, Dequeue, BatchOk;
    var m := s.(q := s.q.(nTotal := s.q.nTotal + 1));
    assert s.threads[t := Outside] == s.threads;
    forall c
      ensures Accounted(m.(threads := s.threads), c)
    {
      assert Accounted(s, c);
    }
    SameLog(s, m);
    ProceedInv(m, t, limit);
    assert s' == Proceed(m, m.q, t, limit);
  }

  lemma ResumeInv(s: State, t: nat, limit: nat, s': State)
    requires Inv(s) && DoResume(s, t, limit, s')
    ensures Inv(s')
  {
    hide Total, Reports, AllOf, Dequeue, BatchOk;
    var m := s.(q := s.q.(nIdle := s.q.nIdle - 1));
    TotalUpdate(s.threads, Idle, t, Outside);
    TotalUpdate(s.threads, Inside, t, Outside);
    TotalUpdate(s.threads, Load, t, Outside);
    var m' := m.(threads := s.threads[t := Outside]);
    forall c
      ensures Accounted(m', c)
    {
      assert Accounted(s, c);
      TotalUpdate(s.threads, Copies(c), t, Outside);
    }
    SameLog(s, m);
    ProceedInv(m, t, limit);
    assert s' == Proceed(m, m.q, t, limit);
  }

  /** The notification changes no count. */
  lemma NotifyKeepsTotals(ts: seq<Phase>, us: seq<Phase>, f: Phase -> nat)
    requires SameWork(ts, us)
    requires f(Asleep(true)) == f(Asleep(false))
    ensures Total(us, f) == Total(ts, f)
  {
    forall i | 0 <= i < |ts|
      ensures f(us[i]) == f(ts[i])
    {
      assert us[i] == ts[i] || (ts[i].Asleep? && us[i] == Asleep(true));
      assert ts[i].Asleep? ==> ts[i] == Asleep(true) || ts[i] == Asleep(false);
    }
    SameCount(ts, us, f, |ts|);
  }

  /** Two lists of threads that hold the same batches and differ at most in who has been woken. */
  predicate SameWork(ts: seq<Phase>, us: seq<Phase>) {
    |ts| == |us| &&
    forall i | 0 <= i < |ts| :: us[i] == ts[i] || (ts[i].Asleep? && us[i] == Asleep(true))
  }

  lemma CleanedExact(s: State, t: nat)
    requires Exact(s) && t < |s.threads| && s.threads[t].Working?
    ensures MiddleExact(Cleaned(s, t), Cleaned(s, t).threads[t := Outside])
  {
    hide Total, AllOf;
    var ts, us := s.threads[t := Outside], Cleaned(s, t).threads[t := Outside];
    assert SameWork(ts, us);
    NotifyKeepsTotals(ts, us, Idle);
    NotifyKeepsTotals(ts, us, Inside);
    NotifyKeepsTotals(ts, us, Load);
    TotalUpdate(s.threads, Idle, t, Outside);
    TotalUpdate(s.threads, Inside, t, Outside);
    TotalUpdate(s.threads, Load, t, Outside);
  }

  lemma CleanedAccounted(s: State, t: nat, c: Check)
    requires Accounted(s, c) && t < |s.threads| && s.threads[t].Working?
    ensures var m := Cleaned(s, t);
            Accounted(m.(threads := m.threads[t := Outside]), c)
  {
    hide Total, AllOf;
    var ts, us := s.threads[t := Outside], Cleaned(s, t).threads[t := Outside];
    assert SameWork(ts, us);
    NotifyKeepsTotals(ts, us, Copies(c));
    TotalUpdate(s.threads, Copies(c), t, Outside);
  }

  lemma AllOfUnion(a: multiset<Check>, batch: seq<Check>)
    ensures AllOf(a + multiset(batch)) <==> AllOf(a) && AllHold(batch)
  {
    assert forall c :: c in multiset(batch) <==> c in batch;
    if AllOf(a + multiset(batch)) {
      assert forall c | c in a :: c in a + multiset(batch);
      assert forall c | c in batch :: c in a + multiset(batch);
    }
  }

  /** The verdict after a clean-up: fAllOk drops exactly when a check of the batch fails. */
  lemma CleanedVerdict(s: State, t: nat)
    requires Batches(s) && Verdict(s) && t < |s.threads| && s.threads[t].Working?
    requires s.threads[t].done == |s.threads[t].batch|
    ensures Verdict(Cleaned(s, t))
    ensures forall i | 0 <= i < |s.threads| && i != t :: BatchOk(Cleaned(s, t).threads[i], Cleaned(s, t).q.fAllOk)
  {
    hide AllOf;
    var p := s.threads[t];
    assert BatchOk(p, s.q.fAllOk);
    assert p.batch[..p.done] == p.batch;
    AllOfUnion(s.settled, p.batch);
    forall i | 0 <= i < |s.threads| && i != t
      ensures BatchOk(Cleaned(s, t).threads[i], Cleaned(s, t).q.fAllOk)
    {
      assert BatchOk(s.threads[i], s.q.fAllOk);
    }
  }

  lemma FinishInv(s: State, t: nat, limit: nat, s': State)
    requires Inv(s) && DoFinish(s, t, limit, s')
    ensures Inv(s')
  {
    hide Total, Exact, Accounted, MiddleExact, Verdict, Dequeue, BatchOk, Reports;
    CleanedExact(s, t);
    var m' := Cleaned(s, t).(threads := Cleaned(s, t).threads[t := Outside]);
    forall c
      ensures Accounted(m', c)
    {
      CleanedAccounted(s, t, c);
    }
    CleanedVerdict(s, t);
    var m := Cleaned(s, t);
    SameLog(s, m);
    ProceedInv(m, t, limit);
  }

  lemma RunBatch(s: State, t: nat, s': State)
    requires Batches(s) && DoRun(s, t, s')
    ensures Batches(s')
  {
    var p := s.threads[t];
    assert BatchOk(p, s.q.fAllOk);
    assert p.batch[..p.done + 1] == p.batch[..p.done] + [p.batch[p.done]];
    assert AllHold(p.batch[..p.done + 1]) <==> AllHold(p.batch[..p.done]) && p.batch[p.done].holds;
    assert BatchOk(s'.threads[t], s.q.fAllOk);
  }

  lemma RunInv(s: State, t: nat, s': State)
    requires Inv(s) && DoRun(s, t, s')
    ensures Inv(s')
  {
    hide Total, Reports, Verdict, BatchOk;
    RunBatch(s, t, s');
    var p' := s'.threads[t];
    TotalUpdate(s.threads, Idle, t, p');
    TotalUpdate(s.threads, Inside, t, p');
    TotalUpdate(s.threads, Load, t, p');
    forall c
      ensures Accounted(s', c)
    {
      assert Accounted(s, c);
      TotalUpdate(s.threads, Copies(c), t, p');
    }
    SameLog(s, s');
    SameVerdict(s, s');
  }

  /** Adding checks or quitting: some sleepers are woken and the queue may grow. */
  lemma WakeExact(s: State, s': State, checks: seq<Check>)
    requires Exact(s) && SameWork(s.threads, s'.threads)
    requires s'.q.nIdle == s.q.nIdle && s'.q.nTotal == s.q.nTotal
    requires s'.q.queue == s.q.queue + checks && s'.q.nTodo == s.q.nTodo + |checks|
    ensures Exact(s')
  {
    hide Total;
    NotifyKeepsTotals(s.threads, s'.threads, Idle);
    NotifyKeepsTotals(s.threads, s'.threads, Inside);
    NotifyKeepsTotals(s.threads, s'.threads, Load);
  }

  lemma WakeAccounted(s: State, s': State, checks: seq<Check>, c: Check)
    requires Accounted(s, c) && SameWork(s.threads, s'.threads)
    requires s'.q.queue == s.q.queue + checks
    requires s'.added == s.added + multiset(checks) && s'.settled == s.settled
    ensures Accounted(s', c)
  {
    hide Total;
    NotifyKeepsTotals(s.threads, s'.threads, Copies(c));
  }

  lemma WakeBatches(s: State, s': State)
    requires Batches(s) && SameWork(s.threads, s'.threads) && s'.q.fAllOk == s.q.fAllOk
    ensures Batches(s')
  {
    forall t | 0 <= t < |s'.threads|
      ensures BatchOk(s'.threads[t], s'.q.fAllOk)
    {
      assert BatchOk(s.threads[t], s.q.fAllOk);
    }
  }

  lemma AddInv(s: State, checks: seq<Check>, w: nat, s': State)
    requires Inv(s) && DoAdd(s, checks, w, s')
    ensures Inv(s')
  {
    hide Exact, Accounted, Batches, AllOf;
    assert SameWork(s.threads, s'.threads);
    WakeExact(s, s', checks);
    WakeBatches(s, s');
    forall c
      ensures Accounted(s', c)
    {
      assert Accounted(s, c);
      WakeAccounted(s, s', checks, c);
    }
  }

  lemma QuitInv(s: State, s': State)
    requires Inv(s) && DoQuit(s, s')
    ensures Inv(s')
  {
    hide Exact, Accounted, Batches, AllOf;
    assert SameWork(s.threads, s'.threads);
    assert s.q.queue + [] == s.q.queue;
    WakeExact(s, s', []);
    WakeBatches(s, s');
    forall c
      ensures Accounted(s', c)
    {
      assert Accounted(s, c);
      WakeAccounted(s, s', [], c);
    }
  }

  /** Every step of every thread keeps the invariant. */
  lemma NextInv(s: State, step: Step, limit: nat, s': State)
    requires Inv(s) && Next(s, step, limit, s')
    ensures Inv(s')
  {
    hide Inv, DoAdd, DoEnter, DoRun, DoFinish, DoResume, DoQuit;
    match step
    case Add(checks, w) => AddInv(s, checks, w, s');
    case Enter(t) => EnterInv(s, t, limit, s');
    case Run(t) => RunInv(s, t, s');
    case Finish(t) => FinishInv(s, t, limit, s');
    case Resume(t) => ResumeInv(s, t, limit, s');
    case Quit => QuitInv(s, s');
  }

  /** states[0] is a fresh queue and steps[k] leads from states[k] to states[k + 1]. */
  predicate IsRun(states: seq<State>, steps: seq<Step>, limit: nat) {
    && |states| == |steps| + 1
    && Init(states[0])
    && forall k | 0 <= k < |steps| :: Next(states[k], steps[k], limit, states[k + 1])
  }

  lemma {:induction false} RunsKeepInv(states: seq<State>, steps: seq<Step>, limit: nat, k: nat)
    requires IsRun(states, steps, limit) && k < |states|
    ensures Inv(states[k])
  {
    hide Inv, Next, Init;
    if k == 0 {
      InitInv(states[0]);
    } else {
      RunsKeepInv(states, steps, limit, k - 1);
      assert Next(states[k - 1], steps[k - 1], limit, states[k]);
      NextInv(states[k - 1], steps[k - 1], limit, states[k]);
    }
  }

  /** In every run, every Wait that has returned had all its checks accounted for and answered
      whether all of them hold; nTodo is exact; and a sleeping master that has not been notified
      still has work in some worker's batch to wait for. */
  lemma WaitIsRight(states: seq<State>, steps: seq<Step>, limit: nat, k: nat)
    requires IsRun(states, steps, limit) && k < |states|
    ensures forall i | 0 <= i < |states[k].log| ::
              states[k].log[i].settled == states[k].log[i].added
              && (states[k].log[i].result <==> AllOf(states[k].log[i].added))
    ensures states[k].q.nTodo == |states[k].q.queue| + Total(states[k].threads, Load)
    ensures states[k].threads != []
    ensures states[k].threads[0] == Asleep(false) ==>
              states[k].q.nTodo > 0 && exists t | 0 < t < |states[k].threads| :: states[k].threads[t].Working?
  {
    var s := states[k];
    RunsKeepInv(states, steps, limit, k);
    hide IsRun, Total, AllOf;
    forall i | 0 <= i < |s.log|
      ensures s.log[i].settled == s.log[i].added && (s.log[i].result <==> AllOf(s.log[i].added))
    {
      assert ReportOk(s.log[i]);
    }
    if s.threads[0] == Asleep(false) {
      SomeoneWorks(s);
    }
  }

  lemma {:induction false} SomeLoad(ts: seq<Phase>, n: nat) returns (t: nat)
    requires n <= |ts| && Count(ts, Load, n) > 0
    ensures t < n && ts[t].Working?
  {
    if Load(ts[n - 1]) > 0 {
      t := n - 1;
    } else {
      t := SomeLoad(ts, n - 1);
    }
  }

  lemma SomeoneWorks(s: State)
    requires Inv(s) && s.threads[0] == Asleep(false)
    ensures s.q.nTodo > 0 && exists t | 0 < t < |s.threads| :: s.threads[t].Working?
  {
    var t := SomeLoad(s.threads, |s.threads|);
    assert s.threads[t].Working? && t != 0;
  }

  // ----- Wait returns

  function Weight(p: Phase): nat {
    match p
    case Outside => 1
    case Working(batch, done, _) => (if done < |batch| then |batch| - done else 0) + 2
    case Asleep(woken) => if woken then 1 else 0
    case Gone => 0
  }

  /** A bound on the steps the threads can still take on their own. */
  function Potential(s: State): nat {
    3 * |s.q.queue| + Total(s.threads, Weight)
  }

  /** A step of the threads themselves: no new work, no shutdown, no spurious wake-up. */
  predicate Productive(s: State, step: Step) {
    match step
    case Add(_, _) => false
    case Quit => false
    case Resume(t) => t < |s.threads| && s.threads[t] == Asleep(true)
    case _ => true
  }

  lemma ProceedPotential(s: State, t: nat, limit: nat)
    requires t < |s.threads| && Sane(s.q)
    ensures var s' := Proceed(s, s.q, t, limit);
            s'.log == s.log ==> Potential(s') + Weight(s.threads[t]) <= Potential(s)
  {
    hide Total, Popped;
    var (q', o) := Dequeue(s.q, t == 0, limit);
    var p := PhaseAfter(o, t == 0);
    TotalUpdate(s.threads, Weight, t, p);
    if o.Take? {
      BatchFits(s.q, limit);
    }
  }

  lemma FinishPotential(s: State, t: nat, limit: nat, s': State)
    requires DoFinish(s, t, limit, s') && s'.log == s.log
    ensures Potential(s') < Potential(s)
  {
    hide Total, Dequeue;
    var m := Cleaned(s, t);
    TotalUpdate(s.threads, Weight, 0, Nudge(s.threads[0]));
    assert Potential(m) <= Potential(s) + 1;
    ProceedPotential(m, t, limit);
  }

  /** Every productive step brings the queue closer to rest, or is the return of a Wait. */
  lemma StepsRunOut(s: State, step: Step, limit: nat, s': State)
    requires Next(s, step, limit, s') && Productive(s, step)
    requires s'.log == s.log
    ensures Potential(s') < Potential(s)
  {
    hide Total, Dequeue;
    match step
    case Enter(t) =>
      var m := s.(q := s.q.(nTotal := s.q.nTotal + 1));
      ProceedPotential(m, t, limit);
      assert s' == Proceed(m, m.q, t, limit);
    case Run(t) =>
      TotalUpdate(s.threads, Weight, t, s'.threads[t]);
    case Finish(t) =>
      FinishPotential(s, t, limit, s');
    case Resume(t) =>
      var m := s.(q := s.q.(nIdle := s.q.nIdle - 1));
      ProceedPotential(m, t, limit);
      assert s' == Proceed(m, m.q, t, limit);
  }

  /** No schedule keeps the threads busy without a Wait returning for longer than the potential. */
  lemma {:induction false} BusyRunsAreShort(states: seq<State>, steps: seq<Step>, limit: nat, k: nat)
    requires |states| == |steps| + 1 && k <= |steps|
    requires forall i | 0 <= i < |steps| ::
               Next(states[i], steps[i], limit, states[i + 1]) && Productive(states[i], steps[i])
    requires forall i | 0 <= i < |steps| :: states[i + 1].log == states[i].log
    ensures k + Potential(states[k]) <= Potential(states[0])
  {
    hide Next, Productive, Potential;
    if k > 0 {
      BusyRunsAreShort(states, steps, limit, k - 1);
      assert Next(states[k - 1], steps[k - 1], limit, states[k]);
      StepsRunOut(states[k - 1], steps[k - 1], limit, states[k]);
    }
  }

  lemma WorkerCanMove(s: State, t: nat, limit: nat)
    requires Inv(s) && t < |s.threads| && (s.threads[t].Working? || s.threads[t] == Asleep(true))
    ensures exists step, s' :: Productive(s, step) && Next(s, step, limit, s')
  {
    var p := s.threads[t];
    assert s.q.nIdle == Total(s.threads, Idle) && s.q.nTotal == Total(s.threads, Inside) && BatchOk(p, s.q.fAllOk);
    hide Inv, Dequeue, Total;
    if p.Working? {
      if p.done < |p.batch| {
        var s' := s.(threads := s.threads[t := p.(done := p.done + 1, fOk := p.fOk && p.batch[p.done].holds)]);
        assert Productive(s, Run(t)) && Next(s, Run(t), limit, s');
      } else {
        var s' := Proceed(Cleaned(s, t), Cleaned(s, t).q, t, limit);
        assert Productive(s, Finish(t)) && Next(s, Finish(t), limit, s');
      }
    } else {
      TotalHas(s.threads, Idle, t);
      var s' := Proceed(s, s.q.(nIdle := s.q.nIdle - 1), t, limit);
      assert Productive(s, Resume(t)) && Next(s, Resume(t), limit, s');
    }
  }

  /** While the master is inside Wait, some thread can take a productive step. With
      BusyRunsAreShort: every Wait returns, whatever the schedule. */
  lemma WaitIsNeverStuck(s: State, limit: nat)
    requires Inv(s) && s.threads[0] != Outside
    ensures exists step, s' :: Productive(s, step) && Next(s, step, limit, s')
  {
    hide Exact, AllAccounted, Batches, Reports, Verdict, Next, Productive;
    if s.threads[0] == Asleep(false) {
      SomeoneWorks(s);
      var t :| 0 < t < |s.threads| && s.threads[t].Working?;
      WorkerCanMove(s, t, limit);
    } else {
      WorkerCanMove(s, 0, limit);
    }
  }

  // ----- Quit

  /** Shutting down with nothing left to do: every sleeping worker has been told. */
  predicate Draining(s: State) {
    && s.q.fQuit && s.q.nTodo == 0
    && forall t | 0 < t < |s.threads| :: s.threads[t] != Asleep(false)
  }

  /** Quit on a queue with nothing to do, as its destructor finds it once every Wait has returned,
      and no Add afterwards: no worker is ever left behind. */
  lemma IdleQuitDrains(s: State, step: Step, limit: nat, s': State)
    requires Inv(s) && Next(s, step, limit, s')
    requires if step.Quit? then s.q.nTodo == 0 else Draining(s) && !step.Add?
    ensures Draining(s')
  {
    hide AllAccounted, Reports, Verdict, AllOf, AllHold;
    hide Total;
    match step
    case Finish(t) =>
      assert BatchOk(s.threads[t], s.q.fAllOk);
      TotalHas(s.threads, Load, t);
      assert false;
    case _ =>
  }

  /** While draining, each worker still inside can leave, so nTotal reaches zero. */
  lemma DrainingWorkersLeave(s: State, t: nat, limit: nat)
    requires Inv(s) && Draining(s) && 0 < t < |s.threads| && Inside(s.threads[t]) == 1
    ensures s.threads[t] == Asleep(true)
    ensures exists s' :: Next(s, Resume(t), limit, s') && s'.threads[t] == Gone && s'.q.nTotal == s.q.nTotal - 1
  {
    assert BatchOk(s.threads[t], s.q.fAllOk);
    CountHas(s.threads, Load, t, |s.threads|);
    CountHas(s.threads, Idle, t, |s.threads|);
    var s' := Proceed(s, s.q.(nIdle := s.q.nIdle - 1), t, limit);
    assert Next(s, Resume(t), limit, s');
  }

  /** The states of a run with two workers in which the second still works when Quit is called. */
  function Stranding(k: nat): State {
    var c := Check(0, true);
    var m := multiset{c};
    var z := multiset{};
    match k
    case 0 => State(Start(), [Outside, Outside, Outside], z, z, [])
    case 1 => State(Shared([], 1, 1, true, 0, false), [Outside, Asleep(false), Outside], z, z, [])
    case 2 => State(Shared([], 2, 2, true, 0, false), [Outside, Asleep(false), Asleep(false)], z, z, [])
    case 3 => State(Shared([c], 2, 2, true, 1, false), [Outside, Asleep(false), Asleep(true)], m, z, [])
    case 4 => State(Shared([], 1, 2, true, 1, false), [Outside, Asleep(false), Working([c], 0, true)], m, z, [])
    case 5 => State(Shared([], 1, 2, true, 1, true), [Outside, Asleep(true), Working([c], 0, true)], m, z, [])
    case 6 => State(Shared([], 1, 2, true, 1, true), [Outside, Asleep(false), Working([c], 0, true)], m, z, [])
    case 7 => State(Shared([], 1, 2, true, 1, true), [Outside, Asleep(false), Working([c], 1, true)], m, z, [])
    case _ => State(Shared([], 1, 1, true, 0, true), [Outside, Asleep(false), Gone], m, m, [])
  }

  lemma StrandingStarts(limit: nat)
    ensures DoEnter(Stranding(0), 1, limit, Stranding(1))
    ensures DoEnter(Stranding(1), 2, limit, Stranding(2))
  {
  }

  lemma StrandingAdds(limit: nat)
    ensures DoAdd(Stranding(2), [Check(0, true)], 2, Stranding(3))
    ensures DoQuit(Stranding(4), Stranding(5))
  {
    assert NotifyWorkers(Stranding(4).threads) == Stranding(5).threads;
  }

  lemma StrandingTakes(limit: nat)
    ensures DoResume(Stranding(3), 2, limit, Stranding(4))
  {
    var s := Stranding(3);
    var q := s.q.(nIdle := 1);
    assert BatchSize(q, limit) == 1;
    assert Popped(q.queue, 1) == [Check(0, true)];
    assert q.queue[..0] == [];
    var (q', o) := Dequeue(q, false, limit);
    assert q' == Stranding(4).q;
    assert s.threads[2 := PhaseAfter(o, false)] == Stranding(4).threads;
  }

  lemma StrandingEnds(limit: nat)
    ensures DoResume(Stranding(5), 1, limit, Stranding(6))
    ensures DoRun(Stranding(6), 2, Stranding(7))
  {
    assert Stranding(5).threads[1 := Asleep(false)] == Stranding(6).threads;
  }

  lemma StrandingEnd()
    ensures Stranding(8).q.fQuit && Stranding(8).q.nTodo == 0 && Stranding(8).q.nTotal == 1
    ensures Stranding(8).threads == [Outside, Asleep(false), Gone]
  {
  }

  lemma StrandingLeaves(limit: nat)
    ensures DoFinish(Stranding(7), 2, limit, Stranding(8))
  {
    var s := Stranding(7);
    assert Cleaned(s, 2).threads == s.threads;
    assert s.threads[2 := Gone] == Stranding(8).threads;
    assert Cleaned(s, 2).settled == Stranding(8).settled;
  }

  /** Quit while a check is still in flight can leave a worker asleep for good: the worker that
      settles the last check tells only the master, and Quit then waits for ever. */
  lemma BusyQuitCanStrand(limit: nat) returns (states: seq<State>, steps: seq<Step>)
    ensures IsRun(states, steps, limit)
    ensures var s := states[|states| - 1];
            && s.q.fQuit && s.q.nTodo == 0 && s.q.nTotal == 1
            && s.threads == [Outside, Asleep(false), Gone]
  {
    StrandingStarts(limit);
    StrandingAdds(limit);
    StrandingTakes(limit);
    StrandingEnds(limit);
    StrandingLeaves(limit);
    states := seq(9, k requires 0 <= k < 9 => Stranding(k));
    steps := [Enter(1), Enter(2), Add([Check(0, true)], 2), Resume(2), Quit, Resume(1), Run(2), Finish(2)];
    hide DoEnter, DoAdd, DoResume, DoQuit, DoRun, DoFinish;
    assert Init(states[0]);
    hide Stranding;
    assert Next(states[0], steps[0], limit, states[1]) && Next(states[1], steps[1], limit, states[2]);
    assert Next(states[2], steps[2], limit, states[3]) && Next(states[3], steps[3], limit, states[4]);
    assert Next(states[4], steps[4], limit, states[5]) && Next(states[5], steps[5], limit, states[6]);
    assert Next(states[6], steps[6], limit, states[7]) && Next(states[7], steps[7], limit, states[8]);
    assert states[8] == Stranding(8);
    StrandingEnd();
  }

  // ----- exactly when Quit can leave a worker behind

  /** Steps without new work; a fair schedule has no spurious wake-ups and no second Quit either. */
  predicate Allowed(s: State, step: Step, fair: bool) {
    !step.Add? && (fair ==> Productive(s, step))
  }

  /** Some schedule leads from s to s'. */
  ghost predicate Reaches(s: State, s': State, limit: nat, fair: bool) {
    exists states, steps :: Schedule(states, steps, limit, fair) && states[0] == s && states[|steps|] == s'
  }

  ghost predicate Schedule(states: seq<State>, steps: seq<Step>, limit: nat, fair: bool) {
    && |states| == |steps| + 1
    && forall k | 0 <= k < |steps| :: Next(states[k], steps[k], limit, states[k + 1]) && Allowed(states[k], steps[k], fair)
  }

  lemma ReachesSelf(s: State, limit: nat, fair: bool)
    ensures Reaches(s, s, limit, fair)
  {
    assert Schedule([s], [], limit, fair);
  }

  lemma ReachesStep(s: State, m: State, step: Step, s': State, limit: nat, fair: bool)
    requires Reaches(s, m, limit, fair) && Next(m, step, limit, s') && Allowed(m, step, fair)
    ensures Reaches(s, s', limit, fair)
  {
    hide Next, Allowed;
    var states, steps :| Schedule(states, steps, limit, fair) && states[0] == s && states[|steps|] == m;
    var states', steps' := states + [s'], steps + [step];
    forall k | 0 <= k < |steps'|
      ensures Next(states'[k], steps'[k], limit, states'[k + 1]) && Allowed(states'[k], steps'[k], fair)
    {
      if k < |steps| {
        assert Next(states[k], steps[k], limit, states[k + 1]);
      }
    }
    assert Schedule(states', steps', limit, fair);
    assert states'[|steps'|] == s';
  }

  /** A worker asleep without notice, with nothing left to do and everyone told to leave. */
  predicate Stranded(s: State, t: nat) {
    0 < t < |s.threads| && s.threads[t] == Asleep(false) && s.q.fQuit && s.q.nTodo == 0
  }

  /** After Quit some schedule strands worker t. */
  ghost predicate CanStrand(s: State, t: nat, limit: nat, fair: bool) {
    exists s1, s2 :: DoQuit(s, s1) && Reaches(s1, s2, limit, fair) && Stranded(s2, t)
  }

  // A worker that holds all that is left to do, or is gone, is safe.

  predicate Safe(s: State, t: nat) {
    0 < t < |s.threads| &&
    (s.threads[t] == Gone ||
     (s.q.fQuit && s.q.nTodo == Load(s.threads[t]) && s.threads[t] != Asleep(false)))
  }

  lemma TwoLoads(ts: seq<Phase>, t: nat, u: nat)
    requires t < |ts| && u < |ts| && t != u
    ensures Load(ts[t]) + Load(ts[u]) <= Total(ts, Load)
  {
    hide Total;
    TotalUpdate(ts, Load, u, Outside);
    TotalHas(ts[u := Outside], Load, t);
  }

  lemma ProceedSafe(s: State, u: nat, limit: nat, t: nat)
    requires u < |s.threads| && 0 < t < |s.threads| && Sane(s.q) && s.q.queue == [] && s.q.fQuit
    requires u == t ==> s.q.nTodo == 0
    requires u != t ==> s.q.nTodo == Load(s.threads[t]) && s.threads[t] != Asleep(false)
    ensures Safe(Proceed(s, s.q, u, limit), t)
  {
  }

  lemma FinishSafe(s: State, u: nat, limit: nat, s': State, t: nat)
    requires Inv(s) && Safe(s, t) && s.threads[t] != Gone && DoFinish(s, u, limit, s')
    ensures Safe(s', t)
  {
    hide AllAccounted, Reports, Verdict, AllOf, AllHold, Total, Dequeue, NotStranded;
    assert BatchOk(s.threads[u], s.q.fAllOk);
    TotalHas(s.threads, Load, t);
    if u != t {
      TwoLoads(s.threads, t, u);
      assert false;
    } else {
      ProceedSafe(Cleaned(s, t), t, limit, t);
    }
  }

  lemma EnterSafe(s: State, u: nat, limit: nat, s': State, t: nat)
    requires Exact(s) && Safe(s, t) && s.threads[t] != Gone && DoEnter(s, u, limit, s')
    ensures Safe(s', t)
  {
    hide Total, Dequeue;
    TotalHas(s.threads, Load, t);
    var m := s.(q := s.q.(nTotal := s.q.nTotal + 1));
    ProceedSafe(m, u, limit, t);
    assert s' == Proceed(m, m.q, u, limit);
  }

  lemma ResumeSafe(s: State, u: nat, limit: nat, s': State, t: nat)
    requires Exact(s) && Safe(s, t) && s.threads[t] != Gone && DoResume(s, u, limit, s')
    ensures Safe(s', t)
  {
    hide Total, Dequeue;
    TotalHas(s.threads, Load, t);
    var m := s.(q := s.q.(nIdle := s.q.nIdle - 1));
    ProceedSafe(m, u, limit, t);
    assert s' == Proceed(m, m.q, u, limit);
  }

  lemma GoneStays(s: State, step: Step, limit: nat, s': State, t: nat)
    requires Next(s, step, limit, s') && !step.Add? && 0 < t < |s.threads| && s.threads[t] == Gone
    ensures t < |s'.threads| && s'.threads[t] == Gone
  {
    hide Dequeue;
  }

  lemma SafeStep(s: State, step: Step, limit: nat, s': State, t: nat)
    requires Inv(s) && Safe(s, t) && Next(s, step, limit, s') && !step.Add?
    ensures Safe(s', t)
  {
    hide Inv, DoEnter, DoFinish, DoResume;
    if s.threads[t] == Gone {
      GoneStays(s, step, limit, s', t);
    } else {
      InvExact(s);
      match step
      case Enter(u) => EnterSafe(s, u, limit, s', t);
      case Finish(u) => FinishSafe(s, u, limit, s', t);
      case Resume(u) => ResumeSafe(s, u, limit, s', t);
      case _ =>
    }
  }

  lemma InvExact(s: State)
    requires Inv(s)
    ensures Exact(s) && Sane(s.q)
  {
  }

  lemma {:induction false} SafeStays(states: seq<State>, steps: seq<Step>, limit: nat, fair: bool, t: nat, k: nat)
    requires Schedule(states, steps, limit, fair) && Inv(states[0]) && Safe(states[0], t) && k <= |steps|
    ensures Inv(states[k]) && Safe(states[k], t)
  {
    hide Inv, Next, Safe;
    if k > 0 {
      SafeStays(states, steps, limit, fair, t, k - 1);
      assert Next(states[k - 1], steps[k - 1], limit, states[k]);
      NextInv(states[k - 1], steps[k - 1], limit, states[k]);
      SafeStep(states[k - 1], steps[k - 1], limit, states[k], t);
    }
  }

  // Anyone else's work lets the others put worker t to sleep and then finish.

  /** Thread u executes what is left of its batch. */
  lemma RunAll(s: State, u: nat, limit: nat, fair: bool) returns (s': State)
    requires Inv(s) && u < |s.threads| && s.threads[u].Working?
    ensures Reaches(s, s', limit, fair) && Inv(s')
    ensures |s'.threads| == |s.threads| && s' == s.(threads := s.threads[u := s'.threads[u]])
    ensures s'.threads[u].Working? && s'.threads[u].batch == s.threads[u].batch
    ensures s'.threads[u].done == |s.threads[u].batch|
  {
    hide Inv;
    BatchesAre(s, u);
    ReachesSelf(s, limit, fair);
    s' := s;
    while s'.threads[u].done < |s.threads[u].batch|
      invariant Reaches(s, s', limit, fair) && Inv(s')
      invariant |s'.threads| == |s.threads| && s' == s.(threads := s.threads[u := s'.threads[u]])
      invariant s'.threads[u].Working? && s'.threads[u].batch == s.threads[u].batch
      invariant s'.threads[u].done <= |s.threads[u].batch|
      decreases |s.threads[u].batch| - s'.threads[u].done
    {
      var p := s'.threads[u];
      var s2 := s'.(threads := s'.threads[u := p.(done := p.done + 1, fOk := p.fOk && p.batch[p.done].holds)]);
      assert Next(s', Run(u), limit, s2);
      NextInv(s', Run(u), limit, s2);
      ReachesStep(s, s', Run(u), s2, limit, fair);
      s' := s2;
    }
  }

  lemma BatchesAre(s: State, u: nat)
    requires Inv(s) && u < |s.threads|
    ensures BatchOk(s.threads[u], s.q.fAllOk)
  {
  }

  lemma {:induction false} ReachesAlong(s: State, b: seq<State>, y: seq<Step>, limit: nat, fair: bool, k: nat)
    requires Schedule(b, y, limit, fair) && Reaches(s, b[0], limit, fair) && k <= |y|
    ensures Reaches(s, b[k], limit, fair)
  {
    hide Next, Allowed, Reaches;
    if k > 0 {
      ReachesAlong(s, b, y, limit, fair, k - 1);
      assert Next(b[k - 1], y[k - 1], limit, b[k - 1 + 1]);
      ReachesStep(s, b[k - 1], y[k - 1], b[k], limit, fair);
    }
  }

  lemma ReachesOn(s: State, m: State, s': State, limit: nat, fair: bool)
    requires Reaches(s, m, limit, fair) && Reaches(m, s', limit, fair)
    ensures Reaches(s, s', limit, fair)
  {
    hide Next, Allowed;
    var b, y :| Schedule(b, y, limit, fair) && b[0] == m && b[|y|] == s';
    ReachesAlong(s, b, y, limit, fair, |y|);
  }

  /** Thread u finishes its batch and goes on. */
  lemma FinishAll(s: State, u: nat, limit: nat, fair: bool) returns (s': State, m: State)
    requires Inv(s) && u < |s.threads| && s.threads[u].Working?
    ensures Reaches(s, s', limit, fair) && Inv(s')
    ensures |m.threads| == |s.threads| && m.threads == s.threads[u := m.threads[u]] && m.q == s.q && m.threads[u].Working?
    ensures m.threads[u].batch == s.threads[u].batch && Sane(s.q)
    ensures s' == Proceed(Cleaned(m, u), Cleaned(m, u).q, u, limit)
    ensures |s.threads[u].batch| > 0
  {
    hide Inv, Dequeue;
    BatchesAre(s, u);
    InvExact(s);
    m := RunAll(s, u, limit, fair);
    s' := Proceed(Cleaned(m, u), Cleaned(m, u).q, u, limit);
    assert Next(m, Finish(u), limit, s');
    NextInv(m, Finish(u), limit, s');
    ReachesStep(s, m, Finish(u), s', limit, fair);
  }

  /** Something is left to do outside worker t's own batch, and everyone has been told to leave. */
  predicate Busy(s: State, t: nat) {
    0 < t < |s.threads| && s.q.fQuit && s.q.nTodo > Load(s.threads[t])
  }

  /** The master takes a batch from the queue. */
  lemma MasterTakes(s: State, t: nat, limit: nat, fair: bool) returns (s': State)
    requires Inv(s) && Busy(s, t) && s.q.queue != []
    ensures Reaches(s, s', limit, fair) && Inv(s') && Busy(s', t)
    ensures |s'.q.queue| < |s.q.queue| && |s'.threads| == |s.threads| && s'.threads[t] == s.threads[t]
  {
    MasterAwake(s);
    InvExact(s);
    BatchFits(s.q.(nTotal := s.q.nTotal + 1), limit);
    if s.threads[0] == Outside {
      s' := Proceed(s, s.q.(nTotal := s.q.nTotal + 1), 0, limit);
      EnterInv(s, 0, limit, s');
      ReachesSelf(s, limit, fair);
      assert Next(s, Enter(0), limit, s');
      ReachesStep(s, s, Enter(0), s', limit, fair);
    } else {
      var m;
      s', m := FinishAll(s, 0, limit, fair);
      hide Inv, Reaches;
      BatchFits(Cleaned(m, 0).q, limit);
    }
    MasterHolds(s', t);
  }

  lemma MasterAwake(s: State)
    requires Inv(s) && s.q.queue != []
    ensures |s.threads| > 0 && (s.threads[0] == Outside || s.threads[0].Working?)
  {
  }

  lemma MasterHolds(s: State, t: nat)
    requires Inv(s) && 0 < t < |s.threads| && s.threads[0].Working?
    ensures s.q.nTodo > Load(s.threads[t])
  {
    hide Total;
    assert BatchOk(s.threads[0], s.q.fAllOk);
    TwoLoads(s.threads, t, 0);
  }

  /** The queue is emptied without worker t. */
  lemma {:induction false} Drain(s: State, t: nat, limit: nat, fair: bool) returns (s': State)
    requires Inv(s) && Busy(s, t)
    ensures Reaches(s, s', limit, fair) && Inv(s') && Busy(s', t)
    ensures s'.q.queue == [] && |s'.threads| == |s.threads| && s'.threads[t] == s.threads[t]
    decreases |s.q.queue|
  {
    hide Inv, Reaches, Busy;
    if s.q.queue == [] {
      ReachesSelf(s, limit, fair);
      s' := s;
    } else {
      var m := MasterTakes(s, t, limit, fair);
      s' := Drain(m, t, limit, fair);
      ReachesOn(s, m, s', limit, fair);
    }
  }

  /** Worker t finds the queue empty and something still to do: it goes to sleep. */
  lemma Doze(s: State, t: nat, limit: nat, fair: bool) returns (s': State)
    requires Inv(s) && Busy(s, t) && s.q.queue == [] && s.threads[t] != Gone && s.threads[t] != Asleep(false)
    ensures Reaches(s, s', limit, fair) && Inv(s')
    ensures |s'.threads| == |s.threads| && s'.threads[t] == Asleep(false) && s'.q.queue == [] && s'.q.fQuit
  {
    InvExact(s);
    ReachesSelf(s, limit, fair);
    if s.threads[t].Working? {
      var m;
      s', m := FinishAll(s, t, limit, fair);
    } else if s.threads[t] == Outside {
      s' := Proceed(s, s.q.(nTotal := s.q.nTotal + 1), t, limit);
      assert Next(s, Enter(t), limit, s');
      hide Inv, Reaches;
      NextInv(s, Enter(t), limit, s');
      ReachesStep(s, s, Enter(t), s', limit, fair);
    } else {
      IdleCounted(s, t);
      s' := Proceed(s, s.q.(nIdle := s.q.nIdle - 1), t, limit);
      assert Next(s, Resume(t), limit, s');
      hide Inv, Reaches;
      NextInv(s, Resume(t), limit, s');
      ReachesStep(s, s, Resume(t), s', limit, fair);
    }
  }

  lemma IdleCounted(s: State, t: nat)
    requires Inv(s) && t < |s.threads| && s.threads[t].Asleep?
    ensures s.q.nIdle >= 1
  {
    TotalHas(s.threads, Idle, t);
  }

  lemma SomeoneHolds(s: State) returns (u: nat)
    requires Inv(s) && s.q.queue == [] && s.q.nTodo > 0
    ensures u < |s.threads| && s.threads[u].Working?
  {
    u := SomeLoad(s.threads, |s.threads|);
  }

  /** The other threads finish what they hold, and worker t sleeps on. */
  lemma {:induction false} SettleRest(s: State, t: nat, limit: nat, fair: bool) returns (s': State)
    requires Inv(s) && 0 < t < |s.threads| && s.threads[t] == Asleep(false) && s.q.queue == [] && s.q.fQuit
    ensures Reaches(s, s', limit, fair) && Stranded(s', t)
    decreases if s.q.nTodo > 0 then s.q.nTodo else 0
  {
    hide Inv, Reaches;
    if s.q.nTodo <= 0 {
      TodoCounts(s);
      ReachesSelf(s, limit, fair);
      s' := s;
    } else {
      var u := SomeoneHolds(s);
      var m, r := FinishAll(s, u, limit, fair);
      s' := SettleRest(m, t, limit, fair);
      ReachesOn(s, m, s', limit, fair);
    }
  }

  lemma TodoCounts(s: State)
    requires Inv(s)
    ensures s.q.nTodo >= 0
  {
  }

  /** Quit can leave worker t asleep for good exactly if t is still there and something is left to
      do outside its own batch. */
  lemma QuitStrandsExactly(s: State, t: nat, limit: nat, fair: bool)
    requires Inv(s) && 0 < t < |s.threads|
    ensures CanStrand(s, t, limit, fair) <==> s.threads[t] != Gone && s.q.nTodo > Load(s.threads[t])
  {
    var s1 := s.(q := s.q.(fQuit := true), threads := NotifyWorkers(s.threads));
    QuitInv(s, s1);
    LoadWithinTodo(s, t);
    if s.threads[t] != Gone && s.q.nTodo > Load(s.threads[t]) {
      hide Inv, Reaches;
      var s2 := Drain(s1, t, limit, fair);
      var s3 := Doze(s2, t, limit, fair);
      var s4 := SettleRest(s3, t, limit, fair);
      ReachesOn(s1, s2, s3, limit, fair);
      ReachesOn(s1, s3, s4, limit, fair);
    } else {
      assert Safe(s1, t);
      hide Inv, Safe;
      NeverStranded(s, s1, t, limit, fair);
    }
  }

  lemma LoadWithinTodo(s: State, t: nat)
    requires Inv(s) && t < |s.threads|
    ensures Load(s.threads[t]) <= s.q.nTodo
  {
    TotalHas(s.threads, Load, t);
  }

  lemma NeverStranded(s: State, s1: State, t: nat, limit: nat, fair: bool)
    requires DoQuit(s, s1) && Inv(s1) && Safe(s1, t)
    ensures !CanStrand(s, t, limit, fair)
  {
    hide Inv, Next, NotifyWorkers;
    if CanStrand(s, t, limit, fair) {
      var s2 :| Reaches(s1, s2, limit, fair) && Stranded(s2, t);
      var states, steps :| Schedule(states, steps, limit, fair) && states[0] == s1 && states[|steps|] == s2;
      SafeStays(states, steps, limit, fair, t, |steps|);
      StrandedIsUnsafe(s2, t);
    }
  }

  lemma StrandedIsUnsafe(s: State, t: nat)
    requires Stranded(s, t)
    ensures !Safe(s, t)
  {
  }

  /** And stranded is for good: only new work, another Quit or a spurious wake-up would help. */
  lemma StrandedStays(s: State, step: Step, limit: nat, s': State, t: nat)
    requires Inv(s) && Stranded(s, t) && Next(s, step, limit, s') && Productive(s, step)
    ensures Stranded(s', t)
  {
    hide AllAccounted, Reports, Verdict, AllOf, AllHold, NotStranded, Total;
    match step
    case Finish(u) =>
      assert BatchOk(s.threads[u], s.q.fAllOk);
      TotalHas(s.threads, Load, u);
      assert false;
    case _ =>
  }
}
