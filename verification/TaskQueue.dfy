/** internal/task/queue.go: the work queue, its worker, and the rule that skips an
    element older than the last successful sync. */
module TaskQueue {

  /** One item of the queue; times are nanoseconds. */
  datatype Element = Element(key: string, timestamp: int)

  const DAY: int := 24 * 60 * 60 * 1_000_000_000

  /** The client-go work queue: an item waits once, and an item added while it is
      being processed waits again when it is done. */
  datatype WorkQueue = WorkQueue(queue: seq<Element>, dirty: set<Element>, processing: set<Element>) {
    ghost predicate Valid() {
      && (forall i, j :: 0 <= i < j < |queue| ==> queue[i] != queue[j])
      && (forall e :: e in queue <==> e in dirty && e !in processing)
    }

    function Add(e: Element): WorkQueue {
      if e in dirty then this
      else WorkQueue(if e in processing then queue else queue + [e], dirty + {e}, processing)
    }

    function Get(): WorkQueue
      requires queue != []
    {
      WorkQueue(queue[1..], dirty - {queue[0]}, processing + {queue[0]})
    }

    function Done(e: Element): WorkQueue {
      WorkQueue(if e in dirty && e in processing then queue + [e] else queue, dirty, processing - {e})
    }
  }

  lemma AddKeepsValid(wq: WorkQueue, e: Element)
    requires wq.Valid()
    ensures wq.Add(e).Valid() && wq.Add(e).dirty == wq.dirty + {e} && wq.Add(e).processing == wq.processing
  {
    assert e in wq.dirty ==> wq.dirty + {e} == wq.dirty;
  }

  lemma GetKeepsValid(wq: WorkQueue)
    requires wq.Valid() && wq.queue != []
    ensures wq.Get().Valid() && wq.queue[0] in wq.dirty && wq.queue[0] !in wq.processing
  {
    var q := wq.queue;
    assert q[0] in q;
    forall e ensures e in q[1..] <==> e in q && e != q[0] {
      if e in q && e != q[0] {
        var i :| 0 <= i < |q| && q[i] == e;
        assert q[1..][i - 1] == e;
      }
      if e in q[1..] {
        var i :| 0 <= i < |q[1..]| && q[1..][i] == e;
        assert q[i + 1] == e;
      }
    }
  }

  lemma DoneKeepsValid(wq: WorkQueue, e: Element)
    requires wq.Valid()
    ensures wq.Done(e).Valid() && wq.Done(e).dirty == wq.dirty
  {
  }

  /** A pass of the worker takes the first element out for good. */
  lemma PassLeaves(wq: WorkQueue)
    requires wq.Valid() && wq.queue != [] && wq.processing == {}
    ensures var e := wq.queue[0];
            wq.Get().Done(e) == WorkQueue(wq.queue[1..], wq.dirty - {e}, {}) && wq.Get().Done(e).Valid()
  {
    GetKeepsValid(wq);
    DoneKeepsValid(wq.Get(), wq.queue[0]);
  }

  datatype Worker = Idle | Busy(item: Element, ts: int)

  /** `delayed` holds the elements AddRateLimited has not released yet. */
  datatype TaskState = TaskState(wq: WorkQueue, delayed: set<Element>, lastSync: int, worker: Worker)

  const EMPTY: TaskState := TaskState(WorkQueue([], {}, {}), {}, 0, Idle)

  function Enqueued(q: TaskState, now: int, key: string, skippable: bool): TaskState {
    q.(wq := q.wq.Add(Element(key, if skippable then now else now + DAY)))
  }

  /** The worker takes the next element: skips it, or begins a sync at `now`. */
  function Taken(q: TaskState, now: int): TaskState
    requires q.worker.Idle? && q.wq.queue != []
  {
    var item := q.wq.queue[0];
    if q.lastSync > item.timestamp then q.(wq := q.wq.Get().Done(item))
    else q.(wq := q.wq.Get(), worker := Busy(item, now))
  }

  /** The sync ends: success remembers when it began, failure requeues the key. */
  function Finished(q: TaskState, ok: bool, now: int): TaskState
    requires q.worker.Busy?
  {
    var Busy(item, ts) := q.worker;
    if ok then TaskState(q.wq.Done(item), q.delayed, ts, Idle)
    else TaskState(q.wq.Done(item), q.delayed + {Element(item.key, now)}, q.lastSync, Idle)
  }

  function Released(q: TaskState, e: Element): TaskState
    requires e in q.delayed
  {
    q.(wq := q.wq.Add(e), delayed := q.delayed - {e})
  }

  /** The queue object. `worker` is the loop of the one worker goroutine: each pass is a
      Take and, unless the element was skipped, a Finish when the sync returns. */
  class Queue {
    var wq: WorkQueue
    var delayed: set<Element>
    var lastSync: int
    var worker: Worker

    function State(): TaskState
      reads this
    {
      TaskState(wq, delayed, lastSync, worker)
    }

    constructor ()
      ensures State() == EMPTY
    {
      wq, delayed, lastSync, worker := WorkQueue([], {}, {}), {}, 0, Idle;
    }

    method Enqueue(now: int, key: string, skippable: bool)
      modifies this
      ensures State() == Enqueued(old(State()), now, key, skippable)
      ensures wq == old(wq).Add(Element(key, if skippable then now else now + DAY))
      ensures delayed == old(delayed) && lastSync == old(lastSync) && worker == old(worker)
    {
      var ts := now;
      if !skippable {
        ts := now + DAY;
      }
      wq := wq.Add(Element(key, ts));
    }

    method Take(now: int) returns (skipped: bool)
      requires worker.Idle? && wq.queue != []
      modifies this
      ensures State() == Taken(old(State()), now)
      ensures skipped <==> old(lastSync) > old(wq.queue[0]).timestamp
      ensures skipped <==> worker.Idle?
    {
      var item := wq.queue[0];
      wq := wq.Get();
      var ts := now;
      if lastSync > item.timestamp {
        wq := wq.Done(item);
        return true;
      }
      worker := Busy(item, ts);
      skipped := false;
    }

    method Finish(err: bool, now: int)
      requires worker.Busy?
      modifies this
      ensures State() == Finished(old(State()), !err, now)
      ensures worker.Idle? && wq == old(wq).Done(old(worker).item)
      ensures lastSync == if err then old(lastSync) else old(worker).ts
      ensures delayed == old(delayed) + if err then {Element(old(worker).item.key, now)} else {}
    {
      var Busy(item, ts) := worker;
      if err {
        delayed := delayed + {Element(item.key, now)};
      } else {
        lastSync := ts;
      }
      wq := wq.Done(item);
      worker := Idle;
    }

    /** One pass of the worker's loop, with a sync that succeeds at once. */
    method Pass(now: int) returns (synced: bool)
      requires worker.Idle? && wq.Valid() && wq.processing == {} && wq.queue != []
      modifies this
      ensures worker.Idle? && delayed == old(delayed) && wq.Valid()
      ensures var e := old(wq.queue[0]);
              && wq == WorkQueue(old(wq.queue)[1..], old(wq.dirty) - {e}, {})
              && (synced <==> old(lastSync) <= e.timestamp)
              && lastSync == if synced then now else old(lastSync)
    {
      PassLeaves(wq);
      var skipped := Take(now);
      if !skipped {
        Finish(false, now);
      }
      synced := !skipped;
    }

    /** The worker's loop, until the queue is empty, with successful syncs; `clock(i)` is the
        time of the i-th pass. Elements stamped before the loop cost one sync, or none when all
        are old; it is the first that is not old which is synced. */
    method Drain(clock: nat -> int) returns (syncs: nat)
      requires worker.Idle? && wq.Valid() && wq.processing == {} && lastSync <= clock(0)
      requires forall i, j :: 0 <= i <= j ==> clock(i) <= clock(j)
      requires forall i :: 0 <= i < |wq.queue| ==> wq.queue[i].timestamp < clock(0)
      modifies this
      ensures wq == WorkQueue([], {}, {}) && worker.Idle? && delayed == old(delayed)
      ensures var k := FirstDue(old(wq.queue), old(lastSync));
              && syncs == (if k < |old(wq.queue)| then 1 else 0)
              && lastSync == (if k < |old(wq.queue)| then clock(k) else old(lastSync))
    {
      syncs := 0;
      ghost var q, last := wq.queue, lastSync;
      var pass: nat := 0;
      while wq.queue != []
        invariant worker.Idle? && wq.Valid() && wq.processing == {} && delayed == old(delayed)
        invariant pass <= |q| && wq.queue == q[pass..]
        invariant var k := FirstDue(q, last);
                  if k < pass then syncs == 1 && lastSync == clock(k) else syncs == 0 && lastSync == last
        decreases |wq.queue|
      {
        assert wq.queue[0] == q[pass] && q[pass..][1..] == q[pass + 1..];
        var synced := Pass(clock(pass));
        if synced {
          syncs := syncs + 1;
        }
        pass := pass + 1;
      }
      assert forall e :: e in wq.dirty ==> e in wq.queue;
    }

    /** What others do in the meantime; the release of an element that is not delayed is
        nothing. */
    method Others(steps: seq<Step>, now: int, ghost h: History) returns (now': int)
      requires h.q == State() && h.now == now
      modifies this
      ensures State() == AfterOthers(h, steps).q && now' == AfterOthers(h, steps).now
    {
      now' := now;
      ghost var h' := h;
      for i := 0 to |steps|
        invariant h'.q == State() && h'.now == now'
        invariant AfterOthers(h', steps[i..]) == AfterOthers(h, steps)
      {
        assert steps[i..][0] == steps[i] && steps[i..][1..] == steps[i + 1..];
        h' := if OthersCan(h', steps[i]) then Next(h', steps[i]) else h';
        match steps[i] {
          case Tick(d) => now' := now' + d;
          case Enqueue(key, skippable) => Enqueue(now', key, skippable);
          case Release(e) =>
            if e in delayed {
              delayed := delayed - {e};
              wq := wq.Add(e);
            }
          case _ =>
        }
      }
    }

    /** The worker's loop, with whatever others do before each Get and during each sync, and
        with syncs that fail. A Get on an empty queue waits for the next pass. */
    method Work(passes: seq<Meanwhile>, now: int, ghost h: History) returns (now': int)
      requires h.q == State() && h.now == now && worker.Idle?
      modifies this
      ensures State() == AfterPasses(h, passes).q && now' == AfterPasses(h, passes).now
    {
      now' := now;
      ghost var h' := h;
      for i := 0 to |passes|
        invariant h'.q == State() && h'.now == now' && worker.Idle?
        invariant AfterPasses(h', passes[i..]) == AfterPasses(h, passes)
      {
        assert passes[i..][0] == passes[i] && passes[i..][1..] == passes[i + 1..];
        ghost var h1 := AfterOthers(h', passes[i].before);
        now' := Others(passes[i].before, now', h');
        h' := AfterPass(h', passes[i]);
        if wq.queue == [] {
          continue;
        }
        var skipped := Take(now');
        if skipped {
          continue;
        }
        now' := Others(passes[i].during, now', Next(h1, Step.Take));
        Finish(!passes[i].ok, now');
      }
    }
  }

  /** The first element that the last sync does not cover, or the length. */
  ghost function FirstDue(queue: seq<Element>, lastSync: int): (k: nat)
    ensures k <= |queue| && (k < |queue| ==> queue[k].timestamp >= lastSync)
    ensures forall i :: 0 <= i < k ==> queue[i].timestamp < lastSync
  {
    if queue == [] || queue[0].timestamp >= lastSync then 0 else 1 + FirstDue(queue[1..], lastSync)
  }

  // ---- Runs ------------------------------------------------------------------

  datatype Request = Request(key: string, at: int, skippable: bool)

  /** Something that happened to a key. */
  datatype Event = Event(key: string, at: int)

  /** A queue with what has happened to it: everything ever enqueued, when each successful sync
      began, which syncs ever began, and which failed. */
  datatype History = History(q: TaskState, now: int, requests: set<Request>, began: set<int>,
                             syncs: set<Event>, failures: set<Event>)

  datatype Step =
    | Tick(d: nat)
    | Enqueue(key: string, skippable: bool)
    | Take
    | Finish(ok: bool)
    | Release(e: Element)

  predicate Enabled(h: History, step: Step) {
    match step
    case Tick(_) => true
    case Enqueue(_, _) => true
    case Take => h.q.worker.Idle? && h.q.wq.queue != []
    case Finish(_) => h.q.worker.Busy?
    case Release(e) => e in h.q.delayed
  }

  function Next(h: History, step: Step): History
    requires Enabled(h, step)
  {
    match step
    case Tick(d) => h.(now := h.now + d)
    case Enqueue(key, skippable) =>
      h.(q := Enqueued(h.q, h.now, key, skippable), requests := h.requests + {Request(key, h.now, skippable)})
    case Take =>
      var q := Taken(h.q, h.now);
      h.(q := q, syncs := if q.worker.Busy? then h.syncs + {Event(q.worker.item.key, h.now)} else h.syncs)
    case Finish(ok) =>
      h.(q := Finished(h.q, ok, h.now),
         began := if ok then h.began + {h.q.worker.ts} else h.began,
         failures := if ok then h.failures else h.failures + {Event(h.q.worker.item.key, h.now)})
    case Release(e) => h.(q := Released(h.q, e))
  }

  ghost predicate IsRun(h: History, steps: seq<Step>)
    decreases |steps|
  {
    steps == [] || (Enabled(h, steps[0]) && IsRun(Next(h, steps[0]), steps[1..]))
  }

  ghost function After(h: History, steps: seq<Step>): History
    requires IsRun(h, steps)
    decreases |steps|
  {
    if steps == [] then h else After(Next(h, steps[0]), steps[1..])
  }

  // ---- The worker's loop among others ----------------------------------------

  /** What others do before the worker gets an element and while it syncs, and how that ends. */
  datatype Meanwhile = Meanwhile(before: seq<Step>, during: seq<Step>, ok: bool)

  /** Others let time pass, enqueue, and release what is delayed. */
  predicate OthersCan(h: History, step: Step) { Enabled(h, step) && !step.Take? && !step.Finish? }

  ghost function AfterOthers(h: History, steps: seq<Step>): (h': History)
    ensures h'.q.worker == h.q.worker
    decreases |steps|
  {
    if steps == [] then h
    else AfterOthers(if OthersCan(h, steps[0]) then Next(h, steps[0]) else h, steps[1..])
  }

  /** One pass of the worker, with what others do in the meantime. */
  ghost function AfterPass(h: History, p: Meanwhile): (h': History)
    requires h.q.worker.Idle?
    ensures h'.q.worker.Idle?
  {
    var h1 := AfterOthers(h, p.before);
    if h1.q.wq.queue == [] then h1
    else
      var h2 := Next(h1, Take);
      if h2.q.worker.Idle? then h2 else Next(AfterOthers(h2, p.during), Finish(p.ok))
  }

  ghost function AfterPasses(h: History, passes: seq<Meanwhile>): (h': History)
    requires h.q.worker.Idle?
    decreases |passes|
  {
    if passes == [] then h else AfterPasses(AfterPass(h, passes[0]), passes[1..])
  }

  lemma {:induction false} RunsConnect(h: History, a: seq<Step>, b: seq<Step>)
    requires IsRun(h, a) && IsRun(After(h, a), b)
    ensures IsRun(h, a + b) && After(h, a + b) == After(After(h, a), b)
    decreases |a|
  {
    if a == [] {
      assert a + b == b;
    } else {
      RunsConnect(Next(h, a[0]), a[1..], b);
      assert a + b != [] && (a + b)[0] == a[0] && (a + b)[1..] == a[1..] + b;
    }
  }

  lemma OneStepRun(h: History, step: Step)
    requires Enabled(h, step)
    ensures IsRun(h, [step]) && After(h, [step]) == Next(h, step)
  {
    assert [step][1..] == [];
  }

  lemma {:induction false} OthersRun(h: History, steps: seq<Step>) returns (run: seq<Step>)
    ensures IsRun(h, run) && After(h, run) == AfterOthers(h, steps)
    decreases |steps|
  {
    if steps == [] {
      run := [];
    } else if OthersCan(h, steps[0]) {
      run := OthersRun(Next(h, steps[0]), steps[1..]);
      OneStepRun(h, steps[0]);
      RunsConnect(h, [steps[0]], run);
      run := [steps[0]] + run;
    } else {
      run := OthersRun(h, steps[1..]);
    }
  }

  /** A step more. */
  lemma StepMore(h: History, run: seq<Step>, step: Step)
    requires IsRun(h, run) && Enabled(After(h, run), step)
    ensures IsRun(h, run + [step]) && After(h, run + [step]) == Next(After(h, run), step)
  {
    OneStepRun(After(h, run), step);
    RunsConnect(h, run, [step]);
  }

  lemma PassRun(h: History, p: Meanwhile) returns (run: seq<Step>)
    requires h.q.worker.Idle?
    ensures IsRun(h, run) && After(h, run) == AfterPass(h, p)
  {
    run := OthersRun(h, p.before);
    var h1 := AfterOthers(h, p.before);
    if h1.q.wq.queue != [] {
      StepMore(h, run, Take);
      run := run + [Take];
      var h2 := Next(h1, Take);
      if h2.q.worker.Busy? {
        var during := OthersRun(h2, p.during);
        RunsConnect(h, run, during);
        run := run + during;
        StepMore(h, run, Finish(p.ok));
        run := run + [Finish(p.ok)];
      }
    }
  }

  /** Whatever the loop and the others do is a run, so all that holds of runs holds of it. */
  lemma {:induction false} PassesAreRuns(h: History, passes: seq<Meanwhile>) returns (run: seq<Step>)
    requires h.q.worker.Idle?
    ensures IsRun(h, run) && After(h, run) == AfterPasses(h, passes)
    decreases |passes|
  {
    if passes == [] {
      run := [];
    } else {
      var first := PassRun(h, passes[0]);
      run := PassesAreRuns(AfterPass(h, passes[0]), passes[1..]);
      RunsConnect(h, first, run);
      run := first + run;
    }
  }

  ghost predicate Initial(h: History) {
    h.q == EMPTY && h.now >= 0 && h.requests == {} && h.began == {} && h.syncs == {} && h.failures == {}
  }

  /** The request's key waits, or is being synced by a sync that began later, or has
      been synced by one. */
  ghost predicate Accounted(h: History, r: Request) {
    || (exists e :: e in h.q.wq.dirty + h.q.delayed && e.key == r.key && e.timestamp >= r.at)
    || (h.q.worker.Busy? && h.q.worker.item.key == r.key && h.q.worker.ts >= r.at)
    || (exists b :: b in h.began && b >= r.at)
  }

  ghost predicate QueueInv(q: TaskState, now: int) {
    && q.wq.Valid()
    && q.wq.processing == (if q.worker.Idle? then {} else {q.worker.item})
    && 0 <= q.lastSync <= now
    && (q.worker.Busy? ==> q.lastSync <= q.worker.ts <= now)
    && (forall e :: e in q.wq.dirty + q.delayed ==> e.timestamp >= 0)
  }

  ghost predicate Inv(h: History) {
    && QueueInv(h.q, h.now)
    && (h.q.lastSync == 0 || h.q.lastSync in h.began)
    && (forall b :: b in h.began ==> b <= h.q.lastSync)
    && (forall r :: r in h.requests ==> r.at <= h.now && Accounted(h, r))
  }

  lemma EnqueuedKeepsQueueInv(q: TaskState, now: int, key: string, skippable: bool)
    requires QueueInv(q, now)
    ensures QueueInv(Enqueued(q, now, key, skippable), now)
  {
    AddKeepsValid(q.wq, Element(key, if skippable then now else now + DAY));
  }

  lemma TakenKeepsQueueInv(q: TaskState, now: int)
    requires QueueInv(q, now) && q.worker.Idle? && q.wq.queue != []
    ensures QueueInv(Taken(q, now), now)
    ensures Taken(q, now).wq.dirty == q.wq.dirty - {q.wq.queue[0]} && q.wq.queue[0] in q.wq.dirty
  {
    GetKeepsValid(q.wq);
    DoneKeepsValid(q.wq.Get(), q.wq.queue[0]);
  }

  lemma FinishedKeepsQueueInv(q: TaskState, ok: bool, now: int)
    requires QueueInv(q, now) && q.worker.Busy?
    ensures QueueInv(Finished(q, ok, now), now) && Finished(q, ok, now).wq.dirty == q.wq.dirty
  {
    DoneKeepsValid(q.wq, q.worker.item);
  }

  lemma ReleasedKeepsQueueInv(q: TaskState, e: Element, now: int)
    requires QueueInv(q, now) && e in q.delayed
    ensures QueueInv(Released(q, e), now) && Released(q, e).wq.dirty == q.wq.dirty + {e}
  {
    AddKeepsValid(q.wq, e);
  }

  lemma StepKeepsQueueInv(h: History, step: Step)
    requires QueueInv(h.q, h.now) && Enabled(h, step)
    ensures QueueInv(Next(h, step).q, Next(h, step).now)
  {
    match step
    case Tick(_) =>
    case Enqueue(key, skippable) => EnqueuedKeepsQueueInv(h.q, h.now, key, skippable);
    case Take => TakenKeepsQueueInv(h.q, h.now);
    case Finish(ok) => FinishedKeepsQueueInv(h.q, ok, h.now);
    case Release(e) => ReleasedKeepsQueueInv(h.q, e, h.now);
  }

  /** A request stays accounted for: skipping, failing and releasing never lose it. */
  lemma StepKeepsAccount(h: History, step: Step, r: Request)
    requires Inv(h) && Enabled(h, step) && r in h.requests
    ensures Accounted(Next(h, step), r)
  {
    var h' := Next(h, step);
    if b :| b in h.began && b >= r.at {
      assert b in h'.began;
    } else if h.q.worker.Busy? && h.q.worker.item.key == r.key && h.q.worker.ts >= r.at {
      if step.Finish? {
        if step.ok {
          assert h.q.worker.ts in h'.began;
        } else {
          assert Element(r.key, h.now) in h'.q.delayed;
        }
      }
    } else {
      var e :| e in h.q.wq.dirty + h.q.delayed && e.key == r.key && e.timestamp >= r.at;
      match step
      case Tick(_) =>
      case Enqueue(key, skippable) => AddKeepsValid(h.q.wq, Element(key, if skippable then h.now else h.now + DAY));
      case Take =>
        TakenKeepsQueueInv(h.q, h.now);
      case Finish(ok) => FinishedKeepsQueueInv(h.q, ok, h.now);
      case Release(f) => ReleasedKeepsQueueInv(h.q, f, h.now);
    }
  }

  lemma StepKeepsInv(h: History, step: Step)
    requires Inv(h) && Enabled(h, step)
    ensures Inv(Next(h, step))
  {
    var h' := Next(h, step);
    StepKeepsQueueInv(h, step);
    forall r | r in h'.requests ensures r.at <= h'.now && Accounted(h', r) {
      if r in h.requests {
        StepKeepsAccount(h, step, r);
      } else {
        var e := Element(r.key, if r.skippable then h.now else h.now + DAY);
        AddKeepsValid(h.q.wq, e);
        assert e in h'.q.wq.dirty;
      }
    }
  }

  lemma {:induction false} RunKeepsInv(h: History, steps: seq<Step>)
    requires Inv(h) && IsRun(h, steps)
    ensures Inv(After(h, steps))
    decreases |steps|
  {
    if steps != [] {
      StepKeepsInv(h, steps[0]);
      RunKeepsInv(Next(h, steps[0]), steps[1..]);
    }
  }

  /** In every run, whatever was enqueued still waits, is being synced by a sync that
      began no earlier, or has been covered by a successful sync that began no earlier. */
  lemma SkipSoundness(h: History, steps: seq<Step>, r: Request)
    requires Initial(h) && IsRun(h, steps)
    requires r in After(h, steps).requests
    ensures Accounted(After(h, steps), r)
  {
    RunKeepsInv(h, steps);
  }

  // ---- What is promised to a request, and what starts a sync -------------------

  /** A successful sync that began later than this makes a sync for the request needless: later
      than the request, and by 24 hours if it is not skippable. */
  function Due(r: Request): int { if r.skippable then r.at else r.at + 86_400_000_000_000 }

  /** The request waits, or a sync of its key has begun since, or a successful sync of anything
      began after it was due. */
  ghost predicate Promised(h: History, r: Request) {
    || (exists e :: e in h.q.wq.dirty + h.q.delayed && e.key == r.key && e.timestamp >= Due(r))
    || (exists s :: s in h.syncs && s.key == r.key && s.at >= r.at)
    || (exists b :: b in h.began && b > Due(r))
  }

  /** The element comes from a request, or from a sync that failed. */
  ghost predicate Traced(h: History, e: Element) {
    || (exists r :: r in h.requests && r.key == e.key && e.timestamp == Due(r))
    || Event(e.key, e.timestamp) in h.failures
  }

  ghost predicate PromiseInv(h: History) {
    && (forall r :: r in h.requests ==> Promised(h, r))
    && (forall e :: e in h.q.wq.dirty + h.q.delayed ==> Traced(h, e))
  }

  /** What a step adds to the queue, and what a Take removes from it. */
  lemma StepMoves(h: History, step: Step)
    requires Inv(h) && Enabled(h, step)
    ensures var w, w' := h.q.wq.dirty + h.q.delayed, Next(h, step).q.wq.dirty + Next(h, step).q.delayed;
            match step
            case Tick(_) => w' == w
            case Enqueue(key, skippable) => w' == w + {Element(key, Due(Request(key, h.now, skippable)))}
            case Take => w - {h.q.wq.queue[0]} <= w' <= w
            case Finish(ok) => w' == if ok then w else w + {Element(h.q.worker.item.key, h.now)}
            case Release(_) => w' == w
  {
    if step.Enqueue? {
      AddKeepsValid(h.q.wq, Element(step.key, if step.skippable then h.now else h.now + DAY));
    } else if step.Take? {
      TakenKeepsQueueInv(h.q, h.now);
    } else if step.Finish? {
      FinishedKeepsQueueInv(h.q, step.ok, h.now);
    } else if step.Release? {
      ReleasedKeepsQueueInv(h.q, step.e, h.now);
    }
  }

  lemma StepKeepsPromise(h: History, step: Step, r: Request)
    requires Inv(h) && PromiseInv(h) && Enabled(h, step) && r in Next(h, step).requests
    ensures Promised(Next(h, step), r)
  {
    var h' := Next(h, step);
    StepMoves(h, step);
    if r !in h.requests {
      assert Element(r.key, Due(r)) in h'.q.wq.dirty + h'.q.delayed;
    } else if e :| e in h.q.wq.dirty + h.q.delayed && e.key == r.key && e.timestamp >= Due(r) {
      if step.Take? && e == h.q.wq.queue[0] {
        TakeKeepsPromise(h, r);
      } else {
        assert e in h'.q.wq.dirty + h'.q.delayed;
      }
    } else {
      assert h.syncs <= h'.syncs && h.began <= h'.began;
    }
  }

  /** Taking the element of a request begins a sync, or skips it because of one. */
  lemma TakeKeepsPromise(h: History, r: Request)
    requires Inv(h) && Enabled(h, Take) && r in h.requests
    requires h.q.wq.queue[0].key == r.key && h.q.wq.queue[0].timestamp >= Due(r)
    ensures Promised(Next(h, Take), r)
  {
    var h' := Next(h, Take);
    if h'.q.worker.Busy? {
      assert Event(r.key, h.now) in h'.syncs;
    } else {
      assert h.q.wq.queue[0] in h.q.wq.queue;
      assert h.q.lastSync in h'.began;
    }
  }

  lemma StepKeepsTrace(h: History, step: Step, e: Element)
    requires Inv(h) && PromiseInv(h) && Enabled(h, step)
    requires e in Next(h, step).q.wq.dirty + Next(h, step).q.delayed
    ensures Traced(Next(h, step), e)
  {
    var h' := Next(h, step);
    StepMoves(h, step);
    if e in h.q.wq.dirty + h.q.delayed {
      assert Traced(h, e);
      assert h.requests <= h'.requests && h.failures <= h'.failures;
    } else if step.Enqueue? {
      assert Request(step.key, h.now, step.skippable) in h'.requests;
    }
  }

  lemma {:induction false} RunKeepsPromise(h: History, steps: seq<Step>)
    requires Inv(h) && PromiseInv(h) && IsRun(h, steps)
    ensures Inv(After(h, steps)) && PromiseInv(After(h, steps))
    decreases |steps|
  {
    if steps != [] {
      StepKeepsInv(h, steps[0]);
      forall r | r in Next(h, steps[0]).requests ensures Promised(Next(h, steps[0]), r) {
        StepKeepsPromise(h, steps[0], r);
      }
      forall e | e in Next(h, steps[0]).q.wq.dirty + Next(h, steps[0]).q.delayed ensures Traced(Next(h, steps[0]), e) {
        StepKeepsTrace(h, steps[0], e);
      }
      RunKeepsPromise(Next(h, steps[0]), steps[1..]);
    }
  }

  /** In every run, a request is skipped for good only when it is covered: it waits, or a sync
      of its key has begun since it was made, or a successful sync began after it; if it is not
      skippable, more than a day after it. */
  lemma SkippedOnlyWhenCovered(h: History, steps: seq<Step>, r: Request)
    requires Initial(h) && IsRun(h, steps) && r in After(h, steps).requests
    ensures Promised(After(h, steps), r)
  {
    RunKeepsPromise(h, steps);
  }

  /** In every run, a sync begins only for a request or a failed sync of the key that no
      successful sync has made needless. */
  lemma SyncsAreCaused(h: History, steps: seq<Step>)
    requires Initial(h) && IsRun(h, steps)
    requires Enabled(After(h, steps), Take) && Next(After(h, steps), Take).q.worker.Busy?
    ensures var end := After(h, steps); var key := Next(end, Take).q.worker.item.key;
            || (exists r :: r in end.requests && r.key == key && forall b :: b in end.began ==> b <= Due(r))
            || (exists f :: f in end.failures && f.key == key && forall b :: b in end.began ==> b <= f.at)
  {
    RunKeepsPromise(h, steps);
    var end := After(h, steps);
    var e := end.q.wq.queue[0];
    assert e in end.q.wq.queue;
    assert Traced(end, e);
    if Event(e.key, e.timestamp) !in end.failures {
      var r :| r in end.requests && r.key == e.key && e.timestamp == Due(r);
      assert forall b :: b in end.began ==> b <= Due(r);
    } else {
      assert forall b :: b in end.began ==> b <= Event(e.key, e.timestamp).at;
    }
  }

  lemma StepOnlyAdds(h: History, step: Step)
    requires Enabled(h, step)
    ensures var h' := Next(h, step);
            h.requests <= h'.requests && h.began <= h'.began && h.syncs <= h'.syncs && h.failures <= h'.failures
  {
  }

  lemma {:induction false} RunOnlyAdds(h: History, steps: seq<Step>)
    requires IsRun(h, steps)
    ensures var h' := After(h, steps);
            h.requests <= h'.requests && h.began <= h'.began && h.syncs <= h'.syncs && h.failures <= h'.failures
    decreases |steps|
  {
    if steps != [] {
      StepOnlyAdds(h, steps[0]);
      RunOnlyAdds(Next(h, steps[0]), steps[1..]);
    }
  }

  /** Every request and every failed sync of the key is older than `b`. */
  ghost predicate AllBefore(h: History, key: string, b: int) {
    && (forall r :: r in h.requests && r.key == key ==> Due(r) < b)
    && (forall f :: f in h.failures && f.key == key ==> f.at < b)
  }

  lemma OldElementIsSkipped(h: History, key: string, b: int)
    requires Inv(h) && PromiseInv(h) && b in h.began && AllBefore(h, key, b)
    requires Enabled(h, Take) && h.q.wq.queue[0].key == key
    ensures Next(h, Take).syncs == h.syncs
  {
    assert h.q.wq.queue[0] in h.q.wq.queue;
    assert Traced(h, h.q.wq.queue[0]);
  }

  lemma {:induction false} NoSyncOf(h: History, steps: seq<Step>, key: string, b: int, at: int)
    requires Inv(h) && PromiseInv(h) && IsRun(h, steps) && b in h.began && AllBefore(After(h, steps), key, b)
    ensures Event(key, at) in After(h, steps).syncs <==> Event(key, at) in h.syncs
    decreases |steps|
  {
    if steps != [] {
      RunOnlyAdds(h, steps);
      if steps[0].Take? && h.q.wq.queue[0].key == key {
        OldElementIsSkipped(h, key, b);
      }
      OneStepRun(h, steps[0]);
      RunKeepsPromise(h, [steps[0]]);
      StepOnlyAdds(h, steps[0]);
      NoSyncOf(Next(h, steps[0]), steps[1..], key, b, at);
    }
  }

  /** Coalescing: however many requests for a key were made before a successful sync of anything
      began, they start no sync in any continuation, unless a new one is made or a sync of the
      key fails. Requests that are not skippable count for a day longer. */
  lemma Coalescing(h: History, before: seq<Step>, after: seq<Step>, key: string, b: int, at: int)
    requires Initial(h) && IsRun(h, before) && IsRun(After(h, before), after)
    requires b in After(h, before).began && AllBefore(After(After(h, before), after), key, b)
    ensures Event(key, at) in After(After(h, before), after).syncs <==> Event(key, at) in After(h, before).syncs
  {
    RunKeepsPromise(h, before);
    NoSyncOf(After(h, before), after, key, b, at);
  }
}
