/**
 * The hand-off of tasks to a pool of worker threads: src/common/TaskThread.cpp and the dispatcher's loop,
 * one shared access at a time, in every interleaving.
 */
module TaskThreads {
  import opened Association

  /** What runTask passes on; 0 is NULL. */
  datatype Args = Args(obj: nat, input: nat, output: nat)

  /**
   * Two places where the order of two statements matters. `lockFirst`: the worker takes the lock before it sets
   * _run. `clearFirst`: it clears its arguments before it sets _free. The code has both the other way round.
   */
  datatype Order = Order(lockFirst: bool, clearFirst: bool)

  const AS_WRITTEN := Order(false, false)

  datatype Pc =
    | Start(k: nat)     // threadFunc, before the main loop
    | Loop              // the loop's test of _run
    | AtLock            // pthread_mutex_lock
    | AtCall            // the call of the task
    | Busy              // inside it
    | After(k: nat)     // the four assignments behind it

  /**
   * One TaskThread. The lock is a binary semaphore: the dispatcher unlocks what the worker has locked. `accepted`
   * are the arguments of the calls of runTask that returned true, `executed` those the task was called with,
   * `ended` counts the calls that have returned.
   */
  datatype Worker = Worker(run: bool, free: bool, locked: bool, args: Args, pc: Pc,
                           accepted: seq<Args>, executed: seq<Args>, ended: nat)

  const NULLS := Args(0, 0, 0)
  const FRESH := Worker(false, true, false, NULLS, Start(0), [], [], 0)

  /** The dispatcher: looking for a worker, or before the k-th statement of runTask at worker `i`. */
  datatype Disp = Looking | Giving(i: nat, args: Args, k: nat)

  datatype Pool = Pool(workers: seq<Worker>, disp: Disp)

  function Startup(v: Order, w: Worker, k: nat): Option<Worker>
  {
    var next := if k == 0 then Start(1) else Loop;
    if v.lockFirst == (k == 0) then
      if w.locked then None else Some(w.(locked := true, pc := next))
    else Some(w.(run := true, pc := next))
  }

  function Cleanup(v: Order, w: Worker, k: nat): Worker
  {
    var next := if k >= 3 then Loop else After(k + 1);
    var field := if v.clearFirst then k else k - 1;
    if field == 0 then w.(args := w.args.(obj := 0), pc := next)
    else if field == 1 then w.(args := w.args.(input := 0), pc := next)
    else if field == 2 then w.(args := w.args.(output := 0), pc := next)
    else w.(free := true, pc := next)
  }

  /** One step of a worker; None while it waits for the lock, or when it has left the loop. */
  function WorkerStep(v: Order, w: Worker): Option<Worker>
  {
    match w.pc
    case Start(k) => Startup(v, w, k)
    case Loop => if w.run then Some(w.(pc := AtLock)) else None
    case AtLock => if w.locked then None else Some(w.(locked := true, pc := AtCall))
    case AtCall => Some(w.(executed := w.executed + [w.args], pc := Busy))
    case Busy => Some(w.(ended := w.ended + 1, pc := After(0)))
    case After(k) => Some(Cleanup(v, w, k))
  }

  /** The statements of runTask after its test. */
  function Given(w: Worker, args: Args, k: nat): Worker
  {
    if k == 0 then w.(free := false)
    else if k == 1 then w.(args := w.args.(obj := args.obj))
    else if k == 2 then w.(args := w.args.(input := args.input))
    else if k == 3 then w.(args := w.args.(output := args.output))
    else w.(locked := false, accepted := w.accepted + [args])
  }

  datatype Event = Work(i: nat) | Offer(i: nat, args: Args) | Give

  ghost predicate Next(v: Order, p: Pool, e: Event, p': Pool)
  {
    match e
    case Work(i) =>
      && i < |p.workers| && WorkerStep(v, p.workers[i]).Some?
      && p' == p.(workers := p.workers[i := WorkerStep(v, p.workers[i]).value])
    case Offer(i, args) =>
      && i < |p.workers| && p.disp.Looking? && p.workers[i].free && p.workers[i].run
      && p' == p.(disp := Giving(i, args, 0))
    case Give =>
      && p.disp.Giving? && p.disp.i < |p.workers|
      && p' == Pool(p.workers[p.disp.i := Given(p.workers[p.disp.i], p.disp.args, p.disp.k)],
                    if p.disp.k >= 4 then Looking else p.disp.(k := p.disp.k + 1))
  }

  // ---- Safety ----

  /**
   * What the pool is for: tasks are run in the order of acceptance, each once and with its own arguments, one at
   * a time; and a worker is not free while one it has accepted has not ended.
   */
  ghost predicate Safe(w: Worker)
  {
    && w.executed <= w.accepted && |w.accepted| <= |w.executed| + 1
    && w.ended <= |w.executed| <= w.ended + 1
    && (w.ended < |w.accepted| ==> !w.free)
  }

  /** No worker waits with an accepted task undone. */
  ghost predicate NotStuck(v: Order, w: Worker)
  {
    WorkerStep(v, w).None? ==> w.ended == |w.accepted| && w.executed == w.accepted
  }

  ghost predicate Waiting(w: Worker) { w.pc.Loop? || w.pc.AtLock? }

  /** The arguments that are in place before the k-th statement of runTask. */
  ghost predicate Placed(w: Worker, args: Args, k: nat)
  {
    (k > 1 ==> w.args.obj == args.obj) && (k > 2 ==> w.args.input == args.input)
      && (k > 3 ==> w.args.output == args.output)
  }

  /** The invariant of one worker, with the dispatcher inside runTask at it or not. */
  ghost predicate Good(v: Order, w: Worker, d: Disp)
  {
    var done := w.executed == w.accepted && w.ended == |w.accepted|;
    var open := |w.accepted| > 0 && w.accepted == w.executed + [w.args] && w.ended + 1 == |w.accepted|;
    if d.Giving? then
      && Waiting(w) && w.run && w.locked && done && w.free == (d.k == 0) && d.k <= 4 && Placed(w, d.args, d.k)
    else if w.pc.Start? then
      && w.pc.k <= 1 && w.free && done && w.accepted == []
      && w.run == (w.pc.k == 1 && !v.lockFirst) && w.locked == (w.pc.k == 1 && v.lockFirst)
    else
      && w.run
      && match w.pc
         case AtCall => w.locked && !w.free && open
         case Busy => w.locked && !w.free && w.executed == w.accepted && w.ended + 1 == |w.accepted|
         case After(k) => w.locked && w.free == (k > 0 && !v.clearFirst) && done && k <= 3
         case _ => (w.locked && w.free && done) || (!w.locked && !w.free && open)
  }

  /** What the dispatcher is doing at worker `i`. */
  function At(d: Disp, i: nat): Disp { if d.Giving? && d.i == i then d else Looking }

  ghost predicate GoodPool(v: Order, p: Pool)
  {
    && (forall i :: 0 <= i < |p.workers| ==> Good(v, p.workers[i], At(p.disp, i)))
    && (p.disp.Giving? ==> p.disp.i < |p.workers|)
  }

  const REPAIRED := Order(true, true)

  lemma GoodIsSafe(v: Order, w: Worker, d: Disp)
    requires Good(v, w, d)
    ensures Safe(w) && NotStuck(v, w)
  {
  }

  lemma WorkGood(v: Order, w: Worker, d: Disp)
    requires Good(v, w, d) && WorkerStep(v, w).Some?
    ensures Good(v, WorkerStep(v, w).value, d)
  {
  }

  /** A statement of runTask, or its test, comes to a worker that is in its loop or at its lock. */
  ghost predicate IsCalm(p: Pool, e: Event)
  {
    match e
    case Work(_) => true
    case Offer(i, _) => i < |p.workers| ==> Waiting(p.workers[i])
    case Give => p.disp.Giving? && p.disp.i < |p.workers| ==> Waiting(p.workers[p.disp.i])
  }

  /** In every order, such steps keep the invariant. */
  lemma NextGood(v: Order, p: Pool, e: Event, p': Pool)
    requires GoodPool(v, p) && Next(v, p, e, p') && IsCalm(p, e)
    ensures GoodPool(v, p')
  {
    forall i | 0 <= i < |p'.workers| ensures Good(v, p'.workers[i], At(p'.disp, i)) {
      assert Good(v, p.workers[i], At(p.disp, i));
      match e
      case Work(j) =>
        if i == j {
          WorkGood(v, p.workers[i], At(p.disp, i));
        }
      case Offer(j, args) =>
      case Give =>
    }
  }

  /** And with both pairs of statements swapped there are no others: a worker that is free and running waits. */
  lemma RepairedCalm(p: Pool, e: Event, p': Pool)
    requires GoodPool(REPAIRED, p) && Next(REPAIRED, p, e, p')
    ensures IsCalm(p, e)
  {
    assert e.Offer? ==> Good(REPAIRED, p.workers[e.i], At(p.disp, e.i));
    assert e.Give? ==> Good(REPAIRED, p.workers[p.disp.i], At(p.disp, p.disp.i));
  }

  // ---- Runs ----

  ghost predicate IsStart(p: Pool) { p.disp.Looking? && forall w :: w in p.workers ==> w == FRESH }

  ghost predicate IsRun(v: Order, run: seq<Pool>, events: seq<Event>)
  {
    && |run| == |events| + 1 && IsStart(run[0])
    && forall i :: 0 <= i < |events| ==> Next(v, run[i], events[i], run[i + 1])
  }

  ghost predicate CalmRun(run: seq<Pool>, events: seq<Event>)
  {
    |run| == |events| + 1 && forall i :: 0 <= i < |events| ==> IsCalm(run[i], events[i])
  }

  lemma StartGood(v: Order, p: Pool)
    requires IsStart(p)
    ensures GoodPool(v, p)
  {
    forall j | 0 <= j < |p.workers| ensures Good(v, p.workers[j], Looking) {
      assert p.workers[j] in p.workers;
    }
  }

  lemma {:induction false} CalmRunGood(v: Order, run: seq<Pool>, events: seq<Event>, i: nat)
    requires IsRun(v, run, events) && CalmRun(run, events) && i < |run|
    ensures GoodPool(v, run[i])
    decreases i
  {
    if i > 0 {
      CalmRunGood(v, run, events, i - 1);
      NextGood(v, run[i - 1], events[i - 1], run[i]);
    } else {
      StartGood(v, run[0]);
    }
  }

  lemma {:induction false} RunGood(run: seq<Pool>, events: seq<Event>, i: nat)
    requires IsRun(REPAIRED, run, events) && i < |run|
    ensures GoodPool(REPAIRED, run[i])
    decreases i
  {
    if i > 0 {
      RunGood(run, events, i - 1);
      RepairedCalm(run[i - 1], events[i - 1], run[i]);
      NextGood(REPAIRED, run[i - 1], events[i - 1], run[i]);
    } else {
      StartGood(REPAIRED, run[0]);
    }
  }

  lemma RepairedRunsCalm(run: seq<Pool>, events: seq<Event>)
    requires IsRun(REPAIRED, run, events)
    ensures CalmRun(run, events)
  {
    forall i | 0 <= i < |events| ensures IsCalm(run[i], events[i]) {
      RunGood(run, events, i);
      RepairedCalm(run[i], events[i], run[i + 1]);
    }
  }

  /** Everything that is promised of one state of a pool. */
  ghost predicate Promised(v: Order, p: Pool)
  {
    forall i :: 0 <= i < |p.workers| ==> Safe(p.workers[i]) && NotStuck(v, p.workers[i])
  }

  lemma GoodPromised(v: Order, p: Pool)
    requires GoodPool(v, p)
    ensures Promised(v, p)
  {
    forall i | 0 <= i < |p.workers| ensures Safe(p.workers[i]) && NotStuck(v, p.workers[i]) {
      GoodIsSafe(v, p.workers[i], At(p.disp, i));
    }
  }

  /**
   * In every order, the one of the code included, runs in which runTask comes only to waiting workers keep the
   * promise.
   */
  lemma CalmKept(v: Order, run: seq<Pool>, events: seq<Event>, i: nat)
    requires IsRun(v, run, events) && CalmRun(run, events) && i < |run|
    ensures Promised(v, run[i])
  {
    CalmRunGood(v, run, events, i);
    GoodPromised(v, run[i]);
  }

  /** Until its task has ended, a worker that has one can go on by itself, and every step brings it nearer the end. */
  function Rank(w: Worker): nat
  {
    match w.pc
    case Start(k) => 9
    case Loop => 8
    case AtLock => 7
    case AtCall => 6
    case Busy => 5
    case After(k) => if k <= 3 then 4 - k else 0
  }

  lemma WorkGoesOn(v: Order, w: Worker)
    requires Good(v, w, Looking) && w.ended < |w.accepted|
    ensures WorkerStep(v, w).Some? && Rank(WorkerStep(v, w).value) < Rank(w)
    ensures var w' := WorkerStep(v, w).value;
      w'.accepted == w.accepted && Good(v, w', Looking) && (w'.ended == |w'.accepted| <==> w.pc.Busy?)
  {
    WorkGood(v, w, Looking);
  }

  // ---- A task that is offered is done ----

  ghost predicate IsChain(v: Order, run: seq<Pool>, events: seq<Event>)
  {
    |run| == |events| + 1 && forall i :: 0 <= i < |events| ==> Next(v, run[i], events[i], run[i + 1])
  }

  /** Some steps lead from one pool to the other. */
  ghost predicate Leads(v: Order, p: Pool, p': Pool)
  {
    exists run: seq<Pool>, events: seq<Event> :: IsChain(v, run, events) && run[0] == p && run[|events|] == p'
  }

  lemma LeadsOn(v: Order, p: Pool, q: Pool, e: Event, r: Pool)
    requires Leads(v, p, q) && Next(v, q, e, r)
    ensures Leads(v, p, r)
  {
    var run: seq<Pool>, events: seq<Event> :| IsChain(v, run, events) && run[0] == p && run[|events|] == q;
    assert IsChain(v, run + [r], events + [e]) && (run + [r])[|events + [e]|] == r;
  }

  /** The statements of runTask that are left, one after another. */
  lemma {:induction false} GivesAll(p: Pool, q: Pool) returns (r: Pool)
    requires Leads(REPAIRED, p, q) && GoodPool(REPAIRED, q) && q.disp.Giving?
    ensures Leads(REPAIRED, p, r) && GoodPool(REPAIRED, r) && r.disp.Looking?
    ensures var i, w := q.disp.i, q.workers[q.disp.i];
      && |r.workers| == |q.workers| && r.workers == q.workers[i := r.workers[i]]
      && r.workers[i].accepted == w.accepted + [q.disp.args]
      && r.workers[i].executed == w.executed
    decreases 4 - q.disp.k
  {
    var i := q.disp.i;
    assert Good(REPAIRED, q.workers[i], At(q.disp, i));
    var next := Pool(q.workers[i := Given(q.workers[i], q.disp.args, q.disp.k)],
                     if q.disp.k >= 4 then Looking else q.disp.(k := q.disp.k + 1));
    RepairedCalm(q, Give, next);
    NextGood(REPAIRED, q, Give, next);
    LeadsOn(REPAIRED, p, q, Give, next);
    r := next;
    if next.disp.Giving? {
      r := GivesAll(p, next);
    }
  }

  /** The steps of the worker that are left. */
  lemma {:induction false} WorksOff(p: Pool, q: Pool, i: nat) returns (r: Pool)
    requires Leads(REPAIRED, p, q) && GoodPool(REPAIRED, q) && q.disp.Looking? && i < |q.workers|
    requires !q.workers[i].pc.Start? && !q.workers[i].free
    ensures Leads(REPAIRED, p, r) && r.disp.Looking?
    ensures |r.workers| == |q.workers| && r.workers == q.workers[i := r.workers[i]]
    ensures var w := r.workers[i];
      w.free && w.run && w.executed == w.accepted == q.workers[i].accepted && w.ended == |w.accepted|
    decreases Rank(q.workers[i])
  {
    var w := q.workers[i];
    assert Good(REPAIRED, w, At(q.disp, i));
    assert WorkerStep(REPAIRED, w).Some?;
    var next := q.(workers := q.workers[i := WorkerStep(REPAIRED, w).value]);
    RepairedCalm(q, Work(i), next);
    NextGood(REPAIRED, q, Work(i), next);
    LeadsOn(REPAIRED, p, q, Work(i), next);
    r := next;
    assert Good(REPAIRED, next.workers[i], At(next.disp, i));
    if !next.workers[i].free {
      r := WorksOff(p, next, i);
    }
  }

  /**
   * In the repaired order a worker that says it is free can be given any task, and then runs that task, with its own
   * arguments, and is free again; the other workers need not move.
   */
  lemma OfferedIsDone(p: Pool, i: nat, args: Args) returns (r: Pool)
    requires GoodPool(REPAIRED, p) && p.disp.Looking? && i < |p.workers| && p.workers[i].free && p.workers[i].run
    ensures Leads(REPAIRED, p, r) && r.disp.Looking?
    ensures |r.workers| == |p.workers| && r.workers == p.workers[i := r.workers[i]]
    ensures var w := r.workers[i];
      w.free && w.run && w.executed == p.workers[i].executed + [args] && w.ended == |w.executed|
  {
    var offered := p.(disp := Giving(i, args, 0));
    assert IsChain(REPAIRED, [p], []) && [p][0] == p;
    assert Leads(REPAIRED, p, p);
    assert Good(REPAIRED, p.workers[i], At(p.disp, i));
    RepairedCalm(p, Offer(i, args), offered);
    NextGood(REPAIRED, p, Offer(i, args), offered);
    LeadsOn(REPAIRED, p, p, Offer(i, args), offered);
    var given := GivesAll(p, offered);
    assert Good(REPAIRED, given.workers[i], At(given.disp, i));
    r := WorksOff(p, given, i);
  }

  // ---- The code's own order ----

  /** A state that some run reaches. */
  ghost predicate Reached(v: Order, p: Pool)
  {
    exists run: seq<Pool>, events: seq<Event> :: IsRun(v, run, events) && run[|events|] == p
  }

  lemma Extend(v: Order, p: Pool, e: Event, p': Pool)
    requires Reached(v, p) && Next(v, p, e, p')
    ensures Reached(v, p')
  {
    var run: seq<Pool>, events: seq<Event> :| IsRun(v, run, events) && run[|events|] == p;
    assert IsRun(v, run + [p'], events + [e]);
    assert (run + [p'])[|events + [e]|] == p';
  }

  lemma StartReached(v: Order)
    ensures Reached(v, Pool([FRESH], Looking))
  {
    var run: seq<Pool>, events: seq<Event> := [Pool([FRESH], Looking)], [];
    assert IsRun(v, run, events) && run[|events|] == Pool([FRESH], Looking);
  }

  function Handed(w: Worker, args: Args): Worker
  {
    w.(free := false, args := args, locked := false, accepted := w.accepted + [args])
  }

  /** One call of runTask with the worker standing still. */
  lemma HandOver(v: Order, w: Worker, args: Args)
    requires Reached(v, Pool([w], Looking)) && w.free && w.run
    ensures Reached(v, Pool([Handed(w, args)], Looking))
  {
    Extend(v, Pool([w], Looking), Offer(0, args), Pool([w], Giving(0, args, 0)));
    var a := w.(free := false);
    Extend(v, Pool([w], Giving(0, args, 0)), Give, Pool([a], Giving(0, args, 1)));
    var b := a.(args := a.args.(obj := args.obj));
    Extend(v, Pool([a], Giving(0, args, 1)), Give, Pool([b], Giving(0, args, 2)));
    var c := b.(args := b.args.(input := args.input));
    Extend(v, Pool([b], Giving(0, args, 2)), Give, Pool([c], Giving(0, args, 3)));
    Extend(v, Pool([c], Giving(0, args, 3)), Give, Pool([c.(args := args)], Giving(0, args, 4)));
    Extend(v, Pool([c.(args := args)], Giving(0, args, 4)), Give, Pool([Handed(w, args)], Looking));
  }

  /** `w` after `n` steps of its own, as far as it gets. */
  function Steps(v: Order, w: Worker, n: nat): Worker
    decreases n
  {
    if n == 0 then w
    else match WorkerStep(v, w) case None => w case Some(w') => Steps(v, w', n - 1)
  }

  lemma {:induction false} Works(v: Order, w: Worker, n: nat)
    requires Reached(v, Pool([w], Looking))
    ensures Reached(v, Pool([Steps(v, w, n)], Looking))
    decreases n
  {
    if n > 0 && WorkerStep(v, w).Some? {
      Extend(v, Pool([w], Looking), Work(0), Pool([WorkerStep(v, w).value], Looking));
      Works(v, WorkerStep(v, w).value, n - 1);
    }
  }

  /** _run before the lock: a task accepted in between is never run, for the unlock has nothing to unlock yet. */
  lemma LostWakeup(v: Order) returns (w: Worker)
    requires !v.lockFirst
    ensures Reached(v, Pool([w], Looking)) && !NotStuck(v, w)
  {
    var args := Args(1, 2, 0);
    StartReached(v);
    var a := FRESH.(run := true, pc := Start(1));
    Works(v, FRESH, 1);
    assert Steps(v, FRESH, 1) == a;
    HandOver(v, a, args);
    var b := Handed(a, args);
    w := b.(locked := true, pc := AtLock);
    Works(v, b, 2);
    assert Steps(v, b, 2) == Steps(v, b.(locked := true, pc := Loop), 1) == w;
  }

  /** A worker that waits, and then has run `args` and got to its last three assignments with the first one done. */
  lemma OneTask(v: Order, w: Worker, args: Args) returns (w': Worker)
    requires !v.clearFirst && Reached(v, Pool([w], Looking))
    requires w.pc.Loop? && w.run && w.free && w.locked && w.accepted == [] && w.executed == []
    ensures Reached(v, Pool([w'], Looking))
    ensures w'.pc == After(1) && w'.run && w'.free && w'.locked && w'.accepted == [args] && w'.executed == [args]
  {
    HandOver(v, w, args);
    var a := Handed(w, args);
    var b := a.(locked := true, pc := AtCall);
    assert Steps(v, a, 2) == Steps(v, a.(pc := AtLock), 1) == b;
    Works(v, a, 2);
    var c := b.(executed := [args], pc := Busy);
    assert Steps(v, b, 1) == c;
    Works(v, b, 1);
    w' := c.(ended := c.ended + 1, free := true, pc := After(1));
    assert Steps(v, c, 2) == Steps(v, c.(ended := c.ended + 1, pc := After(0)), 1) == w';
    Works(v, c, 2);
  }

  /** _free before the arguments are cleared: those of a task accepted in between are cleared with the old ones. */
  lemma LostArguments(v: Order) returns (w: Worker)
    requires !v.clearFirst
    ensures Reached(v, Pool([w], Looking)) && !Safe(w)
  {
    StartReached(v);
    Works(v, FRESH, 2);
    var ready := FRESH.(locked := true, run := true, pc := Loop);
    assert Steps(v, FRESH, 2) == ready by {
      var half := if v.lockFirst then FRESH.(locked := true, pc := Start(1)) else FRESH.(run := true, pc := Start(1));
      assert Steps(v, FRESH, 2) == Steps(v, half, 1) == ready;
    }
    var a := OneTask(v, ready, Args(1, 2, 0));
    HandOver(v, a, Args(3, 4, 0));
    var b := Handed(a, Args(3, 4, 0));
    var c := b.(args := NULLS, pc := Loop);
    assert Steps(v, b, 3) == Steps(v, b.(args := Args(0, 4, 0), pc := After(2)), 2)
        == Steps(v, b.(args := NULLS, pc := After(3)), 1) == c;
    Works(v, b, 3);
    w := c.(locked := true, executed := [Args(1, 2, 0), NULLS], pc := Busy);
    assert Steps(v, c, 3) == Steps(v, c.(pc := AtLock), 2) == Steps(v, c.(locked := true, pc := AtCall), 1) == w;
    Works(v, c, 3);
    assert w.executed[1] != w.accepted[1];
  }

  /** The code's own order does both. */
  lemma WrittenLoses() returns (stuck: Worker, unsafe: Worker)
    ensures Reached(AS_WRITTEN, Pool([stuck], Looking)) && !NotStuck(AS_WRITTEN, stuck)
    ensures Reached(AS_WRITTEN, Pool([unsafe], Looking)) && !Safe(unsafe)
  {
    stuck := LostWakeup(AS_WRITTEN);
    unsafe := LostArguments(AS_WRITTEN);
  }

  ghost predicate AlwaysKept(v: Order) { forall p :: Reached(v, p) ==> Promised(v, p) }

  lemma ReachedKept(p: Pool)
    requires Reached(REPAIRED, p)
    ensures Promised(REPAIRED, p)
  {
    var run: seq<Pool>, events: seq<Event> :| IsRun(REPAIRED, run, events) && run[|events|] == p;
    RunGood(run, events, |events|);
    GoodPromised(REPAIRED, p);
  }

  /** What the pool promises holds in every interleaving exactly when both pairs of statements are swapped. */
  lemma KeptIff(v: Order)
    ensures AlwaysKept(v) <==> v == REPAIRED
  {
    if v == REPAIRED {
      forall p | Reached(v, p) ensures Promised(v, p) {
        ReachedKept(p);
      }
    } else {
      var w: Worker;
      if !v.lockFirst {
        w := LostWakeup(v);
      } else {
        w := LostArguments(v);
      }
      var p := Pool([w], Looking);
      assert Reached(v, p) && p.workers[0] == w;
    }
  }

  ghost predicate AlwaysCalm(v: Order)
  {
    forall run: seq<Pool>, events: seq<Event> :: IsRun(v, run, events) ==> CalmRun(run, events)
  }

  /** And the same orders are those in which runTask never comes to another worker. */
  lemma CalmIff(v: Order)
    ensures AlwaysCalm(v) <==> v == REPAIRED
  {
    if v == REPAIRED {
      forall run: seq<Pool>, events: seq<Event> | IsRun(v, run, events) ensures CalmRun(run, events) {
        RepairedRunsCalm(run, events);
      }
    } else if AlwaysCalm(v) {
      forall p | Reached(v, p) ensures Promised(v, p) {
        var run: seq<Pool>, events: seq<Event> :| IsRun(v, run, events) && run[|events|] == p;
        CalmKept(v, run, events, |events|);
      }
      KeptIff(v);
    }
  }
}
