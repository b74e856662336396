/** One process timer shared by many callbacks: src/common/Doopey.cpp:45-102. */
module AlarmSpec {
  import opened Sequences

  /** Callbacks by address, each with its deadline. */
  type Deadlines = map<nat, nat>

  datatype Timer = Off | On(at: nat)

  const UNSIGNED: nat := 0x1_0000_0000

  /** The timer after alarm(min - now): the argument is unsigned, and 0 turns the timer off. */
  function Alarmed(min: nat, now: nat): Timer
  {
    var sec := (min - now) % UNSIGNED;
    if sec == 0 then Off else On(now + sec)
  }

  ghost predicate IsEarliest(m: Deadlines, d: nat)
  {
    (exists h :: h in m && m[h] == d) && forall h :: h in m ==> d <= m[h]
  }

  /**
   * One call of alarmHandler between the times t0 and t1: the callbacks of `log` are called, each once, none before
   * its deadline, and leave the map; whatever had reached its deadline at t0 is among them.
   */
  ghost predicate Handles(m: Deadlines, t0: nat, log: seq<nat>, m': Deadlines, t1: nat)
  {
    && t0 <= t1 && NoDup(log) && (forall h :: h in log ==> h in m && m[h] <= t1)
    && m' == m - ToSet(log) && forall h :: h in m' ==> m'[h] > t0
  }

  /** How it leaves the timer, which was off: set for the earliest deadline, from a last reading of the clock. */
  ghost predicate Arms(m': Deadlines, reading: nat, timer: Timer)
  {
    if m' == map[] then timer == Off else exists d :: IsEarliest(m', d) && timer == Alarmed(d, reading)
  }

  /** One deadline has been reached. */
  ghost predicate SomeDue(m: Deadlines, now: nat) { exists h :: h in m && m[h] <= now }

  lemma OneEarliest(m: Deadlines, d: nat, e: nat)
    requires IsEarliest(m, d) && IsEarliest(m, e)
    ensures d == e
  {
  }

  /** The setting is right exactly when the clock has not reached the deadline yet. */
  lemma AlarmedIff(min: nat, now: nat)
    requires min < now + UNSIGNED
    ensures Alarmed(min, now) == On(min) <==> now < min
  {
  }

  lemma HandlesTwice(m: Deadlines, t0: nat, log: seq<nat>, m': Deadlines, t1: nat, log': seq<nat>, m'': Deadlines,
      t2: nat)
    requires t0 <= t1 && NoDup(log) && (forall h :: h in log ==> h in m && m[h] <= t1)
    requires m' == m - ToSet(log) && (forall h :: h in m' ==> m'[h] > t0) && Handles(m', t1, log', m'', t2)
    ensures Handles(m, t0, log + log', m'', t2)
  {
    assert ToSet(log + log') == ToSet(log) + ToSet(log');
    assert m - ToSet(log) - ToSet(log') == m - (ToSet(log) + ToSet(log'));
    forall i | 0 <= i < |log'| ensures log'[i] !in log {
      assert log'[i] in m';
    }
  }

  // ---- Whole runs ----

  /**
   * A process with its timer: what is set, and as histories how often each callback has been set, called, and
   * cancelled or replaced. `reading` is the clock as the timer was last set from it.
   */
  datatype Process = Process(alarms: Deadlines, timer: Timer, now: nat, reading: nat,
                             sets: multiset<nat>, calls: multiset<nat>, drops: multiset<nat>)

  datatype Op = Set(h: nat, sec: nat) | Cancel(h: nat) | Signal

  /** What is called, and the clock as the handler starts. */
  datatype Event = Event(op: Op, log: seq<nat>, t: nat)

  /** DoopeyAlarm with a delay and without one, and the timer going off. */
  ghost predicate Next(p: Process, e: Event, p': Process)
  {
    && p.now <= e.t && p'.calls == p.calls + multiset(e.log)
    && match e.op
       case Set(h, sec) =>
         && 0 < sec < UNSIGNED && p'.sets == p.sets + multiset{h} && Handled(p.alarms[h := e.t + sec], e.log, e.t, p')
         && p'.drops == if h in p.alarms then p.drops + multiset{h} else p.drops
       case Cancel(h) =>
         && p'.sets == p.sets
         && if h in p.alarms then p'.drops == p.drops + multiset{h} && Handled(p.alarms - {h}, e.log, e.t, p')
            else p' == p && e.log == []
       case Signal =>
         p.timer.On? && p.timer.at <= e.t && p'.sets == p.sets && p'.drops == p.drops
           && Handled(p.alarms, e.log, e.t, p')
  }

  ghost predicate Handled(m: Deadlines, log: seq<nat>, t: nat, p': Process)
  {
    Handles(m, t, log, p'.alarms, p'.now) && t <= p'.reading <= p'.now && Arms(p'.alarms, p'.reading, p'.timer)
  }

  lemma SetIsNext(p: Process, h: nat, sec: nat, log: seq<nat>, t: nat, p': Process)
    requires p.now <= t && p'.calls == p.calls + multiset(log) && 0 < sec < UNSIGNED
    requires p'.sets == p.sets + multiset{h} && Handled(p.alarms[h := t + sec], log, t, p')
    requires p'.drops == if h in p.alarms then p.drops + multiset{h} else p.drops
    ensures Next(p, Event(Set(h, sec), log, t), p')
  {
  }

  const QUIET := Process(map[], Off, 0, 0, multiset{}, multiset{}, multiset{})

  /** Every time a callback was set it has been called once, been cancelled or replaced, or is waiting. */
  ghost predicate Conserved(p: Process) { forall x: nat :: Balanced(p, x) }

  ghost predicate Balanced(p: Process, x: nat)
  {
    p.sets[x] == p.calls[x] + p.drops[x] + if x in p.alarms then 1 else 0
  }

  ghost predicate InReach(p: Process) { forall h :: h in p.alarms ==> p.alarms[h] < p.reading + UNSIGNED }

  lemma {:induction false} CountOne(log: seq<nat>, x: nat)
    requires NoDup(log) && x in log
    ensures multiset(log)[x] == 1
  {
    var front, last := log[..|log| - 1], log[|log| - 1];
    assert log == front + [last];
    if x == last {
      assert x !in multiset(front);
    } else {
      CountOne(front, x);
    }
  }

  /** One callback in one call of the handler. */
  lemma HandledOne(m: Deadlines, log: seq<nat>, t: nat, p': Process, x: nat)
    requires Handled(m, log, t, p')
    ensures (if x in m then 1 else 0) == multiset(log)[x] + if x in p'.alarms then 1 else 0
  {
    if x in log {
      CountOne(log, x);
    }
  }

  lemma StepBalances(p: Process, e: Event, p': Process, x: nat)
    requires Balanced(p, x) && Next(p, e, p')
    ensures Balanced(p', x)
  {
    match e.op
    case Set(h, sec) => HandledOne(p.alarms[h := e.t + sec], e.log, e.t, p', x);
    case Cancel(h) =>
      if h in p.alarms {
        HandledOne(p.alarms - {h}, e.log, e.t, p', x);
      }
    case Signal => HandledOne(p.alarms, e.log, e.t, p', x);
  }

  lemma HandledInReach(m: Deadlines, log: seq<nat>, t: nat, p': Process)
    requires Handled(m, log, t, p') && forall h :: h in m ==> m[h] < t + UNSIGNED
    ensures InReach(p')
  {
  }

  ghost predicate TimerSet(p: Process)
  {
    InReach(p) && p.reading <= p.now && Arms(p.alarms, p.reading, p.timer)
  }

  lemma StepSets(p: Process, e: Event, p': Process)
    requires TimerSet(p) && Next(p, e, p')
    ensures TimerSet(p')
  {
    match e.op
    case Set(h, sec) => HandledInReach(p.alarms[h := e.t + sec], e.log, e.t, p');
    case Cancel(h) =>
      if h in p.alarms {
        HandledInReach(p.alarms - {h}, e.log, e.t, p');
      }
    case Signal => HandledInReach(p.alarms, e.log, e.t, p');
  }

  ghost predicate Good(p: Process) { Conserved(p) && TimerSet(p) }

  lemma NextGood(p: Process, e: Event, p': Process)
    requires Good(p) && Next(p, e, p')
    ensures Good(p')
  {
    forall x: nat ensures Balanced(p', x) {
      StepBalances(p, e, p', x);
    }
    StepSets(p, e, p');
  }

  ghost predicate IsRun(run: seq<Process>, events: seq<Event>)
  {
    && |run| == |events| + 1 && run[0] == QUIET
    && forall i :: 0 <= i < |events| ==> Next(run[i], events[i], run[i + 1])
  }

  /** In every run of sets, cancels and signals. */
  lemma {:induction false} RunGood(run: seq<Process>, events: seq<Event>, i: nat)
    requires IsRun(run, events) && i < |run|
    ensures Good(run[i])
    decreases i
  {
    if i > 0 {
      RunGood(run, events, i - 1);
      NextGood(run[i - 1], events[i - 1], run[i]);
    }
  }

  /**
   * At any point of a run the timer is off if nothing waits; otherwise it is set for the earliest deadline exactly
   * when the clock had not reached that deadline as the timer was set.
   */
  lemma TimerIff(run: seq<Process>, events: seq<Event>, i: nat, d: nat)
    requires IsRun(run, events) && i < |run| && IsEarliest(run[i].alarms, d)
    ensures run[i].timer == On(d) <==> run[i].reading < d
  {
    RunGood(run, events, i);
    var p := run[i];
    var h :| h in p.alarms && p.alarms[h] == d;
    var e :| IsEarliest(p.alarms, e) && p.timer == Alarmed(e, p.reading);
    OneEarliest(p.alarms, d, e);
    AlarmedIff(d, p.reading);
  }

  /** A timer set for the earliest deadline does its work when it goes off. */
  lemma SignalCalls(p: Process, e: Event, p': Process, d: nat)
    requires IsEarliest(p.alarms, d) && p.timer == On(d) && e.op.Signal? && Next(p, e, p')
    ensures e.log != [] && forall h :: h in p.alarms && p.alarms[h] == d ==> h in e.log
  {
    var h :| h in p.alarms && p.alarms[h] == d;
    forall h | h in p.alarms && p.alarms[h] == d ensures h in e.log {
      assert h !in e.log ==> h in p'.alarms;
    }
  }

  /** The other way: a clock that reaches the deadline between the last test and the setting leaves it unset. */
  lemma ReachedMeanwhile()
    ensures exists p: Process :: Next(QUIET, Event(Set(7, 1), [], 0), p) && p.alarms == map[7 := 1] && p.timer == Off
  {
    var m: Deadlines := map[7 := 1];
    var p := Process(m, Off, 1, 1, multiset{7}, multiset{}, multiset{});
    var log: seq<nat> := [];
    assert QUIET.alarms[7 := 0 + 1] == m && m - ToSet(log) == m;
    assert IsEarliest(m, 1) && Alarmed(1, 1) == Off;
    assert Handled(m, log, 0, p);
    assert Next(QUIET, Event(Set(7, 1), log, 0), p);
  }
}

module Alarms {
  import opened AlarmSpec
  import opened Sequences

  class AlarmClock {
    var alarmMap: Deadlines
    var now: nat                // the system's clock
    var timer: Timer
    var calls: seq<nat>         // the callbacks called so far
    ghost var reading: nat      // the clock as the timer was last set from it
    ghost var sets: multiset<nat>
    ghost var drops: multiset<nat>

    ghost function View(): Process
      reads this
    {
      Process(alarmMap, timer, now, reading, sets, multiset(calls), drops)
    }

    constructor ()
      ensures View() == QUIET
    {
      alarmMap, now, timer, calls, reading, sets, drops := map[], 0, Off, [], 0, multiset{}, multiset{};
    }

    /** time(): some value that is not less than the last one. */
    method Time() returns (t: nat)
      modifies `now
      ensures t == now >= old(now)
    {
      t :| t >= now;
      now := t;
    }

    /** The loop over the map, in any order: what is due is called, and the earliest of the rest is found. */
    method Pass() returns (todo: seq<nat>, min: nat)
      modifies `now, `calls
      ensures now >= old(now) && calls == old(calls) + todo && NoDup(todo)
      ensures forall h :: h in todo ==> h in alarmMap && alarmMap[h] <= now
      ensures forall h :: h in alarmMap && h !in todo ==> alarmMap[h] > old(now)
      ensures if min == 0 then alarmMap - ToSet(todo) == map[] else IsEarliest(alarmMap - ToSet(todo), min)
    {
      todo, min := [], 0;
      var it := alarmMap.Keys;
      while it != {}
        invariant it <= alarmMap.Keys && now >= old(now) && calls == old(calls) + todo && NoDup(todo)
        invariant forall h :: h in todo ==> h in alarmMap && h !in it && alarmMap[h] <= now
        invariant forall h :: h in alarmMap && h !in todo && h !in it ==> alarmMap[h] > old(now) && min != 0
        invariant min != 0 ==> IsEarliest(alarmMap - it - ToSet(todo), min)
        decreases it
      {
        var h :| h in it;
        var t := Time();
        ghost var before := todo;
        if t >= alarmMap[h] {
          calls, todo := calls + [h], todo + [h];
          assert alarmMap - it - ToSet(before) == alarmMap - (it - {h}) - ToSet(todo);
        } else {
          ghost var rest := alarmMap - (it - {h}) - ToSet(todo);
          assert rest.Keys == (alarmMap - it - ToSet(todo)).Keys + {h};
          if min == 0 || alarmMap[h] < min {
            min := alarmMap[h];
          }
        }
        it := it - {h};
      }
      assert alarmMap - it - ToSet(todo) == alarmMap - ToSet(todo);
    }

    method Erase(todo: seq<nat>)
      modifies `alarmMap
      ensures alarmMap == old(alarmMap) - ToSet(todo)
    {
      var i := 0;
      while i < |todo|
        invariant 0 <= i <= |todo| && alarmMap == old(alarmMap) - ToSet(todo[..i])
      {
        alarmMap := alarmMap - {todo[i]};
        assert ToSet(todo[..i + 1]) == ToSet(todo[..i]) + {todo[i]};
        i := i + 1;
      }
      assert todo[..i] == todo;
    }

    /** What one call does: the callbacks that were called since `before`, the map that is left, and the timer. */
    ghost predicate Did(m: Deadlines, t0: nat, before: seq<nat>)
      reads this
    {
      && before <= calls && Handles(m, t0, calls[|before|..], alarmMap, now)
      && t0 <= reading <= now && Arms(alarmMap, reading, timer)
    }

    /** One pass and a further call are one call. */
    lemma DidTwice(m: Deadlines, t0: nat, before: seq<nat>, todo: seq<nat>, mid: Deadlines, t1: nat)
      requires t0 <= t1 && NoDup(todo) && (forall h :: h in todo ==> h in m && m[h] <= t1)
      requires mid == m - ToSet(todo) && (forall h :: h in mid ==> mid[h] > t0) && Did(mid, t1, before + todo)
      ensures Did(m, t0, before)
    {
      HandlesTwice(m, t0, todo, mid, t1, calls[|before + todo|..], alarmMap, now);
      assert calls[|before|..] == todo + calls[|before + todo|..];
    }

    method Arm(min: nat)
      requires timer == Off && IsEarliest(alarmMap, min)
      modifies `now, `timer, `reading
      ensures old(now) <= reading <= now && timer == Alarmed(min, reading)
    {
      var t := Time();
      timer := Alarmed(min, t);
      reading := t;
    }

    /** One pass over the map, and the erasing of what was called. */
    method Round() returns (todo: seq<nat>, min: nat)
      modifies `alarmMap, `now, `calls, `reading
      ensures old(now) <= reading == now && calls == old(calls) + todo
      ensures Handles(old(alarmMap), old(now), todo, alarmMap, now)
      ensures if min == 0 then alarmMap == map[] else IsEarliest(alarmMap, min)
    {
      todo, min := Pass();
      Erase(todo);
      reading := now;
    }

    /** Going round again: fewer callbacks wait, or one is due now and none was before. */
    lemma GoesDown(m: Deadlines, t0: nat, todo: seq<nat>, mid: Deadlines, t1: nat, min: nat)
      requires Handles(m, t0, todo, mid, t1) && IsEarliest(mid, min)
      ensures |mid| < |m| || (mid == m && !SomeDue(m, t0) && forall t :: t >= min ==> SomeDue(mid, t))
    {
      Shrinks(m, todo);
    }

    method AlarmHandler()
      requires timer == Off
      modifies `alarmMap, `now, `timer, `calls, `reading
      ensures Did(old(alarmMap), old(now), old(calls))
      decreases |alarmMap|, if SomeDue(alarmMap, now) then 0 else 1
    {
      ghost var m, t0, before := alarmMap, now, calls;
      var todo, min := Round();
      ghost var mid, t1 := alarmMap, now;
      assert calls[|before|..] == todo;
      if min != 0 {
        GoesDown(m, t0, todo, mid, t1, min);
        var t := Time();
        if t >= min {
          t1 := now;
          AlarmHandler();
          DidTwice(m, t0, before, todo, mid, t1);
        } else {
          Arm(min);
        }
      }
    }

    lemma Shrinks(m: Deadlines, todo: seq<nat>)
      requires forall h :: h in todo ==> h in m
      ensures |m - ToSet(todo)| <= |m| && (todo != [] ==> |m - ToSet(todo)| < |m|)
      ensures todo == [] ==> m - ToSet(todo) == m
    {
      var m' := m - ToSet(todo);
      assert m.Keys == m'.Keys + ToSet(todo) && m'.Keys !! ToSet(todo);
      assert |m.Keys| == |m| && |m'.Keys| == |m'|;
      if todo != [] {
        assert todo[0] in ToSet(todo);
      }
    }

    lemma CallsSince(before: seq<nat>)
      requires before <= calls
      ensures multiset(calls) == multiset(before) + multiset(calls[|before|..])
    {
      assert calls == before + calls[|before|..];
    }

    /** alarm(0), and a call of the handler. */
    method Rehandle() returns (ghost log: seq<nat>)
      modifies `alarmMap, `now, `timer, `calls, `reading
      ensures Handled(old(alarmMap), log, old(now), View()) && View().calls == old(View().calls) + multiset(log)
      ensures old(calls) <= calls && log == calls[|old(calls)|..]
    {
      timer := Off;
      ghost var before := calls;
      AlarmHandler();
      CallsSince(before);
      log := calls[|before|..];
    }

    /** The histories of one setting. */
    ghost method Note(func: nat)
      modifies `sets, `drops
      ensures sets == old(sets) + multiset{func}
      ensures drops == if func in alarmMap then old(drops) + multiset{func} else old(drops)
    {
      drops := if func in alarmMap then drops + multiset{func} else drops;
      sets := sets + multiset{func};
    }

    method SetAlarm(func: nat, sec: nat) returns (ghost e: Event)
      requires 0 < sec < UNSIGNED
      modifies this
      ensures e.op == Set(func, sec) && Next(old(View()), e, View())
      ensures old(calls) <= calls && e.log == calls[|old(calls)|..] && old(now) <= e.t <= now
      ensures if func in e.log then e.t + sec <= now else func in alarmMap && alarmMap[func] == e.t + sec
    {
      var t := Time();
      ghost var was := old(View());
      Note(func);
      alarmMap := alarmMap[func := t + sec];
      ghost var log := Rehandle();
      SetIsNext(was, func, sec, log, t, View());
      e := Event(Set(func, sec), log, t);
    }

    method CancelAlarm(func: nat) returns (ghost e: Event)
      modifies this
      ensures e.op == Cancel(func) && Next(old(View()), e, View())
      ensures old(calls) <= calls && e.log == calls[|old(calls)|..] && func !in alarmMap && func !in e.log
    {
      if func !in alarmMap {
        return Event(Cancel(func), [], now);
      }
      alarmMap := alarmMap - {func};
      drops := drops + multiset{func};
      ghost var t := now;
      ghost var log := Rehandle();
      e := Event(Cancel(func), log, t);
    }

    method DoopeyAlarm(func: nat, sec: nat) returns (ghost e: Event)
      requires sec < UNSIGNED
      modifies this
      ensures e.op == (if sec == 0 then Cancel(func) else Set(func, sec)) && Next(old(View()), e, View())
      ensures old(calls) <= calls && e.log == calls[|old(calls)|..]
      ensures sec == 0 ==> func !in alarmMap && func !in e.log
      ensures sec > 0 ==> if func in e.log then e.t + sec <= now else func in alarmMap && alarmMap[func] == e.t + sec
      ensures forall h :: h in old(alarmMap) && h != func && h !in e.log ==>
        h in alarmMap && alarmMap[h] == old(alarmMap)[h]
    {
      if sec == 0 {
        e := CancelAlarm(func);
      } else {
        e := SetAlarm(func, sec);
      }
    }

    /** The timer goes off; the system calls the handler then, or later. */
    method Expire(late: nat) returns (ghost e: Event)
      requires timer.On?
      modifies this
      ensures e.op == Signal && Next(old(View()), e, View())
      ensures old(calls) <= calls && e.log == calls[|old(calls)|..]
      ensures forall h :: h in old(alarmMap) && old(alarmMap)[h] <= old(timer).at ==> h in e.log
    {
      now := late + if timer.at > now then timer.at else now;
      ghost var t := now;
      ghost var log := Rehandle();
      forall h | h in old(alarmMap) && h !in log ensures old(alarmMap)[h] > old(timer).at {
        assert h in alarmMap;
      }
      e := Event(Signal, log, t);
    }
  }
}
