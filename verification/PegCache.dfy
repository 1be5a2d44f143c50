/** `PEGMatcherCache`: any number of threads calling `GetMatcher` and `Invalidate`, as a state
    machine whose steps are the lock operations and the single accesses between them. */
module PegCache {
  import opened Wrappers

  type Thread = nat
  type Matcher = nat // an object identity

  /** Where a thread is in its current call. */
  datatype Pc =
    | Idle
    | WantFirst | InFirst | LeavingFirst
    | Allocating | Building(built: Matcher) | WantSecond(built: Matcher) | InSecond(built: Matcher) | Published
    | Exiting(result: Option<Matcher>)
    | WantClear | InClear | Cleared

  /** A return of GetMatcher: its value, and how many invalidations had happened by then. */
  datatype Returned = Returned(epoch: nat, value: Option<Matcher>)

  /** `born` records in which epoch each matcher was allocated. */
  datatype State = State(
    lock: Option<Thread>,
    matcher: Option<Matcher>,
    next: Matcher,
    born: map<Matcher, nat>,
    complete: set<Matcher>,
    pcs: map<Thread, Pc>,
    epoch: nat,
    log: seq<Returned>)

  ghost predicate Init(s: State)
  {
    s.lock == None && s.matcher == None && s.born == map[] && s.complete == {} && s.pcs == map[] && s.epoch == 0 &&
    s.log == []
  }

  function PcOf(s: State, t: Thread): Pc
  {
    if t in s.pcs then s.pcs[t] else Idle
  }

  /** The lock is held. */
  predicate Critical(pc: Pc)
  {
    pc.InFirst? || pc.LeavingFirst? || pc.InSecond? || pc.Published? || pc.Exiting? || pc.InClear? || pc.Cleared?
  }

  ghost predicate Go(s: State, s': State, t: Thread, pc: Pc)
  {
    s' == s.(pcs := s.pcs[t := pc])
  }

  ghost predicate Acquire(s: State, s': State, t: Thread, pc: Pc)
  {
    s.lock == None && s' == s.(lock := Some(t), pcs := s.pcs[t := pc])
  }

  ghost predicate Release(s: State, s': State, t: Thread, pc: Pc)
  {
    s' == s.(lock := None, pcs := s.pcs[t := pc])
  }

  /** One step of thread t. */
  ghost predicate Step(s: State, s': State, t: Thread)
  {
    match PcOf(s, t)
    case Idle => Go(s, s', t, WantFirst) || Go(s, s', t, WantClear)
    case WantFirst => Acquire(s, s', t, InFirst)
    case InFirst =>
      if s.matcher.Some?
      then s' == s.(pcs := s.pcs[t := Exiting(s.matcher)], log := s.log + [Returned(s.epoch, s.matcher)])
      else Go(s, s', t, LeavingFirst)
    case LeavingFirst => Release(s, s', t, Allocating)
    case Allocating =>
      s' == s.(next := s.next + 1, born := s.born[s.next := s.epoch], pcs := s.pcs[t := Building(s.next)])
    case Building(made) =>
      || s' == s.(complete := s.complete + {made}, pcs := s.pcs[t := WantSecond(made)])
      || Go(s, s', t, Idle) // compiling the grammar threw
    case WantSecond(made) => Acquire(s, s', t, InSecond(made))
    case InSecond(made) =>
      s' == s.(matcher := if s.matcher.None? then Some(made) else s.matcher, pcs := s.pcs[t := Published])
    case Published => s' == s.(pcs := s.pcs[t := Exiting(s.matcher)], log := s.log + [Returned(s.epoch, s.matcher)])
    case Exiting(_) => Release(s, s', t, Idle)
    case WantClear => Acquire(s, s', t, InClear)
    case InClear => s' == s.(matcher := None, epoch := s.epoch + 1, pcs := s.pcs[t := Cleared])
    case Cleared => Release(s, s', t, Idle)
  }

  ghost predicate Next(s: State, s': State)
  {
    exists t :: Step(s, s', t)
  }

  // ----- what every step keeps -----

  ghost predicate Exclusive(s: State)
  {
    forall t: Thread :: Critical(PcOf(s, t)) <==> s.lock == Some(t)
  }

  ghost predicate OnlyComplete(s: State)
  {
    (s.matcher.Some? ==> s.matcher.value in s.complete) &&
    (forall t :: PcOf(s, t).WantSecond? || PcOf(s, t).InSecond? ==> PcOf(s, t).built in s.complete) &&
    (forall t :: PcOf(s, t).Published? ==> s.matcher.Some?)
  }

  ghost predicate LogSound(s: State)
  {
    (forall k :: 0 <= k < |s.log| ==> s.log[k].value.Some? && s.log[k].value.value in s.complete) &&
    (forall k :: 0 <= k < |s.log| ==> s.log[k].epoch <= s.epoch) &&
    (forall k :: 0 <= k < |s.log| && s.log[k].epoch == s.epoch ==> s.log[k].value == s.matcher) &&
    (forall k, l :: 0 <= k < |s.log| && 0 <= l < |s.log| && s.log[k].epoch == s.log[l].epoch ==>
       s.log[k].value == s.log[l].value)
  }

  /** The thread holds a matcher that it has not offered to the cache yet. */
  predicate Holding(pc: Pc)
  {
    pc.Building? || pc.WantSecond? || pc.InSecond?
  }

  /** Everything in the making, in the cache or returned was allocated; what is in the making is not in the
      cache. */
  ghost predicate Allocated(s: State)
  {
    (forall m :: m in s.born ==> m < s.next) && (s.matcher.Some? ==> s.matcher.value in s.born) &&
    (forall k :: 0 <= k < |s.log| ==> s.log[k].value.Some? && s.log[k].value.value in s.born) &&
    (forall t :: Holding(PcOf(s, t)) ==> PcOf(s, t).built in s.born && s.matcher != Some(PcOf(s, t).built))
  }

  /** Matchers in the making are nobody else's: not another thread's, and never returned. */
  ghost predicate OwnMatchers(s: State)
  {
    (forall t, u :: t != u && Holding(PcOf(s, t)) && Holding(PcOf(s, u)) ==> PcOf(s, t).built != PcOf(s, u).built) &&
    (forall t, k :: Holding(PcOf(s, t)) && 0 <= k < |s.log| ==> s.log[k].value != Some(PcOf(s, t).built))
  }

  /** What was returned before an invalidation is neither in the cache nor returned after it. */
  ghost predicate EpochsApart(s: State)
  {
    (forall k :: 0 <= k < |s.log| && s.log[k].epoch < s.epoch ==> s.log[k].value != s.matcher) &&
    (forall k, l :: 0 <= k < |s.log| && 0 <= l < |s.log| && s.log[k].epoch != s.log[l].epoch ==>
       s.log[k].value != s.log[l].value)
  }

  ghost predicate Inv(s: State)
  {
    Exclusive(s) && OnlyComplete(s) && LogSound(s) && Allocated(s) && OwnMatchers(s) && EpochsApart(s)
  }

  lemma StepKeepsExclusive(s: State, s': State, t: Thread)
    requires Inv(s) && Step(s, s', t)
    ensures Exclusive(s')
  {
    forall u ensures Critical(PcOf(s', u)) <==> s'.lock == Some(u) {
      assert u != t ==> PcOf(s', u) == PcOf(s, u);
    }
  }

  lemma StepKeepsComplete(s: State, s': State, t: Thread)
    requires Inv(s) && Step(s, s', t)
    ensures OnlyComplete(s')
  {
    forall u | u != t
      ensures PcOf(s', u) == PcOf(s, u)
      ensures PcOf(s', u).WantSecond? || PcOf(s', u).InSecond? ==> PcOf(s', u).built in s'.complete
      ensures PcOf(s', u).Published? ==> s'.matcher.Some?
    {
      assert Critical(PcOf(s, t)) && Critical(PcOf(s, u)) ==> s.lock == Some(t) && s.lock == Some(u);
    }
  }

  lemma StepKeepsLog(s: State, s': State, t: Thread)
    requires Inv(s) && Step(s, s', t)
    ensures LogSound(s')
  {
    hide Exclusive, Allocated, OwnMatchers, EpochsApart;
  }

  /** A step moves no other thread. */
  lemma OthersStay(s: State, s': State, t: Thread)
    requires Step(s, s', t)
    ensures forall u :: u != t ==> PcOf(s', u) == PcOf(s, u)
  {
  }

  lemma StepKeepsAllocated(s: State, s': State, t: Thread)
    requires Inv(s) && Step(s, s', t)
    ensures Allocated(s')
  {
    hide Exclusive, LogSound, EpochsApart;
    OthersStay(s, s', t);
  }

  lemma StepKeepsOwn(s: State, s': State, t: Thread)
    requires Inv(s) && Step(s, s', t)
    ensures OwnMatchers(s')
  {
    hide Exclusive, OnlyComplete, LogSound, EpochsApart;
    OthersStay(s, s', t);
  }

  lemma StepKeepsApart(s: State, s': State, t: Thread)
    requires Inv(s) && Step(s, s', t)
    ensures EpochsApart(s')
  {
    hide Exclusive, OnlyComplete, Allocated;
  }

  /** Runs of the protocol: every interleaving of every number of calls. */
  ghost predicate IsRun(run: seq<State>)
  {
    |run| > 0 && Init(run[0]) && forall k :: 0 <= k < |run| - 1 ==> Next(run[k], run[k + 1])
  }

  lemma {:induction false} RunKeepsInv(run: seq<State>, k: nat)
    requires IsRun(run) && k < |run|
    ensures Inv(run[k])
  {
    if k > 0 {
      RunKeepsInv(run, k - 1);
      assert Next(run[k - 1], run[k - 1 + 1]);
      var t :| Step(run[k - 1], run[k], t);
      StepKeepsExclusive(run[k - 1], run[k], t);
      StepKeepsComplete(run[k - 1], run[k], t);
      StepKeepsLog(run[k - 1], run[k], t);
      StepKeepsAllocated(run[k - 1], run[k], t);
      StepKeepsOwn(run[k - 1], run[k], t);
      StepKeepsApart(run[k - 1], run[k], t);
    }
  }

  /** In every run: at most one thread is between lock and unlock; what is published is fully built;
      GetMatcher never returns null; and two calls return the same object if and only if they return
      between the same two invalidations. */
  lemma CacheIsSafe(run: seq<State>)
    requires IsRun(run)
    ensures var s := run[|run| - 1];
            forall t, u :: Critical(PcOf(s, t)) && Critical(PcOf(s, u)) ==> t == u
    ensures forall k :: 0 <= k < |run| && run[k].matcher.Some? ==> run[k].matcher.value in run[k].complete
    ensures var log := run[|run| - 1].log;
            forall k :: 0 <= k < |log| ==> log[k].value.Some? && log[k].value.value in run[|run| - 1].complete
    ensures var log := run[|run| - 1].log;
            forall k, l :: 0 <= k < |log| && 0 <= l < |log| ==>
              (log[k].epoch == log[l].epoch <==> log[k].value == log[l].value)
  {
    forall k | 0 <= k < |run| ensures Inv(run[k]) {
      RunKeepsInv(run, k);
    }
    assert Inv(run[|run| - 1]);
  }

  // ----- stale matchers -----

  /** Nothing older than the last invalidation is in the making or in the cache, or was ever returned. */
  ghost predicate Fresh(s: State)
  {
    (forall t :: Holding(PcOf(s, t)) ==> PcOf(s, t).built in s.born && s.born[PcOf(s, t).built] == s.epoch) &&
    (s.matcher.Some? ==> s.matcher.value in s.born && s.born[s.matcher.value] == s.epoch) &&
    (forall k :: 0 <= k < |s.log| ==>
       s.log[k].value.Some? && s.log[k].value.value in s.born && s.born[s.log[k].value.value] == s.log[k].epoch)
  }

  /** No thread is making a matcher when the cache is invalidated. */
  ghost predicate Quiet(run: seq<State>)
  {
    forall k, t :: 0 <= k < |run| - 1 && run[k + 1].epoch != run[k].epoch ==> !Holding(PcOf(run[k], t))
  }

  /** Then every call returns a matcher whose making began after the last invalidation. */
  lemma {:induction false} QuietIsFresh(run: seq<State>, k: nat)
    requires IsRun(run) && Quiet(run) && k < |run|
    ensures Fresh(run[k])
  {
    if k > 0 {
      QuietIsFresh(run, k - 1);
      RunKeepsInv(run, k - 1);
      assert Next(run[k - 1], run[k - 1 + 1]);
      var t :| Step(run[k - 1], run[k], t);
      var before := run[k - 1];
      if run[k].epoch != before.epoch {
        forall u ensures !Holding(PcOf(before, u)) { assert run[k - 1 + 1].epoch != run[k - 1].epoch; }
      }
      FreshStep(before, run[k], t);
    }
  }

  lemma FreshStep(s: State, s': State, t: Thread)
    requires Inv(s) && Fresh(s) && Step(s, s', t) && (s'.epoch != s.epoch ==> forall u :: !Holding(PcOf(s, u)))
    ensures Fresh(s')
  {
    hide Exclusive, LogSound, OwnMatchers, EpochsApart;
    OthersStay(s, s', t);
  }

  /** And if a thread is, the run can go on so that the next call returns a matcher that is older than the
      invalidation: `s` is the state just after it, t the thread that was overtaken. */
  lemma OvertakenIsStale(s: State, t: Thread, u: Thread) returns (more: seq<State>)
    requires Inv(s) && PcOf(s, u).Cleared? && s.matcher == None
    requires Holding(PcOf(s, t)) && s.born[PcOf(s, t).built] < s.epoch
    ensures more != [] && Next(s, more[0]) && forall k :: 0 <= k < |more| - 1 ==> Next(more[k], more[k + 1])
    ensures var last := more[|more| - 1];
            last.epoch == s.epoch && last.log == s.log + [Returned(s.epoch, Some(PcOf(s, t).built))] &&
            last.born == s.born
  {
    hide OnlyComplete, LogSound, OwnMatchers, EpochsApart;
    var made := PcOf(s, t).built;
    assert Critical(PcOf(s, u)) && s.lock == Some(u);
    var a := s.(lock := None, pcs := s.pcs[u := Idle]);
    assert Step(s, a, u) && PcOf(a, t) == PcOf(s, t);
    var b := a.(complete := a.complete + {made}, pcs := a.pcs[t := WantSecond(made)]);
    var from := if PcOf(a, t).Building? then b else a;
    assert PcOf(a, t).Building? ==> Step(a, b, t);
    assert !PcOf(s, t).InSecond? by { assert Critical(PcOf(s, t)) ==> s.lock == Some(t); }
    var c := from.(lock := Some(t), pcs := from.pcs[t := InSecond(made)]);
    assert Step(from, c, t);
    var d := c.(matcher := Some(made), pcs := c.pcs[t := Published]);
    assert Step(c, d, t);
    var e := d.(pcs := d.pcs[t := Exiting(d.matcher)], log := d.log + [Returned(d.epoch, d.matcher)]);
    assert Step(d, e, t);
    more := if PcOf(a, t).Building? then [a, b, c, d, e] else [a, c, d, e];
  }

  /** Such a run: one thread is making a matcher while another invalidates the cache. */
  lemma StaleRun() returns (run: seq<State>)
    ensures IsRun(run)
    ensures var last := run[|run| - 1];
            |last.log| == 1 && last.log[0].epoch == 1 && last.log[0].value == Some(0) && 0 in last.born &&
            last.born[0] == 0
  {
    hide Inv, IsRun, Step;
    var making := OneMakes();
    run := AnotherClears(making);
    RunEndsWell(run);
    var more := OvertakenIsStale(run[|run| - 1], 0, 1);
    RunGoesOn(run, more);
    run := run + more;
  }

  lemma RunEndsWell(run: seq<State>)
    requires IsRun(run)
    ensures Inv(run[|run| - 1])
  {
    RunKeepsInv(run, |run| - 1);
  }

  const MAKING: State := State(None, None, 1, map[0 := 0], {}, map[0 := Building(0)], 0, [])

  const CLEARED: State := State(Some(1), None, 1, map[0 := 0], {}, map[0 := Building(0), 1 := Cleared], 1, [])

  lemma OneMakes() returns (run: seq<State>)
    ensures run != [] && IsRun(run) && run[|run| - 1] == MAKING
  {
    var s0 := State(None, None, 0, map[], {}, map[], 0, []);
    var s1 := s0.(pcs := map[0 := WantFirst]);
    var s2 := s1.(lock := Some(0), pcs := map[0 := InFirst]);
    var s3 := s2.(pcs := map[0 := LeavingFirst]);
    var s4 := s3.(lock := None, pcs := map[0 := Allocating]);
    assert Next(s0, s1) by { assert Step(s0, s1, 0); }
    assert Next(s1, s2) by { assert Step(s1, s2, 0); }
    assert Next(s2, s3) by { assert Step(s2, s3, 0); }
    assert Next(s3, s4) by { assert Step(s3, s4, 0); }
    assert Next(s4, MAKING) by { assert Step(s4, MAKING, 0); }
    run := [s0, s1, s2, s3, s4, MAKING];
  }

  lemma AnotherClears(making: seq<State>) returns (run: seq<State>)
    requires IsRun(making) && making[|making| - 1] == MAKING
    ensures run != [] && IsRun(run) && run[|run| - 1] == CLEARED
  {
    hide IsRun;
    var a := MAKING.(pcs := map[0 := Building(0), 1 := WantClear]);
    var b := a.(lock := Some(1), pcs := map[0 := Building(0), 1 := InClear]);
    assert Next(MAKING, a) by { assert Step(MAKING, a, 1); }
    assert Next(a, b) by { assert Step(a, b, 1); }
    assert Next(b, CLEARED) by { assert Step(b, CLEARED, 1); }
    RunGoesOn(making, [a, b, CLEARED]);
    run := making + [a, b, CLEARED];
  }

  lemma RunGoesOn(run: seq<State>, more: seq<State>)
    requires IsRun(run) && more != [] && Next(run[|run| - 1], more[0])
    requires forall k :: 0 <= k < |more| - 1 ==> Next(more[k], more[k + 1])
    ensures IsRun(run + more)
  {
    hide Next;
    var all := run + more;
    forall k | 0 <= k < |all| - 1 ensures Next(all[k], all[k + 1]) {
      if k < |run| - 1 {
        assert Next(run[k], run[k + 1]);
      } else if k > |run| - 1 {
        assert Next(more[k - |run|], more[k - |run| + 1]);
      }
    }
  }
}
