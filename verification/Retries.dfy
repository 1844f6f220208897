/** How many uploads the retry loop starts, and how far apart their failures are. */
module Retries {
  import opened Text
  import opened Timestamps
  import opened Protocol

  predicate Counts(a: Attempt, n: string, asyncOnly: bool) {
    a.name == n && (asyncOnly ==> !a.sync)
  }

  /** Uploads of `n` in flight. */
  function Count(s: seq<Attempt>, n: string, asyncOnly: bool): nat {
    if s == [] then 0 else (if Counts(s[0], n, asyncOnly) then 1 else 0) + Count(s[1..], n, asyncOnly)
  }

  function AsyncInFlight(s: State, n: string): nat {
    Count(s.attempts, n, true)
  }

  lemma {:induction false} CountConcat(s: seq<Attempt>, t: seq<Attempt>, n: string, asyncOnly: bool)
    ensures Count(s + t, n, asyncOnly) == Count(s, n, asyncOnly) + Count(t, n, asyncOnly)
  {
    if s == [] {
      assert s + t == t;
    } else {
      assert (s + t)[1..] == s[1..] + t;
      CountConcat(s[1..], t, n, asyncOnly);
    }
  }

  lemma CountOne(a: Attempt, n: string, asyncOnly: bool)
    ensures Count([a], n, asyncOnly) == if Counts(a, n, asyncOnly) then 1 else 0
  {
    assert [a][1..] == [];
  }

  lemma CountSplit(s: seq<Attempt>, i: nat, n: string, asyncOnly: bool)
    requires i < |s|
    ensures Count(s, n, asyncOnly)
         == Count(s[..i], n, asyncOnly) + (if Counts(s[i], n, asyncOnly) then 1 else 0) + Count(s[i + 1..], n, asyncOnly)
  {
    assert s == s[..i] + ([s[i]] + s[i + 1..]);
    CountConcat(s[..i], [s[i]] + s[i + 1..], n, asyncOnly);
    CountConcat([s[i]], s[i + 1..], n, asyncOnly);
    CountOne(s[i], n, asyncOnly);
  }

  lemma CountRemove(s: seq<Attempt>, i: nat, n: string, asyncOnly: bool)
    requires i < |s|
    ensures Count(s, n, asyncOnly) == Count(RemoveAt(s, i), n, asyncOnly) + (if Counts(s[i], n, asyncOnly) then 1 else 0)
  {
    CountSplit(s, i, n, asyncOnly);
    CountConcat(s[..i], s[i + 1..], n, asyncOnly);
  }

  lemma CountUpdate(s: seq<Attempt>, i: nat, a: Attempt, n: string, asyncOnly: bool)
    requires i < |s| && a.name == s[i].name && a.sync == s[i].sync
    ensures Count(s[i := a], n, asyncOnly) == Count(s, n, asyncOnly)
  {
    CountSplit(s, i, n, asyncOnly);
    CountSplit(s[i := a], i, n, asyncOnly);
    assert s[i := a][..i] == s[..i] && s[i := a][i + 1..] == s[i + 1..];
  }

  lemma CountAppend(s: seq<Attempt>, a: Attempt, n: string, asyncOnly: bool)
    ensures Count(s + [a], n, asyncOnly) == Count(s, n, asyncOnly) + (if Counts(a, n, asyncOnly) then 1 else 0)
  {
    CountConcat(s, [a], n, asyncOnly);
    CountOne(a, n, asyncOnly);
  }

  /** A tick starts one upload for each admitted name. */
  lemma {:induction false} CountSpawned(cfg: Config, s: State, names: seq<string>, now: int, n: string, asyncOnly: bool)
    requires NoDuplicates(names) && forall m :: m in names ==> Admissible(cfg, s, m, now)
    ensures Count(Spawned(cfg, s, names, now), n, asyncOnly) == if n in names then 1 else 0
  {
    hide Admissible, GetDatabaseByID;
    if names != [] {
      var last := |names| - 1;
      CountSpawned(cfg, s, names[..last], now, n, asyncOnly);
      CountAppend(Spawned(cfg, s, names[..last], now), Retry(cfg, s, names[last], now), n, asyncOnly);
      assert names == names[..last] + [names[last]];
    }
  }

  /** What one step does to the number of uploads of `n` in flight. */
  lemma CountAfterFail(s: State, i: nat, n: string, asyncOnly: bool)
    requires i < |s.attempts|
    ensures var gone := s.attempts[i].sync && s.attempts[i].name == n && !asyncOnly;
            Count(Fail(s, i).attempts, n, asyncOnly) == Count(s.attempts, n, asyncOnly) - (if gone then 1 else 0)
  {
    var a := s.attempts[i];
    if a.sync {
      CountRemove(s.attempts, i, n, asyncOnly);
    } else {
      CountUpdate(s.attempts, i, a.(phase := Failed), n, asyncOnly);
    }
  }

  /** `n` is launched by a tick that admits it. */
  predicate LaunchesRetry(a: Action, n: string) {
    a.Tick? && n in a.admitted
  }

  /** A step that neither queues nor crashes adds one upload per launch and ends at most one. */
  lemma CountStep(cfg: Config, s: State, a: Action, n: string, asyncOnly: bool)
    requires Enabled(cfg, s, a) && !a.EnqueueRow?
    ensures var c, c' := Count(s.attempts, n, asyncOnly), Count(Apply(cfg, s, a).attempts, n, asyncOnly);
            if a.Crash? then c' == 0
            else if LaunchesRetry(a, n) then c' == c + 1
            else if a.Increment? || a.RemoveRow? then c' == c - (if Counts(s.attempts[a.attempt], n, asyncOnly) then 1 else 0)
            else c' <= c && (asyncOnly ==> c' == c)
  {
    hide Count;
    match a
    case Load(i, ok) =>
      if ok {
        CountUpdate(s.attempts, i, s.attempts[i].(phase := Loaded(s.files[s.attempts[i].name])), n, asyncOnly);
      } else {
        CountAfterFail(s, i, n, asyncOnly);
      }
    case Put(i, outcome) => CountPut(cfg, s, i, outcome, n, asyncOnly);
    case RemoveRow(i, _) => CountRemove(s.attempts, i, n, asyncOnly);
    case Increment(i, _) => CountRemove(s.attempts, i, n, asyncOnly);
    case Tick(names, now) =>
      CountConcat(s.attempts, Spawned(cfg, s, names, now), n, asyncOnly);
      CountSpawned(cfg, s, names, now, n, asyncOnly);
    case Crash => CountNone(n, asyncOnly);
    case _ =>
  }

  lemma CountNone(n: string, asyncOnly: bool)
    ensures Count([], n, asyncOnly) == 0
  {
  }

  lemma CountPut(cfg: Config, s: State, i: nat, outcome: PutOutcome, n: string, asyncOnly: bool)
    requires i < |s.attempts| && s.attempts[i].phase.Loaded?
    ensures var c, c' := Count(s.attempts, n, asyncOnly), Count(PutDone(cfg, s, i, outcome).attempts, n, asyncOnly);
            c' <= c && (asyncOnly ==> c' == c)
  {
    hide Count, KeyOf;
    var s' := if outcome.Refused? then s else s.(remote := s.remote[KeyOf(cfg, s.attempts[i]) := s.attempts[i].phase.bytes]);
    if outcome.Stored? {
      CountUpdate(s'.attempts, i, s.attempts[i].(phase := Uploaded), n, asyncOnly);
    } else {
      CountAfterFail(s', i, n, asyncOnly);
    }
  }

  // ---------------------------------------------------------------- the retry bound

  /** At no point of the run do more than `m` uploads of `n`, or of the asynchronous ones alone, overlap. */
  predicate OverlapAtMost(cfg: Config, s: State, acts: seq<Action>, n: string, m: nat, asyncOnly: bool)
    requires Legal(cfg, s, acts)
    decreases |acts|
  {
    && Count(s.attempts, n, asyncOnly) <= m
    && (acts == [] || OverlapAtMost(cfg, Apply(cfg, s, acts[0]), acts[1..], n, m, asyncOnly))
  }

  predicate Bounded(s: State, n: string, m: nat, asyncOnly: bool) {
    n in s.rows ==> s.rows[n].retryCount + Count(s.attempts, n, asyncOnly) <= MAX_RETRIES - 1 + m
  }

  /** A synchronous upload that fails is over: only asynchronous ones go on to count the failure. */
  predicate FailedAreAsync(s: State) {
    forall a :: a in s.attempts && a.phase.Failed? ==> !a.sync
  }

  lemma FailKeepsAsync(s: State, i: nat)
    requires FailedAreAsync(s) && i < |s.attempts|
    ensures FailedAreAsync(Fail(s, i))
  {
  }

  lemma StepKeepsAsync(cfg: Config, s: State, a: Action)
    requires FailedAreAsync(s) && Enabled(cfg, s, a)
    ensures FailedAreAsync(Apply(cfg, s, a))
  {
    hide Fail, NoDuplicates, GetDatabaseByID, KeyOf, FileName;
    match a
    case Load(i, _) => FailKeepsAsync(s, i);
    case Put(i, outcome) =>
      var s' := if outcome.Refused? then s else s.(remote := s.remote[KeyOf(cfg, s.attempts[i]) := s.attempts[i].phase.bytes]);
      FailKeepsAsync(s', i);
    case _ =>
  }

  lemma StepKeepsBound(cfg: Config, s: State, a: Action, n: string, m: nat, asyncOnly: bool)
    requires Bounded(s, n, m, asyncOnly) && FailedAreAsync(s) && Enabled(cfg, s, a)
    requires Count(Apply(cfg, s, a).attempts, n, asyncOnly) <= m
    ensures Bounded(Apply(cfg, s, a), n, m, asyncOnly)
  {
    hide Apply, Enabled, FailedAreAsync, Count;
    if n in Apply(cfg, s, a).rows {
      RowStep(cfg, s, a, n, asyncOnly);
    }
  }

  /** `a` counts a failure of row `n`. */
  predicate CountsFailure(s: State, a: Action, n: string) {
    a.Increment? && a.dbOk && a.attempt < |s.attempts| && s.attempts[a.attempt].name == n
  }

  /** What one step does to a row that is there afterwards. */
  lemma RetryCountStep(cfg: Config, s: State, a: Action, n: string)
    requires Enabled(cfg, s, a) && n in Apply(cfg, s, a).rows
    ensures a.EnqueueRow? && s.saved[a.backup].name == n ==> Apply(cfg, s, a).rows[n].retryCount == 0
    ensures !(a.EnqueueRow? && s.saved[a.backup].name == n) ==>
              n in s.rows
              && Apply(cfg, s, a).rows[n].retryCount == s.rows[n].retryCount + (if CountsFailure(s, a, n) then 1 else 0)
  {
    if a.Increment? {
      RetryCountIncrement(s, a.attempt, a.dbOk, n);
    } else if !a.EnqueueRow? && !a.RemoveRow? {
      RowsUntouched(cfg, s, a);
    }
  }

  lemma RetryCountIncrement(s: State, i: nat, dbOk: bool, n: string)
    requires i < |s.attempts| && n in Counted(s, i, dbOk).rows
    ensures n in s.rows
    ensures Counted(s, i, dbOk).rows[n].retryCount
         == s.rows[n].retryCount + (if CountsFailure(s, Increment(i, dbOk), n) then 1 else 0)
  {
  }

  lemma RowsUntouched(cfg: Config, s: State, a: Action)
    requires Enabled(cfg, s, a) && !a.Increment? && !a.EnqueueRow? && !a.RemoveRow?
    ensures Apply(cfg, s, a).rows == s.rows && Apply(cfg, s, a).failures == s.failures
  {
    match a
    case Put(i, outcome) => PutLeavesRows(cfg, s, i, outcome);
    case _ =>
  }

  lemma PutLeavesRows(cfg: Config, s: State, i: nat, outcome: PutOutcome)
    requires i < |s.attempts| && s.attempts[i].phase.Loaded?
    ensures PutDone(cfg, s, i, outcome).rows == s.rows && PutDone(cfg, s, i, outcome).failures == s.failures
  {
  }

  lemma EnqueueCount(cfg: Config, s: State, i: nat, sync: bool, n: string, asyncOnly: bool)
    requires i < |s.saved|
    ensures var c := Count(s.attempts, n, asyncOnly);
            c <= Count(Enqueued(cfg, s, i, sync).attempts, n, asyncOnly) <= c + 1
    ensures s.saved[i].name != n ==> Count(Enqueued(cfg, s, i, sync).attempts, n, asyncOnly) == Count(s.attempts, n, asyncOnly)
  {
    var b := s.saved[i];
    CountAppend(s.attempts, Attempt(b.name, b.database, s.clock, sync, s.clock.nanos, Admitted), n, asyncOnly);
  }

  lemma FailedIsCounted(s: State, i: nat, n: string, asyncOnly: bool)
    requires FailedAreAsync(s) && InPhase(s, i, Failed)
    ensures Counts(s.attempts[i], n, asyncOnly) <==> s.attempts[i].name == n
  {
    assert s.attempts[i] in s.attempts;
  }

  /** One step's effect on one row's failures and uploads in flight together. */
  lemma RowStep(cfg: Config, s: State, a: Action, n: string, asyncOnly: bool)
    requires Enabled(cfg, s, a) && FailedAreAsync(s) && n in Apply(cfg, s, a).rows
    ensures var s' := Apply(cfg, s, a);
            || (s'.rows[n].retryCount < MAX_RETRIES && LaunchesRetry(a, n))
            || s'.rows[n].retryCount == 0
            || (n in s.rows
                && s'.rows[n].retryCount + Count(s'.attempts, n, asyncOnly) <= s.rows[n].retryCount + Count(s.attempts, n, asyncOnly))
  {
    RetryCountStep(cfg, s, a, n);
    if a.EnqueueRow? {
      EnqueueCount(cfg, s, a.backup, a.sync, n, asyncOnly);
    } else {
      CountStep(cfg, s, a, n, asyncOnly);
      if a.Increment? {
        FailedIsCounted(s, a.attempt, n, asyncOnly);
      }
    }
  }

  lemma {:induction false} RunKeepsBound(cfg: Config, s: State, acts: seq<Action>, n: string, m: nat, asyncOnly: bool)
    requires Bounded(s, n, m, asyncOnly) && FailedAreAsync(s) && Legal(cfg, s, acts) && OverlapAtMost(cfg, s, acts, n, m, asyncOnly)
    ensures Bounded(Run(cfg, s, acts), n, m, asyncOnly)
    decreases |acts|
  {
    hide Apply, Enabled, FailedAreAsync, Bounded, Count;
    if acts != [] {
      var s' := Apply(cfg, s, acts[0]);
      assert OverlapAtMost(cfg, s', acts[1..], n, m, asyncOnly);
      StepKeepsAsync(cfg, s, acts[0]);
      StepKeepsBound(cfg, s, acts[0], n, m, asyncOnly);
      RunKeepsBound(cfg, s', acts[1..], n, m, asyncOnly);
    }
  }

  /**
   Retries are bounded by how far the uploads of the row itself overlap: if at most `m` of them are ever in
   flight together, its retry count and its uploads in flight never exceed 4 + m together. This holds of all
   its uploads, and of the asynchronous ones alone. So as long as those do not overlap the count stops at
   five, as documented, whatever synchronous uploads and other rows do.
   */
  lemma RetriesAreBounded(cfg: Config, acts: seq<Action>, n: string, m: nat, asyncOnly: bool)
    requires Legal(cfg, INITIAL, acts) && OverlapAtMost(cfg, INITIAL, acts, n, m, asyncOnly)
    requires n in Run(cfg, INITIAL, acts).rows
    ensures var s := Run(cfg, INITIAL, acts);
            s.rows[n].retryCount + Count(s.attempts, n, asyncOnly) <= 4 + m
  {
    RunKeepsBound(cfg, INITIAL, acts, n, m, asyncOnly);
  }

  // ---------------------------------------------------------------- the bound is reached

  lemma {:induction false} CountAtMost(s: seq<Attempt>, n: string, asyncOnly: bool)
    ensures Count(s, n, asyncOnly) <= |s|
  {
    if s != [] {
      CountAtMost(s[1..], n, asyncOnly);
    }
  }

  lemma OverlapFirst(cfg: Config, s: State, a: Action, rest: seq<Action>, n: string, m: nat, asyncOnly: bool)
    requires Enabled(cfg, s, a) && Legal(cfg, Apply(cfg, s, a), rest) && Legal(cfg, s, [a] + rest)
    requires |s.attempts| <= m && OverlapAtMost(cfg, Apply(cfg, s, a), rest, n, m, asyncOnly)
    ensures OverlapAtMost(cfg, s, [a] + rest, n, m, asyncOnly)
  {
    CountAtMost(s.attempts, n, asyncOnly);
    assert ([a] + rest)[1..] == rest;
  }

  lemma NothingOverlaps(cfg: Config, s: State, n: string, m: nat, asyncOnly: bool)
    requires |s.attempts| <= m
    ensures Legal(cfg, s, []) && Run(cfg, s, []) == s && OverlapAtMost(cfg, s, [], n, m, asyncOnly)
  {
    CountAtMost(s.attempts, n, asyncOnly);
  }

  /** With at most `m` uploads in flight at any time, no more overlap. */
  lemma {:induction false} OverlapOfSteps(cfg: Config, states: seq<State>, acts: seq<Action>, n: string, m: nat, asyncOnly: bool)
    requires |states| == |acts| + 1 && (forall i :: 0 <= i < |states| ==> |states[i].attempts| <= m)
    requires forall i :: 0 <= i < |acts| ==> StepsTo(cfg, states[i], acts[i], states[i + 1])
    ensures Legal(cfg, states[0], acts) && OverlapAtMost(cfg, states[0], acts, n, m, asyncOnly)
    decreases |acts|
  {
    CountAtMost(states[0].attempts, n, asyncOnly);
    if acts != [] {
      assert StepsTo(cfg, states[0], acts[0], states[1]);
      forall i | 0 <= i < |acts[1..]|
        ensures StepsTo(cfg, states[1..][i], acts[1..][i], states[1..][i + 1])
      {
        assert StepsTo(cfg, states[i + 1], acts[i + 1], states[i + 2]);
      }
      OverlapOfSteps(cfg, states[1..], acts[1..], n, m, asyncOnly);
    }
  }

  lemma {:induction false} OverlapConcat(cfg: Config, s: State, xs: seq<Action>, ys: seq<Action>, n: string, m: nat, asyncOnly: bool)
    requires Legal(cfg, s, xs) && Legal(cfg, Run(cfg, s, xs), ys) && Legal(cfg, s, xs + ys)
    requires OverlapAtMost(cfg, s, xs, n, m, asyncOnly) && OverlapAtMost(cfg, Run(cfg, s, xs), ys, n, m, asyncOnly)
    ensures OverlapAtMost(cfg, s, xs + ys, n, m, asyncOnly)
    decreases |xs|
  {
    hide Apply, Enabled;
    if xs == [] {
      assert xs + ys == ys;
    } else {
      assert (xs + ys)[1..] == xs[1..] + ys;
      OverlapConcat(cfg, Apply(cfg, s, xs[0]), xs[1..], ys, n, m, asyncOnly);
    }
  }

  function Copies(a: Attempt, k: nat): (r: seq<Attempt>)
    ensures |r| == k
  {
    if k == 0 then [] else [a] + Copies(a, k - 1)
  }

  lemma CopiesFrom(s: seq<Attempt>, a: Attempt, k: nat)
    ensures k > 0 ==> (s + [a]) + Copies(a, k - 1) == s + Copies(a, k)
    ensures k == 0 ==> s + Copies(a, k) == s
  {
  }

  /** A due row is admitted by every tick, whatever is in flight for it already. */
  lemma {:induction false} TicksPileUp(cfg: Config, s: State, n: string, now: int, k: nat, m: nat) returns (acts: seq<Action>)
    requires Admissible(cfg, s, n, now) && |s.attempts| + k <= m
    ensures Legal(cfg, s, acts) && Run(cfg, s, acts) == s.(attempts := s.attempts + Copies(Retry(cfg, s, n, now), k))
    ensures OverlapAtMost(cfg, s, acts, n, m, true)
    decreases k
  {
    hide Apply, Enabled, Copies, Eligible, OverlapAtMost, Legal, Run;
    var a := Retry(cfg, s, n, now);
    CopiesFrom(s.attempts, a, k);
    if k == 0 {
      acts := [];
      NothingOverlaps(cfg, s, n, m, true);
    } else {
      var s' := s.(attempts := s.attempts + [a]);
      TickAddsOne(cfg, s, n, now);
      var rest := TicksPileUp(cfg, s', n, now, k - 1, m);
      acts := [Tick([n], now)] + rest;
      FirstStep(cfg, s, Tick([n], now), rest);
      OverlapFirst(cfg, s, Tick([n], now), rest, n, m, true);
    }
  }

  lemma FirstFails(cfg: Config, s: State, n: string, a: Attempt, k: nat)
    requires n in s.rows && a.name == n && !a.sync && a.phase.Admitted? && 0 < k && s.attempts == Copies(a, k)
    ensures var s1 := s.(attempts := s.attempts[0 := a.(phase := Failed)]);
            var s2 := Counted(s1, 0, true);
            && StepsTo(cfg, s, Load(0, false), s1) && StepsTo(cfg, s1, Increment(0, true), s2)
            && s2.attempts == Copies(a, k - 1)
            && n in s2.rows && s2.rows[n].retryCount == s.rows[n].retryCount + 1
  {
    var s1 := s.(attempts := s.attempts[0 := a.(phase := Failed)]);
    assert s1.attempts[1..] == Copies(a, k - 1);
  }

  /** And each of those uploads counts its own failure. */
  lemma {:induction false} FailuresPileUp(cfg: Config, s: State, n: string, a: Attempt, k: nat, m: nat) returns (acts: seq<Action>)
    requires n in s.rows && a.name == n && !a.sync && a.phase.Admitted? && s.attempts == Copies(a, k) && k <= m
    ensures Legal(cfg, s, acts) && OverlapAtMost(cfg, s, acts, n, m, true)
    ensures var s' := Run(cfg, s, acts); n in s'.rows && s'.rows[n].retryCount == s.rows[n].retryCount + k
    decreases k
  {
    hide Apply, Enabled, Copies, OverlapAtMost, Legal, Run, Counted;
    if k == 0 {
      acts := [];
      NothingOverlaps(cfg, s, n, m, true);
    } else {
      FirstFails(cfg, s, n, a, k);
      var s1 := s.(attempts := s.attempts[0 := a.(phase := Failed)]);
      var s2 := Counted(s1, 0, true);
      var rest := FailuresPileUp(cfg, s2, n, a, k - 1, m);
      acts := [Load(0, false)] + ([Increment(0, true)] + rest);
      FirstStep(cfg, s1, Increment(0, true), rest);
      OverlapFirst(cfg, s1, Increment(0, true), rest, n, m, true);
      FirstStep(cfg, s, Load(0, false), [Increment(0, true)] + rest);
      OverlapFirst(cfg, s, Load(0, false), [Increment(0, true)] + rest, n, m, true);
    }
  }

  /** A due row is launched k times over at one time, and every one of these uploads counts its failure. */
  lemma BurstRuns(cfg: Config, s: State, n: string, now: int, k: nat, m: nat) returns (acts: seq<Action>)
    requires s.attempts == [] && Admissible(cfg, s, n, now) && k <= m
    ensures Legal(cfg, s, acts) && OverlapAtMost(cfg, s, acts, n, m, true)
    ensures var s' := Run(cfg, s, acts); n in s'.rows && s'.rows[n].retryCount == s.rows[n].retryCount + k
  {
    hide Legal, Run, OverlapAtMost, Eligible, Copies;
    var a := Retry(cfg, s, n, now);
    var ticks := TicksPileUp(cfg, s, n, now, k, m);
    var t := s.(attempts := s.attempts + Copies(a, k));
    assert t.attempts == Copies(a, k);
    var fails := FailuresPileUp(cfg, t, n, a, k, m);
    RunConcat(cfg, s, ticks, fails);
    OverlapConcat(cfg, s, ticks, fails, n, m, true);
    acts := ticks + fails;
  }

  predicate RunsTo(cfg: Config, s: State, acts: seq<Action>, n: string, m: nat, t: State) {
    Legal(cfg, s, acts) && Run(cfg, s, acts) == t && OverlapAtMost(cfg, s, acts, n, m, true)
  }

  /** Some run in which at most `m` asynchronous uploads of `n` overlap leads from `s` to `t`. */
  ghost predicate Reaches(cfg: Config, s: State, n: string, m: nat, t: State) {
    exists acts :: RunsTo(cfg, s, acts, n, m, t)
  }

  lemma ReachesItself(cfg: Config, s: State, n: string, m: nat)
    requires |s.attempts| <= m
    ensures Reaches(cfg, s, n, m, s)
  {
    hide OverlapAtMost, Legal, Run;
    NothingOverlaps(cfg, s, n, m, true);
    assert RunsTo(cfg, s, [], n, m, s);
  }

  lemma ReachesOn(cfg: Config, s: State, t: State, u: State, n: string, m: nat)
    requires Reaches(cfg, s, n, m, t) && Reaches(cfg, t, n, m, u)
    ensures Reaches(cfg, s, n, m, u)
  {
    hide OverlapAtMost, Legal, Run;
    var xs :| RunsTo(cfg, s, xs, n, m, t);
    var ys :| RunsTo(cfg, t, ys, n, m, u);
    RunConcat(cfg, s, xs, ys);
    OverlapConcat(cfg, s, xs, ys, n, m, true);
    assert RunsTo(cfg, s, xs + ys, n, m, u);
  }

  lemma RunReaches(cfg: Config, s: State, acts: seq<Action>, n: string, m: nat)
    requires Legal(cfg, s, acts) && OverlapAtMost(cfg, s, acts, n, m, true)
    ensures Reaches(cfg, s, n, m, Run(cfg, s, acts))
  {
    hide Legal, Run, OverlapAtMost;
    assert RunsTo(cfg, s, acts, n, m, Run(cfg, s, acts));
  }

  /** When a row may next be retried. */
  function DueTime(row: Row, clock: int): int {
    if row.lastRetryAt.None? || row.lastRetryAt.value + Backoff(row.retryCount) <= clock then clock
    else row.lastRetryAt.value + Backoff(row.retryCount)
  }

  /** Wait until the row is due, tick, fail and count. */
  function Round(n: string, at: Time): seq<Action> {
    [SetClock(at), Tick([n], at.nanos), Load(0, false), Increment(0, true)]
  }

  function FailureTimes(s: State, n: string): seq<int> {
    if n in s.failures then s.failures[n] else []
  }

  lemma RoundRuns(cfg: Config, s: State, n: string, m: nat) returns (t: State)
    requires s.attempts == [] && 1 <= m && n in s.rows && s.rows[n].retryCount < MAX_RETRIES
    requires GetDatabaseByID(cfg, s.rows[n].databaseID).Some?
    ensures Reaches(cfg, s, n, m, t)
    ensures t.attempts == [] && n in t.rows && t.rows[n].retryCount == s.rows[n].retryCount + 1
    ensures t.rows[n].databaseID == s.rows[n].databaseID && t.rows[n].lastRetryAt == Some(t.clock.nanos)
    ensures t.clock.nanos == DueTime(s.rows[n], s.clock.nanos) && FailureTimes(t, n) == FailureTimes(s, n) + [t.clock.nanos]
  {
    hide Legal, Run, OverlapAtMost, Reaches, GetDatabaseByID, Backoff, RemoveAt;
    var at := s.clock.(nanos := DueTime(s.rows[n], s.clock.nanos));
    var s1 := s.(clock := at);
    var a := Retry(cfg, s1, n, at.nanos);
    var s2 := s1.(attempts := [a]);
    var s3 := s2.(attempts := [a.(phase := Failed)]);
    var s4 := Counted(s3, 0, true);
    var acts := Round(n, at);
    assert StepsTo(cfg, s, SetClock(at), s1);
    TickAddsOne(cfg, s1, n, at.nanos);
    assert s1.attempts + [a] == [a];
    assert StepsTo(cfg, s2, Load(0, false), s3);
    assert StepsTo(cfg, s3, Increment(0, true), s4);
    assert s4.attempts == [];
    RunOfSteps(cfg, [s, s1, s2, s3, s4], acts);
    OverlapOfSteps(cfg, [s, s1, s2, s3, s4], acts, n, m, true);
    RunReaches(cfg, s, acts, n, m);
    t := s4;
  }

  lemma {:induction false} RoundsRun(cfg: Config, s: State, n: string, k: nat, m: nat) returns (t: State)
    requires s.attempts == [] && 1 <= m && n in s.rows && s.rows[n].retryCount + k <= MAX_RETRIES
    requires GetDatabaseByID(cfg, s.rows[n].databaseID).Some?
    ensures Reaches(cfg, s, n, m, t)
    ensures t.attempts == [] && n in t.rows && t.rows[n].retryCount == s.rows[n].retryCount + k
    ensures t.rows[n].databaseID == s.rows[n].databaseID
    decreases k
  {
    hide Legal, Run, OverlapAtMost, Reaches, GetDatabaseByID;
    if k == 0 {
      ReachesItself(cfg, s, n, m);
      t := s;
    } else {
      var next := RoundRuns(cfg, s, n, m);
      t := RoundsRun(cfg, next, n, k - 1, m);
      ReachesOn(cfg, s, next, t, n, m);
    }
  }

  /**
   The bound is exact: from any state with nothing in flight and a configured row that has not failed, some
   run in which at most `m` uploads of the row overlap takes its retry count to 4 + m. It fails four times in
   turn, and then `m` times at once.
   */
  lemma BoundIsReached(cfg: Config, s: State, n: string, m: nat) returns (t: State)
    requires s.attempts == [] && 1 <= m && n in s.rows && s.rows[n].retryCount == 0
    requires GetDatabaseByID(cfg, s.rows[n].databaseID).Some?
    ensures Reaches(cfg, s, n, m, t)
    ensures n in t.rows && t.rows[n].retryCount == 4 + m
  {
    hide Legal, Run, OverlapAtMost, Reaches, GetDatabaseByID, Backoff;
    var failed := RoundsRun(cfg, s, n, MAX_RETRIES - 1, m);
    var burst := BurstRuns(cfg, failed, n, DueTime(failed.rows[n], failed.clock.nanos), m, m);
    t := Run(cfg, failed, burst);
    RunReaches(cfg, failed, burst, n, m);
    ReachesOn(cfg, s, failed, t, n, m);
  }

  /**
   The waits are no longer than documented: from any state with nothing in flight and a configured row that has
   not failed, some run with one upload at a time has its failures exactly 2, 4, 8 and 16 minutes apart.
   */
  lemma SpacingIsAttained(cfg: Config, s: State, n: string) returns (t: State)
    requires s.attempts == [] && n in s.rows && s.rows[n].retryCount == 0
    requires GetDatabaseByID(cfg, s.rows[n].databaseID).Some?
    ensures Reaches(cfg, s, n, 1, t) && |FailureTimes(t, n)| == |FailureTimes(s, n)| + 5
    ensures var first := FailureTimes(t, n)[|FailureTimes(s, n)|];
            FailureTimes(t, n) == FailureTimes(s, n)
                                  + [first, first + 120_000_000_000, first + 360_000_000_000, first + 840_000_000_000, first + 1_800_000_000_000]
  {
    hide Reaches, GetDatabaseByID, Backoff, DueTime, FailureTimes;
    BackoffMinutes();
    var a := RoundRuns(cfg, s, n, 1);
    var b := WaitedRound(cfg, s, a, n, 120_000_000_000);
    var c := WaitedRound(cfg, s, b, n, 240_000_000_000);
    var d := WaitedRound(cfg, s, c, n, 480_000_000_000);
    t := WaitedRound(cfg, s, d, n, 960_000_000_000);
  }

  /** One more round, `wait` after the last. */
  lemma WaitedRound(cfg: Config, s: State, a: State, n: string, wait: int) returns (t: State)
    requires Reaches(cfg, s, n, 1, a) && a.attempts == [] && n in a.rows && a.rows[n].retryCount < MAX_RETRIES
    requires a.rows[n].lastRetryAt == Some(a.clock.nanos) && Backoff(a.rows[n].retryCount) == wait > 0
    requires GetDatabaseByID(cfg, a.rows[n].databaseID).Some?
    ensures Reaches(cfg, s, n, 1, t) && t.attempts == [] && n in t.rows
    ensures t.rows[n].retryCount == a.rows[n].retryCount + 1 && t.rows[n].databaseID == a.rows[n].databaseID
    ensures t.rows[n].lastRetryAt == Some(t.clock.nanos) && t.clock.nanos == a.clock.nanos + wait
    ensures FailureTimes(t, n) == FailureTimes(a, n) + [t.clock.nanos]
  {
    hide Reaches, GetDatabaseByID, Backoff, FailureTimes;
    t := RoundRuns(cfg, a, n, 1);
    ReachesOn(cfg, s, a, t, n, 1);
  }

  /** A row whose first, synchronous upload could not read its file, and counted nothing. */
  lemma FreshRowRuns(cfg: Config, d: Database, bytes: Bytes, m: nat) returns (acts: seq<Action>, n: string)
    requires GetDatabaseByID(cfg, d.id) == Some(d) && d in cfg.databases && 1 <= m
    ensures Legal(cfg, INITIAL, acts)
    ensures forall k :: OverlapAtMost(cfg, INITIAL, acts, k, m, true)
    ensures var s := Run(cfg, INITIAL, acts);
            s.attempts == [] && n in s.rows && s.rows[n] == Row(d.id, INITIAL.clock, 0, None)
  {
    hide Legal, Run, OverlapAtMost, GetDatabaseByID;
    n := FileName(cfg, INITIAL, d);
    var s1 := Apply(cfg, INITIAL, SaveFile(d, bytes));
    var s2 := Apply(cfg, s1, EnqueueRow(0, true));
    var s3 := s2.(attempts := []);
    acts := [SaveFile(d, bytes), EnqueueRow(0, true), Load(0, false)];
    assert StepsTo(cfg, INITIAL, SaveFile(d, bytes), s1);
    assert StepsTo(cfg, s1, EnqueueRow(0, true), s2);
    assert StepsTo(cfg, s2, Load(0, false), s3);
    RunOfSteps(cfg, [INITIAL, s1, s2, s3], acts);
    forall k
      ensures OverlapAtMost(cfg, INITIAL, acts, k, m, true)
    {
      OverlapOfSteps(cfg, [INITIAL, s1, s2, s3], acts, k, m, true);
    }
  }

  /** Some run with at most `m` overlapping asynchronous uploads of a row counts more than five failures of it. */
  ghost predicate LimitCanBeExceeded(cfg: Config, m: nat) {
    exists acts, n :: ExceedsLimit(cfg, acts, n, m)
  }

  predicate ExceedsLimit(cfg: Config, acts: seq<Action>, n: string, m: nat) {
    && Legal(cfg, INITIAL, acts) && OverlapAtMost(cfg, INITIAL, acts, n, m, true)
    && n in Run(cfg, INITIAL, acts).rows && Run(cfg, INITIAL, acts).rows[n].retryCount > 5
  }

  /** The documented maximum of five is kept exactly as long as no two asynchronous uploads of a row overlap. */
  lemma FiveIsExceededExactly(cfg: Config, d: Database, bytes: Bytes, m: nat)
    requires GetDatabaseByID(cfg, d.id) == Some(d) && d in cfg.databases
    ensures LimitCanBeExceeded(cfg, m) <==> m >= 2
  {
    hide Legal, Run, OverlapAtMost, GetDatabaseByID, Count;
    if m >= 2 {
      var start, n := FreshRowRuns(cfg, d, bytes, m);
      var s := Run(cfg, INITIAL, start);
      var t := BoundIsReached(cfg, s, n, m);
      RunReaches(cfg, INITIAL, start, n, m);
      ReachesOn(cfg, INITIAL, s, t, n, m);
      var acts :| RunsTo(cfg, INITIAL, acts, n, m, t);
      assert ExceedsLimit(cfg, acts, n, m);
    }
    if LimitCanBeExceeded(cfg, m) {
      var acts, n :| ExceedsLimit(cfg, acts, n, m);
      RetriesAreBounded(cfg, acts, n, m, true);
    }
  }

  /** With uploads that overlap freely, a row can be failed any number of times. */
  lemma RetryCountIsUnbounded(cfg: Config, d: Database, bytes: Bytes, k: nat) returns (acts: seq<Action>, n: string)
    requires GetDatabaseByID(cfg, d.id) == Some(d) && d in cfg.databases
    ensures Legal(cfg, INITIAL, acts)
    ensures var s := Run(cfg, INITIAL, acts); n in s.rows && s.rows[n].retryCount == k
  {
    hide Legal, Run, OverlapAtMost, GetDatabaseByID;
    var rest;
    acts, n := FreshRowRuns(cfg, d, bytes, 1);
    rest := BurstRuns(cfg, Run(cfg, INITIAL, acts), n, 0, k, k);
    RunConcat(cfg, INITIAL, acts, rest);
    acts := acts + rest;
  }

  // ---------------------------------------------------------------- the retry loop stops

  function Launches(acts: seq<Action>, n: string): nat {
    if acts == [] then 0 else (if LaunchesRetry(acts[0], n) then 1 else 0) + Launches(acts[1..], n)
  }

  /** Uploads of `n` that a step ends without counting them or removing the row. */
  function LostStep(s: State, a: Action, n: string): nat {
    if a.Crash? then AsyncInFlight(s, n)
    else if (a.RemoveRow? || a.Increment?) && !a.dbOk && a.attempt < |s.attempts| && Counts(s.attempts[a.attempt], n, true) then 1
    else 0
  }

  /** The asynchronous uploads of `n` lost to crashes and to failed deletes and updates. */
  function Lost(cfg: Config, s: State, acts: seq<Action>, n: string): nat
    requires Legal(cfg, s, acts)
    decreases |acts|
  {
    if acts == [] then 0 else LostStep(s, acts[0], n) + Lost(cfg, Apply(cfg, s, acts[0]), acts[1..], n)
  }

  lemma {:induction false} NoRowNoLaunch(cfg: Config, s: State, acts: seq<Action>, n: string)
    requires Legal(cfg, s, acts) && n !in s.rows && NeverEnqueues(cfg, s, acts, n)
    ensures Launches(acts, n) == 0
    decreases |acts|
  {
    hide Apply, Enabled;
    if acts != [] {
      NoRowAppears(cfg, s, acts[0], n);
      NoRowNoLaunch(cfg, Apply(cfg, s, acts[0]), acts[1..], n);
    }
  }

  /** Every launch uses up one unit of 4 + m; only removing the row, or losing an upload, gives any back. */
  lemma LaunchStep(cfg: Config, s: State, a: Action, n: string)
    requires Enabled(cfg, s, a) && n in s.rows && n in Apply(cfg, s, a).rows
    requires a.EnqueueRow? ==> s.saved[a.backup].name != n
    ensures var s' := Apply(cfg, s, a);
            s'.rows[n].retryCount + AsyncInFlight(s', n) + LostStep(s, a, n)
              >= s.rows[n].retryCount + AsyncInFlight(s, n) + (if LaunchesRetry(a, n) then 1 else 0)
  {
    RetryCountStep(cfg, s, a, n);
    if a.EnqueueRow? {
      EnqueueCount(cfg, s, a.backup, a.sync, n, true);
    } else {
      CountStep(cfg, s, a, n, true);
    }
  }

  /**
   The retry loop stops: without a new enqueue a row is retried at most 4 + m times, plus once for each
   upload lost to a crash or a database failure, less what it has used up already, however long the run.
   */
  lemma {:induction false} LaunchesAreBounded(cfg: Config, s: State, acts: seq<Action>, n: string, m: nat)
    requires Bounded(s, n, m, true) && FailedAreAsync(s) && Legal(cfg, s, acts) && OverlapAtMost(cfg, s, acts, n, m, true)
    requires n in s.rows && NeverEnqueues(cfg, s, acts, n)
    ensures Launches(acts, n) + s.rows[n].retryCount + AsyncInFlight(s, n) <= 4 + m + Lost(cfg, s, acts, n)
    decreases |acts|
  {
    hide Apply, Enabled, FailedAreAsync, LostStep, LaunchesRetry;
    if acts != [] {
      var s' := Apply(cfg, s, acts[0]);
      assert OverlapAtMost(cfg, s', acts[1..], n, m, true);
      StepKeepsAsync(cfg, s, acts[0]);
      StepKeepsBound(cfg, s, acts[0], n, m, true);
      if n in s'.rows {
        LaunchStep(cfg, s, acts[0], n);
        LaunchesAreBounded(cfg, s', acts[1..], n, m);
      } else {
        NoRowNoLaunch(cfg, s', acts[1..], n);
        RemovalLaunchesNothing(cfg, s, acts[0], n);
      }
    }
  }

  lemma RemovalLaunchesNothing(cfg: Config, s: State, a: Action, n: string)
    requires Enabled(cfg, s, a) && n in s.rows && n !in Apply(cfg, s, a).rows
    ensures !LaunchesRetry(a, n)
  {
  }

  /** The corollary for runs that lose nothing. */
  lemma UndisturbedLaunchesAreBounded(cfg: Config, s: State, acts: seq<Action>, n: string, m: nat)
    requires Bounded(s, n, m, true) && FailedAreAsync(s) && Legal(cfg, s, acts) && OverlapAtMost(cfg, s, acts, n, m, true)
    requires n in s.rows && NeverEnqueues(cfg, s, acts, n)
    requires forall a :: a in acts ==> !a.Crash? && (a.RemoveRow? || a.Increment? ==> a.dbOk)
    ensures Launches(acts, n) + s.rows[n].retryCount + AsyncInFlight(s, n) <= 4 + m
  {
    NothingLost(cfg, s, acts, n);
    LaunchesAreBounded(cfg, s, acts, n, m);
  }

  lemma {:induction false} NothingLost(cfg: Config, s: State, acts: seq<Action>, n: string)
    requires Legal(cfg, s, acts) && forall a :: a in acts ==> !a.Crash? && (a.RemoveRow? || a.Increment? ==> a.dbOk)
    ensures Lost(cfg, s, acts, n) == 0
    decreases |acts|
  {
    hide Apply, Enabled;
    if acts != [] {
      assert acts[0] in acts;
      NothingLost(cfg, Apply(cfg, s, acts[0]), acts[1..], n);
    }
  }

  // ---------------------------------------------------------------- relaunched without limit

  /** A row launched once and its upload lost: to a crash, or to a failure that could not be counted. */
  function LostLaunch(n: string, crash: bool): seq<Action> {
    if crash then [Tick([n], 0), Crash] else [Tick([n], 0), Load(0, false), Increment(0, false)]
  }

  /** A quiet state with a row that has never failed. */
  predicate QuietWithFreshRow(cfg: Config, s: State, n: string) {
    s.attempts == [] && s.saved == [] && n in s.rows && s.rows[n].retryCount == 0 && Admissible(cfg, s, n, 0)
  }

  lemma FirstLaunch(cfg: Config, s: State, n: string)
    requires QuietWithFreshRow(cfg, s, n)
    ensures StepsTo(cfg, s, Tick([n], 0), s.(attempts := [Retry(cfg, s, n, 0)]))
  {
    TickAddsOne(cfg, s, n, 0);
  }

  lemma FailsUncounted(cfg: Config, s: State, a: Attempt)
    requires s.attempts == [a] && a.phase.Admitted? && !a.sync
    ensures var failed := s.(attempts := [a.(phase := Failed)]);
            StepsTo(cfg, s, Load(0, false), failed) && StepsTo(cfg, failed, Increment(0, false), s.(attempts := []))
  {
  }

  lemma LostLaunchReturns(cfg: Config, s: State, n: string, crash: bool)
    requires QuietWithFreshRow(cfg, s, n)
    ensures Legal(cfg, s, LostLaunch(n, crash)) && Run(cfg, s, LostLaunch(n, crash)) == s
    ensures OverlapAtMost(cfg, s, LostLaunch(n, crash), n, 1, false)
  {
    hide Legal, Run, OverlapAtMost, StepsTo, Eligible;
    FirstLaunch(cfg, s, n);
    var a := Retry(cfg, s, n, 0);
    var s1 := s.(attempts := [a]);
    var s2 := s.(attempts := [a.(phase := Failed)]);
    if crash {
      CrashClears(cfg, s1);
      RunOfSteps(cfg, [s, s1, s], LostLaunch(n, crash));
      OverlapOfSteps(cfg, [s, s1, s], LostLaunch(n, crash), n, 1, false);
    } else {
      FailsUncounted(cfg, s1, a);
      RunOfSteps(cfg, [s, s1, s2, s], LostLaunch(n, crash));
      OverlapOfSteps(cfg, [s, s1, s2, s], LostLaunch(n, crash), n, 1, false);
    }
  }

  lemma CrashClears(cfg: Config, s: State)
    ensures StepsTo(cfg, s, Crash, s.(attempts := [], saved := []))
  {
  }

  function Repeated(acts: seq<Action>, k: nat): seq<Action> {
    if k == 0 then [] else acts + Repeated(acts, k - 1)
  }

  lemma {:induction false} LaunchesConcat(xs: seq<Action>, ys: seq<Action>, n: string)
    ensures Launches(xs + ys, n) == Launches(xs, n) + Launches(ys, n)
  {
    if xs == [] {
      assert xs + ys == ys;
    } else {
      assert (xs + ys)[1..] == xs[1..] + ys;
      LaunchesConcat(xs[1..], ys, n);
    }
  }

  /** Losing uploads, a row is launched any number of times without an enqueue, one upload at a time. */
  lemma {:induction false} RelaunchesAreUnbounded(cfg: Config, s: State, n: string, crash: bool, k: nat)
    requires QuietWithFreshRow(cfg, s, n)
    ensures var acts := Repeated(LostLaunch(n, crash), k);
            && Legal(cfg, s, acts) && Run(cfg, s, acts) == s && Launches(acts, n) == k
            && OverlapAtMost(cfg, s, acts, n, 1, false) && (forall a :: a in acts ==> !a.EnqueueRow?)
  {
    hide Legal, Run, OverlapAtMost, Admissible;
    if k > 0 {
      var cycle := LostLaunch(n, crash);
      RelaunchesAreUnbounded(cfg, s, n, crash, k - 1);
      LostLaunchReturns(cfg, s, n, crash);
      RunConcat(cfg, s, cycle, Repeated(cycle, k - 1));
      LaunchesConcat(cycle, Repeated(cycle, k - 1), n);
      OverlapConcat(cfg, s, cycle, Repeated(cycle, k - 1), n, 1, false);
      OneLaunch(n, crash);
    } else {
      NothingOverlaps(cfg, s, n, 1, false);
    }
  }

  lemma {:induction false} NoLaunches(acts: seq<Action>, n: string)
    requires forall a :: a in acts ==> !a.Tick?
    ensures Launches(acts, n) == 0
  {
    if acts != [] {
      assert acts[0] in acts;
      NoLaunches(acts[1..], n);
    }
  }

  lemma OneLaunch(n: string, crash: bool)
    ensures Launches(LostLaunch(n, crash), n) == 1
    ensures forall a :: a in LostLaunch(n, crash) ==> !a.EnqueueRow?
  {
    NoLaunches(LostLaunch(n, crash)[1..], n);
    assert LaunchesRetry(Tick([n], 0), n);
    assert LostLaunch(n, crash)[1..] == if crash then [Crash] else [Load(0, false), Increment(0, false)];
  }

  // ---------------------------------------------------------------- spacing

  /** No failure of `n` is counted at a time before its upload was admitted, as on any clock that never goes back. */
  predicate WellTimed(s: State, a: Action, n: string) {
    CountsFailure(s, a, n) ==> s.attempts[a.attempt].notBefore <= s.clock.nanos
  }

  predicate WellTimedRun(cfg: Config, s: State, acts: seq<Action>, n: string)
    requires Legal(cfg, s, acts)
    decreases |acts|
  {
    acts == [] || (WellTimed(s, acts[0], n) && WellTimedRun(cfg, Apply(cfg, s, acts[0]), acts[1..], n))
  }

  /** Failure number k + 1 comes at least 2^(k+1) - 2 minutes after the first. */
  predicate Spread(f: seq<int>) {
    forall k :: 0 <= k < |f| ==> f[k] - f[0] >= (Pow2(k + 1) - 2) * MINUTE
  }

  /** What an asynchronous upload in flight knows of its row: it was admitted only after the row's backoff. */
  predicate RowSpaced(s: State, n: string)
    requires n in s.rows
  {
    var row := s.rows[n];
    && n in s.failures && |s.failures[n]| == row.retryCount && Spread(s.failures[n])
    && (row.retryCount > 0 ==>
          && row.lastRetryAt == Some(s.failures[n][row.retryCount - 1])
          && forall a :: a in s.attempts && Counts(a, n, true) ==> a.notBefore >= row.lastRetryAt.value + Backoff(row.retryCount))
  }

  predicate Spaced(s: State, n: string) {
    n in s.rows ==> RowSpaced(s, n)
  }

  lemma {:induction false} NoneInFlight(s: seq<Attempt>, n: string)
    requires Count(s, n, true) == 0
    ensures forall a :: a in s ==> !Counts(a, n, true)
  {
    if s != [] {
      NoneInFlight(s[1..], n);
      assert s == [s[0]] + s[1..];
    }
  }

  /** A failure counted after a backoff extends the spread. */
  lemma SpreadGrows(f: seq<int>, t: int)
    requires Spread(f)
    requires f != [] ==> t >= f[|f| - 1] + Backoff(|f|)
    ensures Spread(f + [t])
  {
    if f != [] {
      assert f[|f| - 1] - f[0] >= (Pow2(|f|) - 2) * MINUTE;
      assert Pow2(|f| + 1) == 2 * Pow2(|f|);
      assert t - f[0] >= (Pow2(|f| + 1) - 2) * MINUTE;
    }
    var g := f + [t];
    forall k | 0 <= k < |g|
      ensures g[k] - g[0] >= (Pow2(k + 1) - 2) * MINUTE
    {
      if k < |f| {
        assert g[k] == f[k];
      }
    }
  }

  lemma CountKeepsSpacing(s: State, i: nat, dbOk: bool, n: string)
    requires Spaced(s, n) && FailedAreAsync(s) && InPhase(s, i, Failed) && WellTimed(s, Increment(i, dbOk), n)
    requires AsyncInFlight(s, n) <= 1
    ensures Spaced(Counted(s, i, dbOk), n)
  {
    hide Spread, Backoff, Count;
    var a, s' := s.attempts[i], Counted(s, i, dbOk);
    assert a in s.attempts;
    if dbOk && a.name == n && n in s.rows {
      assert RowSpaced(s, n);
      SpreadGrows(s.failures[n], s.clock.nanos);
      CountRemove(s.attempts, i, n, true);
      NoneInFlight(s'.attempts, n);
    }
  }

  lemma TickKeepsSpacing(cfg: Config, s: State, names: seq<string>, now: int, n: string)
    requires Spaced(s, n) && Enabled(cfg, s, Tick(names, now))
    ensures Spaced(Apply(cfg, s, Tick(names, now)), n)
  {
    hide Spread, Backoff;
  }

  lemma EnqueueKeepsSpacing(cfg: Config, s: State, i: nat, sync: bool, n: string)
    requires Spaced(s, n) && i < |s.saved|
    ensures Spaced(Enqueued(cfg, s, i, sync), n)
  {
    hide Backoff;
  }

  lemma OtherKeepsSpacing(cfg: Config, s: State, a: Action, n: string)
    requires Spaced(s, n) && Enabled(cfg, s, a)
    requires !a.EnqueueRow? && !a.Increment? && !a.Tick?
    ensures Spaced(Apply(cfg, s, a), n)
  {
    hide Spread, Backoff, Enabled;
    var s' := Apply(cfg, s, a);
    SameTimes(cfg, s, a);
    if !a.RemoveRow? {
      RowsUntouched(cfg, s, a);
    }
    if n in s'.rows {
      assert RowSpaced(s, n);
    }
  }

  /** Each upload goes back to one of `attempts` that was admitted at the same time. */
  predicate SameAdmissions(attempts: seq<Attempt>, later: seq<Attempt>) {
    forall b :: b in later ==> exists c :: c in attempts && c.name == b.name && c.sync == b.sync && c.notBefore == b.notBefore
  }

  lemma AdmittedAlike(attempts: seq<Attempt>, later: seq<Attempt>)
    requires forall b :: b in later ==> b in attempts
    ensures SameAdmissions(attempts, later)
  {
  }

  lemma MarkedAlike(attempts: seq<Attempt>, i: nat, phase: Phase)
    requires i < |attempts|
    ensures SameAdmissions(attempts, attempts[i := attempts[i].(phase := phase)])
  {
    var later := attempts[i := attempts[i].(phase := phase)];
    forall b | b in later
      ensures exists c :: c in attempts && c.name == b.name && c.sync == b.sync && c.notBefore == b.notBefore
    {
      if b !in attempts {
        assert attempts[i] in attempts;
      }
    }
  }

  lemma FailedAlike(s: State, i: nat)
    requires i < |s.attempts|
    ensures SameAdmissions(s.attempts, Fail(s, i).attempts)
  {
    hide SameAdmissions;
    if s.attempts[i].sync {
      AdmittedAlike(s.attempts, RemoveAt(s.attempts, i));
    } else {
      MarkedAlike(s.attempts, i, Failed);
    }
  }

  lemma SameTimes(cfg: Config, s: State, a: Action)
    requires Enabled(cfg, s, a) && !a.EnqueueRow? && !a.Tick?
    ensures SameAdmissions(s.attempts, Apply(cfg, s, a).attempts)
  {
    hide SameAdmissions, Fail, KeyOf;
    if a.Load? {
      FailedAlike(s, a.attempt);
      if a.ok {
        MarkedAlike(s.attempts, a.attempt, Loaded(s.files[s.attempts[a.attempt].name]));
      }
    } else if a.Put? {
      var up := s.attempts[a.attempt];
      MarkedAlike(s.attempts, a.attempt, Uploaded);
      FailedAlike(if a.outcome.Refused? then s else s.(remote := s.remote[KeyOf(cfg, up) := up.phase.bytes]), a.attempt);
    } else {
      AdmittedAlike(s.attempts, Apply(cfg, s, a).attempts);
    }
  }

  lemma {:induction false} RunKeepsSpacing(cfg: Config, s: State, acts: seq<Action>, n: string)
    requires Spaced(s, n) && FailedAreAsync(s) && Legal(cfg, s, acts)
    requires OverlapAtMost(cfg, s, acts, n, 1, true) && WellTimedRun(cfg, s, acts, n)
    ensures Spaced(Run(cfg, s, acts), n)
    decreases |acts|
  {
    hide Spaced, FailedAreAsync, WellTimed, Enqueued, Counted;
    if acts != [] {
      var s' := Apply(cfg, s, acts[0]);
      assert OverlapAtMost(cfg, s', acts[1..], n, 1, true);
      StepKeepsAsync(cfg, s, acts[0]);
      match acts[0] {
        case EnqueueRow(i, sync) => EnqueueKeepsSpacing(cfg, s, i, sync, n);
        case Increment(i, dbOk) => CountKeepsSpacing(s, i, dbOk, n);
        case Tick(names, now) => TickKeepsSpacing(cfg, s, names, now, n);
        case _ => OtherKeepsSpacing(cfg, s, acts[0], n);
      }
      RunKeepsSpacing(cfg, s', acts[1..], n);
    }
  }

  /**
   Exponential spacing: as long as asynchronous uploads of a row do not overlap and none is counted before it
   was admitted, the k-th counted failure of the row comes at least 2^k - 2 minutes after its first.
   */
  lemma FailuresAreSpaced(cfg: Config, acts: seq<Action>, n: string, k: nat)
    requires Legal(cfg, INITIAL, acts) && OverlapAtMost(cfg, INITIAL, acts, n, 1, true) && WellTimedRun(cfg, INITIAL, acts, n)
    requires var s := Run(cfg, INITIAL, acts); n in s.rows && 1 <= k <= s.rows[n].retryCount
    ensures var f := Run(cfg, INITIAL, acts).failures;
            n in f && k <= |f[n]| && f[n][k - 1] - f[n][0] >= (Pow2(k) - 2) * 60_000_000_000
  {
    RunKeepsSpacing(cfg, INITIAL, acts, n);
    assert RowSpaced(Run(cfg, INITIAL, acts), n);
  }

  /** So a row does not run out of retries within half an hour of its first failure. */
  lemma RetryLimitTakesHalfAnHour(cfg: Config, acts: seq<Action>, n: string)
    requires Legal(cfg, INITIAL, acts) && OverlapAtMost(cfg, INITIAL, acts, n, 1, true) && WellTimedRun(cfg, INITIAL, acts, n)
    requires var s := Run(cfg, INITIAL, acts); n in s.rows && s.rows[n].retryCount >= 5
    ensures var f := Run(cfg, INITIAL, acts).failures;
            n in f && |f[n]| >= 5 && f[n][4] - f[n][0] >= 1_800_000_000_000
  {
    FailuresAreSpaced(cfg, acts, n, 5);
    assert Pow2(3) == 8;
    assert Pow2(5) == 32;
  }
}
