/**
 The upload protocol as a state machine: backups are saved, queued and uploaded, a retry tick starts
 further uploads of rows that are still queued, and nothing locks a row. Any interleaving of the steps
 of any number of uploads, failures of the file system, the remote store and the database, and crashes
 is a run.
 */
module Protocol {
  import opened Text
  import opened Timestamps

  /** Backup contents are opaque. */
  type Bytes = string

  datatype Database = Database(id: string, name: string)

  /** What stays fixed during a run: the configured databases, and how keys and file names are made. */
  datatype Config = Config(databases: seq<Database>,
                           objectKey: (string, Time) -> string,
                           fileName: (Database, int) -> string)

  function IDOf(d: Database): string {
    d.id
  }

  function GetDatabaseByID(cfg: Config, id: string): (r: Option<Database>)
    ensures r.Some? ==> r.value.id == id
  {
    FindByID(cfg.databases, IDOf, id)
  }

  datatype Row = Row(databaseID: string, createdAt: Time, retryCount: nat, lastRetryAt: Option<int>)

  datatype Phase = Admitted | Loaded(bytes: Bytes) | Uploaded | Failed

  /** One upload in flight. `sync` uploads report failure instead of counting it. */
  datatype Attempt = Attempt(name: string, database: Database, createdAt: Time, sync: bool, notBefore: int, phase: Phase)

  /** A backup between saving its file and queueing its row. */
  datatype Saved = Saved(name: string, database: Database, bytes: Bytes)

  /** What an enqueue promised: history, read by no step. */
  datatype Promise = Promise(bytes: Bytes, key: string)

  datatype State = State(
    rows: map<string, Row>,
    files: map<string, Bytes>,
    remote: map<string, Bytes>,
    attempts: seq<Attempt>,
    saved: seq<Saved>,
    clock: Time,
    promises: map<string, Promise>,
    failures: map<string, seq<int>>
  )

  const INITIAL := State(map[], map[], map[], [], [], Time(0, 0), map[], map[])

  /** What a failed save leaves behind: nothing new, a removed file, or a torn one that was not removed. */
  datatype SaveEffect = NotCreated | Removed | Torn(bytes: Bytes)

  /** A failed put may still have stored the object. */
  datatype PutOutcome = Stored | Refused | StoredUnseen

  /** `SkipQueue`: a saved backup that gets no row, because that fails or the agent is local-only. */
  datatype Action =
    | SetClock(now: Time)
    | SaveFile(database: Database, bytes: Bytes)
    | SaveFails(database: Database, effect: SaveEffect)
    | EnqueueRow(backup: nat, sync: bool)
    | SkipQueue(backup: nat)
    | Load(attempt: nat, ok: bool)
    | Put(attempt: nat, outcome: PutOutcome)
    | RemoveRow(attempt: nat, dbOk: bool)
    | Increment(attempt: nat, dbOk: bool)
    | Tick(admitted: seq<string>, checkedAt: int)
    | Crash

  const MAX_RETRIES := 5
  const MINUTE := 60 * NANOS_PER_SECOND

  function Pow2(k: nat): (p: nat)
    ensures p > 0
  {
    if k == 0 then 1 else 2 * Pow2(k - 1)
  }

  function Backoff(retryCount: nat): int {
    Pow2(retryCount) * MINUTE
  }

  /** The retry loop's admission test for one listed row. */
  predicate Eligible(row: Row, now: int) {
    row.retryCount < MAX_RETRIES
    && !(row.retryCount > 0 && row.lastRetryAt.Some? && now < row.lastRetryAt.value + Backoff(row.retryCount))
  }

  /** Said in nanoseconds: fewer than five failures, and 2, 4, 8 or 16 minutes since the last one. */
  predicate WaitIsOver(row: Row, now: int) {
    row.retryCount < 5
    && (row.retryCount == 0 || row.lastRetryAt.None?
        || now - row.lastRetryAt.value >= (if row.retryCount == 1 then 120_000_000_000
                                           else if row.retryCount == 2 then 240_000_000_000
                                           else if row.retryCount == 3 then 480_000_000_000
                                           else 960_000_000_000))
  }

  lemma BackoffMinutes()
    ensures Backoff(1) == 120_000_000_000 && Backoff(2) == 240_000_000_000
    ensures Backoff(3) == 480_000_000_000 && Backoff(4) == 960_000_000_000
  {
    assert Pow2(1) == 2 && Pow2(2) == 4 && Pow2(3) == 8 && Pow2(4) == 16;
  }

  lemma EligibleWhenWaited(row: Row, now: int)
    ensures Eligible(row, now) <==> WaitIsOver(row, now)
  {
    hide Backoff;
    BackoffMinutes();
  }

  predicate Admissible(cfg: Config, s: State, name: string, now: int) {
    name in s.rows && Eligible(s.rows[name], now) && GetDatabaseByID(cfg, s.rows[name].databaseID).Some?
  }

  predicate NoDuplicates(names: seq<string>) {
    forall i, j :: 0 <= i < j < |names| ==> names[i] != names[j]
  }

  predicate InPhase(s: State, i: nat, phase: Phase) {
    i < |s.attempts| && s.attempts[i].phase == phase
  }

  predicate Enabled(cfg: Config, s: State, a: Action) {
    match a
    case SetClock(_) => true
    case SaveFile(d, _) => d in cfg.databases
    case SaveFails(d, _) => d in cfg.databases
    case EnqueueRow(i, _) => i < |s.saved|
    case SkipQueue(i) => i < |s.saved|
    case Load(i, ok) => InPhase(s, i, Admitted) && (ok ==> s.attempts[i].name in s.files)
    case Put(i, _) => i < |s.attempts| && s.attempts[i].phase.Loaded?
    case RemoveRow(i, _) => InPhase(s, i, Uploaded)
    case Increment(i, _) => InPhase(s, i, Failed)
    case Tick(names, now) =>
      NoDuplicates(names) && forall n :: n in names ==> Admissible(cfg, s, n, now)
    case Crash => true
  }

  function FileName(cfg: Config, s: State, d: Database): string {
    cfg.fileName(d, Unix(s.clock))
  }

  function KeyOf(cfg: Config, a: Attempt): string {
    cfg.objectKey(a.database.name, a.createdAt)
  }

  function RemoveAt<T>(s: seq<T>, i: nat): (r: seq<T>)
    requires i < |s|
    ensures |r| == |s| - 1
    ensures forall x :: x in r ==> x in s
  {
    s[..i] + s[i + 1..]
  }

  /** The upload a tick starts for an admitted row. */
  function Retry(cfg: Config, s: State, name: string, now: int): Attempt
    requires Admissible(cfg, s, name, now)
  {
    var row := s.rows[name];
    Attempt(name, GetDatabaseByID(cfg, row.databaseID).value, row.createdAt, false, now, Admitted)
  }

  function Spawned(cfg: Config, s: State, names: seq<string>, now: int): (r: seq<Attempt>)
    requires forall n :: n in names ==> Admissible(cfg, s, n, now)
    ensures |r| == |names|
    ensures forall a :: a in r ==> a.name in names && a == Retry(cfg, s, a.name, now)
  {
    if names == [] then []
    else
      var last := |names| - 1;
      Spawned(cfg, s, names[..last], now) + [Retry(cfg, s, names[last], now)]
  }

  /** A failed upload: a synchronous one ends, an asynchronous one goes on to count the failure. */
  function Fail(s: State, i: nat): State
    requires i < |s.attempts|
  {
    if s.attempts[i].sync then s.(attempts := RemoveAt(s.attempts, i))
    else s.(attempts := s.attempts[i := s.attempts[i].(phase := Failed)])
  }

  function Enqueued(cfg: Config, s: State, i: nat, sync: bool): State
    requires i < |s.saved|
  {
    var b := s.saved[i];
    s.(rows := s.rows[b.name := Row(b.database.id, s.clock, 0, None)],
       saved := RemoveAt(s.saved, i),
       attempts := s.attempts + [Attempt(b.name, b.database, s.clock, sync, s.clock.nanos, Admitted)],
       promises := s.promises[b.name := Promise(b.bytes, cfg.objectKey(b.database.name, s.clock))],
       failures := s.failures[b.name := []])
  }

  function PutDone(cfg: Config, s: State, i: nat, outcome: PutOutcome): State
    requires i < |s.attempts| && s.attempts[i].phase.Loaded?
  {
    var a := s.attempts[i];
    var s' := if outcome.Refused? then s else s.(remote := s.remote[KeyOf(cfg, a) := a.phase.bytes]);
    if outcome.Stored? then s'.(attempts := s'.attempts[i := a.(phase := Uploaded)]) else Fail(s', i)
  }

  /** Removing the row of an uploaded backup, and the end of its attempt. */
  function RowRemoved(s: State, i: nat, dbOk: bool): State
    requires i < |s.attempts|
  {
    var s' := s.(attempts := RemoveAt(s.attempts, i));
    if dbOk then s'.(rows := s.rows - {s.attempts[i].name}) else s'
  }

  /** queue.Remove reports a missing row as an error too, and a synchronous upload passes that on. */
  predicate RemovalSucceeds(s: State, i: nat, dbOk: bool)
    requires i < |s.attempts|
  {
    dbOk && s.attempts[i].name in s.rows
  }

  /** IncrementRetry, and the end of the attempt that called it. */
  function Counted(s: State, i: nat, dbOk: bool): State
    requires i < |s.attempts|
  {
    var n := s.attempts[i].name;
    var s' := s.(attempts := RemoveAt(s.attempts, i));
    if !dbOk || n !in s.rows then s'
    else
      var row := s.rows[n];
      s'.(rows := s.rows[n := row.(retryCount := row.retryCount + 1, lastRetryAt := Some(s.clock.nanos))],
          failures := s.failures[n := (if n in s.failures then s.failures[n] else []) + [s.clock.nanos]])
  }

  function Apply(cfg: Config, s: State, a: Action): State
    requires Enabled(cfg, s, a)
  {
    match a
    case SetClock(now) => s.(clock := now)
    case SaveFile(d, bytes) =>
      var name := FileName(cfg, s, d);
      s.(files := s.files[name := bytes], saved := s.saved + [Saved(name, d, bytes)])
    case SaveFails(d, effect) =>
      var name := FileName(cfg, s, d);
      (match effect
       case NotCreated => s
       case Removed => s.(files := s.files - {name})
       case Torn(bytes) => s.(files := s.files[name := bytes]))
    case EnqueueRow(i, sync) => Enqueued(cfg, s, i, sync)
    case SkipQueue(i) => s.(saved := RemoveAt(s.saved, i))
    case Load(i, ok) =>
      if ok then s.(attempts := s.attempts[i := s.attempts[i].(phase := Loaded(s.files[s.attempts[i].name]))])
      else Fail(s, i)
    case Put(i, outcome) => PutDone(cfg, s, i, outcome)
    case RemoveRow(i, dbOk) => RowRemoved(s, i, dbOk)
    case Increment(i, dbOk) => Counted(s, i, dbOk)
    case Tick(names, now) => s.(attempts := s.attempts + Spawned(cfg, s, names, now))
    case Crash => s.(attempts := [], saved := [])
  }

  /** A sequence of actions each of which is possible when its turn comes. */
  predicate Legal(cfg: Config, s: State, acts: seq<Action>)
    decreases |acts|
  {
    acts == [] || (Enabled(cfg, s, acts[0]) && Legal(cfg, Apply(cfg, s, acts[0]), acts[1..]))
  }

  function Run(cfg: Config, s: State, acts: seq<Action>): State
    requires Legal(cfg, s, acts)
    decreases |acts|
  {
    if acts == [] then s else Run(cfg, Apply(cfg, s, acts[0]), acts[1..])
  }

  /** No step of the run queues `n` again. */
  predicate NeverEnqueues(cfg: Config, s: State, acts: seq<Action>, n: string)
    requires Legal(cfg, s, acts)
    decreases |acts|
  {
    acts == [] || (
      && (acts[0].EnqueueRow? ==> s.saved[acts[0].backup].name != n)
      && NeverEnqueues(cfg, Apply(cfg, s, acts[0]), acts[1..], n))
  }

  /** Only an enqueue brings a row, and a tick starts no upload without one. */
  lemma NoRowAppears(cfg: Config, s: State, a: Action, n: string)
    requires Enabled(cfg, s, a) && n !in s.rows && (a.EnqueueRow? ==> s.saved[a.backup].name != n)
    ensures n !in Apply(cfg, s, a).rows && (a.Tick? ==> n !in a.admitted)
  {
    hide Spawned, Fail, GetDatabaseByID, NoDuplicates;
    match a
    case Put(i, outcome) => PutAddsNoRow(cfg, s, i, outcome, n);
    case Load(i, _) => FailAddsNoRow(s, i, n);
    case _ =>
  }

  lemma FailAddsNoRow(s: State, i: nat, n: string)
    requires i < |s.attempts| && n !in s.rows
    ensures n !in Fail(s, i).rows
  {
  }

  lemma PutAddsNoRow(cfg: Config, s: State, i: nat, outcome: PutOutcome, n: string)
    requires i < |s.attempts| && s.attempts[i].phase.Loaded? && n !in s.rows
    ensures n !in PutDone(cfg, s, i, outcome).rows
  {
  }

  /** What saving does, whether or not it succeeds. */
  lemma SaveTouches(cfg: Config, s: State, a: Action)
    requires Enabled(cfg, s, a) && (a.SaveFile? || a.SaveFails?)
    ensures var s' := Apply(cfg, s, a);
            && (forall n :: n in s'.files ==> n in s.files || n == FileName(cfg, s, a.database))
            && (forall b :: b in s'.saved ==> b in s.saved || b.database == a.database)
            && s'.promises == s.promises
  {
  }

  /** A step that leaves files, promises and saved backups as they are. */
  predicate SameBackups(s: State, s': State) {
    s'.files == s.files && s'.promises == s.promises && s'.saved == s.saved
  }

  lemma FailTouchesNothing(s: State, i: nat)
    requires i < |s.attempts|
    ensures SameBackups(s, Fail(s, i))
  {
  }

  lemma PutTouchesNothing(cfg: Config, s: State, i: nat, outcome: PutOutcome)
    requires i < |s.attempts| && s.attempts[i].phase.Loaded?
    ensures SameBackups(s, PutDone(cfg, s, i, outcome))
  {
  }

  lemma RemovalTouchesNothing(s: State, i: nat, dbOk: bool)
    requires i < |s.attempts|
    ensures SameBackups(s, RowRemoved(s, i, dbOk))
  {
  }

  lemma CountTouchesNothing(s: State, i: nat, dbOk: bool)
    requires i < |s.attempts|
    ensures SameBackups(s, Counted(s, i, dbOk))
  {
  }

  lemma OtherTouchesNothing(cfg: Config, s: State, a: Action)
    requires Enabled(cfg, s, a) && !a.SaveFile? && !a.SaveFails? && !a.EnqueueRow?
    ensures var s' := Apply(cfg, s, a);
            s'.files == s.files && s'.promises == s.promises && forall b :: b in s'.saved ==> b in s.saved
  {
    hide PutDone, RowRemoved, Counted, Fail, Spawned, GetDatabaseByID, Admissible, NoDuplicates;
    match a
    case Put(i, outcome) => PutTouchesNothing(cfg, s, i, outcome);
    case Load(i, _) => FailTouchesNothing(s, i);
    case RemoveRow(i, dbOk) => RemovalTouchesNothing(s, i, dbOk);
    case Increment(i, dbOk) => CountTouchesNothing(s, i, dbOk);
    case _ =>
  }

  /** A run is its first step and a run of the rest. */
  lemma FirstStep(cfg: Config, s: State, a: Action, rest: seq<Action>)
    requires Enabled(cfg, s, a)
    ensures Legal(cfg, s, [a] + rest) <==> Legal(cfg, Apply(cfg, s, a), rest)
    ensures Legal(cfg, s, [a] + rest) ==> Run(cfg, s, [a] + rest) == Run(cfg, Apply(cfg, s, a), rest)
  {
    assert ([a] + rest)[1..] == rest;
  }

  predicate StepsTo(cfg: Config, s: State, a: Action, s': State) {
    Enabled(cfg, s, a) && s' == Apply(cfg, s, a)
  }

  /** A tick that admits one row. */
  lemma TickAddsOne(cfg: Config, s: State, n: string, now: int)
    requires Admissible(cfg, s, n, now)
    ensures StepsTo(cfg, s, Tick([n], now), s.(attempts := s.attempts + [Retry(cfg, s, n, now)]))
  {
    assert Spawned(cfg, s, [n], now) == [Retry(cfg, s, n, now)];
  }

  lemma RunOfSteps(cfg: Config, states: seq<State>, acts: seq<Action>)
    requires |states| == |acts| + 1
    requires forall i :: 0 <= i < |acts| ==> StepsTo(cfg, states[i], acts[i], states[i + 1])
    ensures Legal(cfg, states[0], acts) && Run(cfg, states[0], acts) == states[|acts|]
    decreases |acts|
  {
    if acts != [] {
      assert StepsTo(cfg, states[0], acts[0], states[1]);
      forall i | 0 <= i < |acts[1..]|
        ensures StepsTo(cfg, states[1..][i], acts[1..][i], states[1..][i + 1])
      {
        assert StepsTo(cfg, states[i + 1], acts[i + 1], states[i + 2]);
      }
      RunOfSteps(cfg, states[1..], acts[1..]);
    }
  }

  /** Runs can be joined. */
  lemma {:induction false} RunConcat(cfg: Config, s: State, xs: seq<Action>, ys: seq<Action>)
    requires Legal(cfg, s, xs) && Legal(cfg, Run(cfg, s, xs), ys)
    ensures Legal(cfg, s, xs + ys) && Run(cfg, s, xs + ys) == Run(cfg, Run(cfg, s, xs), ys)
    decreases |xs|
  {
    if xs == [] {
      assert xs + ys == ys;
    } else {
      assert xs + ys == [xs[0]] + (xs[1..] + ys);
      RunConcat(cfg, Apply(cfg, s, xs[0]), xs[1..], ys);
      FirstStep(cfg, s, xs[0], xs[1..] + ys);
    }
  }
}
