/** What the upload protocol keeps of every backup, over every interleaving. */
module Durability {
  import opened Text
  import opened Timestamps
  import opened Protocol

  // ---------------------------------------------------------------- no backup is lost

  /** The promise kept: the local file has its bytes, and the row is queued or the remote has them too. */
  predicate Kept(s: State, n: string)
    requires n in s.promises
  {
    var p := s.promises[n];
    && n in s.files && s.files[n] == p.bytes
    && (n in s.rows || (p.key in s.remote && s.remote[p.key] == p.bytes))
  }

  predicate NoBackupLost(s: State) {
    forall n :: n in s.promises ==> Kept(s, n)
  }

  predicate KeysDistinct(s: State) {
    forall m, n :: m in s.promises && n in s.promises && m != n ==> s.promises[m].key != s.promises[n].key
  }

  predicate RowsRemember(cfg: Config, s: State) {
    forall n :: n in s.rows ==>
      && n in s.promises
      && var d := GetDatabaseByID(cfg, s.rows[n].databaseID);
         d.Some? && cfg.objectKey(d.value.name, s.rows[n].createdAt) == s.promises[n].key
  }

  /** An attempt carries the promised key, the promised bytes once loaded, and has stored them once uploaded. */
  predicate AttemptFaithful(cfg: Config, s: State, a: Attempt) {
    && a.name in s.promises
    && var p := s.promises[a.name];
       && KeyOf(cfg, a) == p.key
       && (a.phase.Loaded? ==> a.phase.bytes == p.bytes)
       && (a.phase.Uploaded? ==> p.key in s.remote && s.remote[p.key] == p.bytes)
  }

  predicate AttemptsFaithful(cfg: Config, s: State) {
    forall a :: a in s.attempts ==> AttemptFaithful(cfg, s, a)
  }

  predicate SavedFresh(cfg: Config, s: State) {
    && (forall b :: b in s.saved ==>
          && b.name in s.files && s.files[b.name] == b.bytes && b.name !in s.promises
          && GetDatabaseByID(cfg, b.database.id) == Some(b.database))
    && (forall i, j :: 0 <= i < j < |s.saved| ==> s.saved[i].name != s.saved[j].name)
  }

  predicate Inv(cfg: Config, s: State) {
    && NoBackupLost(s) && KeysDistinct(s) && RowsRemember(cfg, s) && AttemptsFaithful(cfg, s) && SavedFresh(cfg, s)
  }

  /**
   No two backups share a file name or an object key, and a backup's database is the one its ID finds: what
   the caller has to see to.
   */
  predicate CollisionFree(cfg: Config, s: State, a: Action)
    requires Enabled(cfg, s, a)
  {
    match a
    case SaveFile(d, _) => FileName(cfg, s, d) !in s.files && GetDatabaseByID(cfg, d.id) == Some(d)
    case SaveFails(d, _) => FileName(cfg, s, d) !in s.files
    case EnqueueRow(i, _) => forall n :: n in s.promises ==> s.promises[n].key != cfg.objectKey(s.saved[i].database.name, s.clock)
    case _ => true
  }

  predicate CollisionFreeRun(cfg: Config, s: State, acts: seq<Action>)
    requires Legal(cfg, s, acts)
    decreases |acts|
  {
    acts == [] || (CollisionFree(cfg, s, acts[0]) && CollisionFreeRun(cfg, Apply(cfg, s, acts[0]), acts[1..]))
  }

  // A step's effect on each part of the invariant.

  lemma KeptSurvives(s: State, s': State)
    requires NoBackupLost(s) && s'.promises == s.promises
    requires forall n :: n in s.promises && n in s.files ==> n in s'.files && s'.files[n] == s.files[n]
    requires forall k :: k in s.remote ==> k in s'.remote && s'.remote[k] == s.remote[k]
    requires forall n :: n in s.promises && n in s.rows && n !in s'.rows ==>
               s.promises[n].key in s.remote && s.remote[s.promises[n].key] == s.promises[n].bytes
    ensures NoBackupLost(s')
  {
    forall n | n in s.promises
      ensures Kept(s', n)
    {
      assert Kept(s, n);
    }
  }

  lemma RowsStillRemember(cfg: Config, s: State, s': State)
    requires RowsRemember(cfg, s) && s'.promises == s.promises
    requires forall n :: n in s'.rows ==>
               n in s.rows && s'.rows[n].databaseID == s.rows[n].databaseID && s'.rows[n].createdAt == s.rows[n].createdAt
    ensures RowsRemember(cfg, s')
  {
    hide GetDatabaseByID;
  }

  lemma AttemptsStayFaithful(cfg: Config, s: State, s': State)
    requires AttemptsFaithful(cfg, s) && forall a :: a in s'.attempts ==> a in s.attempts
    requires forall n :: n in s.promises ==> n in s'.promises && s'.promises[n] == s.promises[n]
    requires forall k :: k in s.remote ==> k in s'.remote && s'.remote[k] == s.remote[k]
    ensures AttemptsFaithful(cfg, s')
  {
    hide KeyOf;
    forall a | a in s'.attempts
      ensures AttemptFaithful(cfg, s', a)
    {
      assert AttemptFaithful(cfg, s, a);
    }
  }

  /** A file name no promised and no saved backup has can be written, torn or removed. */
  lemma FreshFileIsSafe(cfg: Config, s: State, name: string, files: map<string, Bytes>)
    requires Inv(cfg, s) && name !in s.files
    requires forall n :: n in s.files ==> n in files && files[n] == s.files[n]
    ensures Inv(cfg, s.(files := files))
    ensures forall n :: n in s.promises ==> n != name
    ensures forall b :: b in s.saved ==> b.name != name
  {
    hide GetDatabaseByID, AttemptFaithful;
    KeptAreFiled(s);
    var s' := s.(files := files);
    KeptSurvives(s, s');
    AttemptsStayFaithful(cfg, s, s');
  }

  lemma KeptAreFiled(s: State)
    requires NoBackupLost(s)
    ensures forall n :: n in s.promises ==> n in s.files
  {
    forall n | n in s.promises
      ensures n in s.files
    {
      assert Kept(s, n);
    }
  }

  lemma SaveKeepsInv(cfg: Config, s: State, d: Database, bytes: Bytes)
    requires Inv(cfg, s) && d in cfg.databases && CollisionFree(cfg, s, SaveFile(d, bytes))
    ensures Inv(cfg, Apply(cfg, s, SaveFile(d, bytes)))
  {
    hide GetDatabaseByID, NoBackupLost, KeysDistinct, RowsRemember, AttemptsFaithful, FileName;
    var name := FileName(cfg, s, d);
    var s1 := s.(files := s.files[name := bytes]);
    FreshFileIsSafe(cfg, s, name, s1.files);
    SaveKeepsOthers(cfg, s1, Saved(name, d, bytes));
  }

  lemma SaveKeepsOthers(cfg: Config, s: State, b: Saved)
    requires Inv(cfg, s) && b.name in s.files && s.files[b.name] == b.bytes && b.name !in s.promises
    requires GetDatabaseByID(cfg, b.database.id) == Some(b.database) && forall c :: c in s.saved ==> c.name != b.name
    ensures Inv(cfg, s.(saved := s.saved + [b]))
  {
    hide GetDatabaseByID, AttemptFaithful, Kept;
    KeptSurvives(s, s.(saved := s.saved + [b]));
    AttemptsStayFaithful(cfg, s, s.(saved := s.saved + [b]));
  }

  lemma SaveFailureKeepsInv(cfg: Config, s: State, d: Database, effect: SaveEffect)
    requires Inv(cfg, s) && d in cfg.databases && FileName(cfg, s, d) !in s.files
    ensures Inv(cfg, Apply(cfg, s, SaveFails(d, effect)))
  {
    hide Inv, FileName;
    FreshFileIsSafe(cfg, s, FileName(cfg, s, d), Apply(cfg, s, SaveFails(d, effect)).files);
  }

  lemma EnqueueKeepsInv(cfg: Config, s: State, i: nat, sync: bool)
    requires Inv(cfg, s) && i < |s.saved| && CollisionFree(cfg, s, EnqueueRow(i, sync))
    ensures Inv(cfg, Enqueued(cfg, s, i, sync))
  {
    hide GetDatabaseByID, Kept, AttemptFaithful, Enqueued, CollisionFree;
    assert s.saved[i] in s.saved;
    RestIsFresh(cfg, s, i);
    EnqueueKeepsKept(cfg, s, i, sync);
    EnqueueKeepsKeys(cfg, s, i, sync);
    EnqueueKeepsRows(cfg, s, i, sync);
    EnqueueKeepsAttempts(cfg, s, i, sync);
    EnqueueKeepsSaved(cfg, s, i, sync);
  }

  lemma EnqueueKeepsKept(cfg: Config, s: State, i: nat, sync: bool)
    requires NoBackupLost(s) && i < |s.saved|
    requires var b := s.saved[i]; b.name !in s.promises && b.name in s.files && s.files[b.name] == b.bytes
    ensures NoBackupLost(Enqueued(cfg, s, i, sync))
  {
    forall n | n in s.promises
      ensures Kept(Enqueued(cfg, s, i, sync), n)
    {
      assert Kept(s, n);
    }
  }

  lemma EnqueueKeepsKeys(cfg: Config, s: State, i: nat, sync: bool)
    requires KeysDistinct(s) && i < |s.saved| && s.saved[i].name !in s.promises && CollisionFree(cfg, s, EnqueueRow(i, sync))
    ensures KeysDistinct(Enqueued(cfg, s, i, sync))
  {
  }

  lemma EnqueueKeepsRows(cfg: Config, s: State, i: nat, sync: bool)
    requires RowsRemember(cfg, s) && i < |s.saved| && s.saved[i].name !in s.promises
    requires GetDatabaseByID(cfg, s.saved[i].database.id) == Some(s.saved[i].database)
    ensures RowsRemember(cfg, Enqueued(cfg, s, i, sync))
  {
    hide GetDatabaseByID;
  }

  lemma EnqueueKeepsAttempts(cfg: Config, s: State, i: nat, sync: bool)
    requires AttemptsFaithful(cfg, s) && i < |s.saved| && s.saved[i].name !in s.promises
    ensures AttemptsFaithful(cfg, Enqueued(cfg, s, i, sync))
  {
    var s' := Enqueued(cfg, s, i, sync);
    forall a | a in s'.attempts
      ensures AttemptFaithful(cfg, s', a)
    {
      if a in s.attempts {
        assert AttemptFaithful(cfg, s, a);
      }
    }
  }

  lemma EnqueueKeepsSaved(cfg: Config, s: State, i: nat, sync: bool)
    requires i < |s.saved| && SavedFresh(cfg, s.(saved := RemoveAt(s.saved, i)))
    requires forall c :: c in RemoveAt(s.saved, i) ==> c.name != s.saved[i].name
    ensures SavedFresh(cfg, Enqueued(cfg, s, i, sync))
  {
    hide GetDatabaseByID;
  }

  lemma OthersNamed(saved: seq<Saved>, i: nat)
    requires i < |saved| && forall j, k :: 0 <= j < k < |saved| ==> saved[j].name != saved[k].name
    ensures forall c :: c in RemoveAt(saved, i) ==> c.name != saved[i].name
  {
    var r := RemoveAt(saved, i);
    forall c | c in r
      ensures c.name != saved[i].name
    {
      var j :| 0 <= j < |r| && r[j] == c;
      assert c == saved[if j < i then j else j + 1];
    }
  }

  lemma RestIsFresh(cfg: Config, s: State, i: nat)
    requires SavedFresh(cfg, s) && i < |s.saved|
    ensures forall c :: c in RemoveAt(s.saved, i) ==> c in s.saved && c.name != s.saved[i].name
    ensures SavedFresh(cfg, s.(saved := RemoveAt(s.saved, i)))
  {
    hide GetDatabaseByID;
    OthersNamed(s.saved, i);
  }

  /** Moving an attempt to another phase keeps the invariant if it stays faithful. */
  lemma MarkKeepsInv(cfg: Config, s: State, i: nat, a: Attempt)
    requires Inv(cfg, s) && i < |s.attempts| && AttemptFaithful(cfg, s, a)
    ensures Inv(cfg, s.(attempts := s.attempts[i := a]))
  {
    var s' := s.(attempts := s.attempts[i := a]);
    forall b | b in s'.attempts
      ensures AttemptFaithful(cfg, s', b)
    {
      assert b in s.attempts || b == a;
      assert AttemptFaithful(cfg, s, b);
    }
  }

  lemma FailKeepsInv(cfg: Config, s: State, i: nat)
    requires Inv(cfg, s) && i < |s.attempts|
    ensures Inv(cfg, Fail(s, i))
  {
    var a := s.attempts[i];
    assert a in s.attempts && AttemptFaithful(cfg, s, a);
    if !a.sync {
      MarkKeepsInv(cfg, s, i, a.(phase := Failed));
    }
  }

  lemma LoadKeepsInv(cfg: Config, s: State, i: nat)
    requires Inv(cfg, s) && Enabled(cfg, s, Load(i, true))
    ensures Inv(cfg, Apply(cfg, s, Load(i, true)))
  {
    var a := s.attempts[i];
    assert a in s.attempts && AttemptFaithful(cfg, s, a) && Kept(s, a.name);
    MarkKeepsInv(cfg, s, i, a.(phase := Loaded(s.files[a.name])));
  }

  /** Storing an attempt's bytes at its key changes no other backup's object. */
  lemma StoreKeepsInv(cfg: Config, s: State, i: nat)
    requires Inv(cfg, s) && i < |s.attempts| && s.attempts[i].phase.Loaded?
    ensures Inv(cfg, s.(remote := s.remote[KeyOf(cfg, s.attempts[i]) := s.attempts[i].phase.bytes]))
  {
    hide GetDatabaseByID;
    var a := s.attempts[i];
    assert a in s.attempts && AttemptFaithful(cfg, s, a);
    var s' := s.(remote := s.remote[KeyOf(cfg, a) := a.phase.bytes]);
    forall n | n in s.promises
      ensures Kept(s', n)
    {
      assert Kept(s, n);
    }
    forall b | b in s'.attempts
      ensures AttemptFaithful(cfg, s', b)
    {
      assert AttemptFaithful(cfg, s, b);
    }
  }

  lemma PutKeepsInv(cfg: Config, s: State, i: nat, outcome: PutOutcome)
    requires Inv(cfg, s) && i < |s.attempts| && s.attempts[i].phase.Loaded?
    ensures Inv(cfg, PutDone(cfg, s, i, outcome))
  {
    var a := s.attempts[i];
    var s' := if outcome.Refused? then s else s.(remote := s.remote[KeyOf(cfg, a) := a.phase.bytes]);
    StoreKeepsInv(cfg, s, i);
    if outcome.Stored? {
      assert a in s.attempts && AttemptFaithful(cfg, s, a);
      MarkKeepsInv(cfg, s', i, a.(phase := Uploaded));
    } else {
      FailKeepsInv(cfg, s', i);
    }
  }

  /** A step on rows and attempts only, that keeps what rows remember and removes delivered rows at most. */
  lemma RowStepKeepsInv(cfg: Config, s: State, s': State)
    requires Inv(cfg, s) && s'.promises == s.promises && s'.files == s.files && s'.remote == s.remote && s'.saved == s.saved
    requires forall a :: a in s'.attempts ==> a in s.attempts
    requires forall n :: n in s'.rows ==>
               n in s.rows && s'.rows[n].databaseID == s.rows[n].databaseID && s'.rows[n].createdAt == s.rows[n].createdAt
    requires forall n :: n in s.promises && n in s.rows && n !in s'.rows ==>
               s.promises[n].key in s.remote && s.remote[s.promises[n].key] == s.promises[n].bytes
    ensures Inv(cfg, s')
  {
    hide GetDatabaseByID, AttemptFaithful, Kept;
    KeptSurvives(s, s');
    RowsStillRemember(cfg, s, s');
    AttemptsStayFaithful(cfg, s, s');
  }

  lemma RemoveKeepsInv(cfg: Config, s: State, i: nat, dbOk: bool)
    requires Inv(cfg, s) && Enabled(cfg, s, RemoveRow(i, dbOk))
    ensures Inv(cfg, Apply(cfg, s, RemoveRow(i, dbOk)))
  {
    hide NoBackupLost, KeysDistinct, RowsRemember, SavedFresh, KeyOf;
    var a := s.attempts[i];
    assert a in s.attempts && AttemptFaithful(cfg, s, a);
    RowStepKeepsInv(cfg, s, RowRemoved(s, i, dbOk));
  }

  lemma CountKeepsInv(cfg: Config, s: State, i: nat, dbOk: bool)
    requires Inv(cfg, s) && i < |s.attempts|
    ensures Inv(cfg, Counted(s, i, dbOk))
  {
    hide Inv;
    RowStepKeepsInv(cfg, s, Counted(s, i, dbOk));
  }

  lemma TickKeepsInv(cfg: Config, s: State, names: seq<string>, now: int)
    requires Inv(cfg, s) && Enabled(cfg, s, Tick(names, now))
    ensures Inv(cfg, Apply(cfg, s, Tick(names, now)))
  {
  }

  /** Every step of every interleaving keeps the invariant, as long as no name and no key collides. */
  lemma StepKeepsInv(cfg: Config, s: State, a: Action)
    requires Inv(cfg, s) && Enabled(cfg, s, a) && CollisionFree(cfg, s, a)
    ensures Inv(cfg, Apply(cfg, s, a))
  {
    match a
    case SetClock(_) =>
    case SaveFile(d, bytes) => SaveKeepsInv(cfg, s, d, bytes);
    case SaveFails(d, effect) => SaveFailureKeepsInv(cfg, s, d, effect);
    case EnqueueRow(i, sync) => EnqueueKeepsInv(cfg, s, i, sync);
    case SkipQueue(i) => RestIsFresh(cfg, s, i);
    case Load(i, ok) =>
      if ok { LoadKeepsInv(cfg, s, i); } else { FailKeepsInv(cfg, s, i); }
    case Put(i, outcome) => PutKeepsInv(cfg, s, i, outcome);
    case RemoveRow(i, dbOk) => RemoveKeepsInv(cfg, s, i, dbOk);
    case Increment(i, dbOk) => CountKeepsInv(cfg, s, i, dbOk);
    case Tick(names, now) => TickKeepsInv(cfg, s, names, now);
    case Crash =>
  }

  lemma {:induction false} RunKeepsInv(cfg: Config, s: State, acts: seq<Action>)
    requires Inv(cfg, s) && Legal(cfg, s, acts) && CollisionFreeRun(cfg, s, acts)
    ensures Inv(cfg, Run(cfg, s, acts))
    decreases |acts|
  {
    if acts != [] {
      StepKeepsInv(cfg, s, acts[0]);
      RunKeepsInv(cfg, Apply(cfg, s, acts[0]), acts[1..]);
    }
  }

  /**
   No backup is lost. Over every interleaving of backups, overlapping uploads, retry ticks, failures and
   crashes in which no two backups share a file name or an object key, every enqueued backup keeps its
   local bytes, and either its row is still queued or its object holds exactly those bytes.
   */
  lemma NoBackupIsLost(cfg: Config, acts: seq<Action>)
    requires Legal(cfg, INITIAL, acts) && CollisionFreeRun(cfg, INITIAL, acts)
    ensures NoBackupLost(Run(cfg, INITIAL, acts))
  {
    RunKeepsInv(cfg, INITIAL, acts);
  }

  // ---------------------------------------------------------------- leftover attempts

  predicate IsAttemptStep(a: Action) {
    a.Load? || a.Put? || a.RemoveRow? || a.Increment?
  }

  /**
   Once a row is gone, whatever a leftover attempt for it still does leaves the queue, the files and the
   remote objects as they are: deletes and updates hit no row, and a put rewrites the same bytes.
   */
  lemma LeftoverAttemptIsHarmless(cfg: Config, s: State, a: Action)
    requires Inv(cfg, s) && Enabled(cfg, s, a) && IsAttemptStep(a)
    requires s.attempts[a.attempt].name !in s.rows
    ensures var s' := Apply(cfg, s, a);
            s'.rows == s.rows && s'.files == s.files && s'.remote == s.remote && s'.failures == s.failures
  {
    hide KeysDistinct, RowsRemember, SavedFresh, KeyOf, PutDone;
    var att := s.attempts[a.attempt];
    assert att in s.attempts && AttemptFaithful(cfg, s, att) && Kept(s, att.name);
    match a
    case Put(i, outcome) => RewritesSameBytes(cfg, s, i, outcome);
    case RemoveRow(_, _) => assert s.rows - {att.name} == s.rows;
    case _ =>
  }

  lemma RewritesSameBytes(cfg: Config, s: State, i: nat, outcome: PutOutcome)
    requires i < |s.attempts| && s.attempts[i].phase.Loaded?
    requires var a := s.attempts[i]; KeyOf(cfg, a) in s.remote && s.remote[KeyOf(cfg, a)] == a.phase.bytes
    ensures var s' := PutDone(cfg, s, i, outcome);
            s'.rows == s.rows && s'.files == s.files && s'.remote == s.remote && s'.failures == s.failures
  {
    var a := s.attempts[i];
    assert s.remote[KeyOf(cfg, a) := a.phase.bytes] == s.remote;
  }

  /** No row reappears without a new enqueue, with or without collisions. */
  lemma {:induction false} RemovedStaysRemoved(cfg: Config, s: State, acts: seq<Action>, n: string)
    requires Legal(cfg, s, acts) && n !in s.rows && NeverEnqueues(cfg, s, acts, n)
    ensures n !in Run(cfg, s, acts).rows
    decreases |acts|
  {
    hide Apply, Enabled;
    if acts != [] {
      NoRowAppears(cfg, s, acts[0], n);
      RemovedStaysRemoved(cfg, Apply(cfg, s, acts[0]), acts[1..], n);
    }
  }

  lemma PromiseSurvivesStep(cfg: Config, s: State, a: Action, n: string)
    requires SavedFresh(cfg, s) && Enabled(cfg, s, a) && n in s.promises
    ensures var s' := Apply(cfg, s, a);
            n in s'.promises && s'.promises[n] == s.promises[n] && (n !in s.rows ==> n !in s'.rows)
  {
    hide Apply, Fail, PutDone, Spawned, GetDatabaseByID, KeyOf;
    assert a.EnqueueRow? ==> s.saved[a.backup] in s.saved;
    if n !in s.rows {
      NoRowAppears(cfg, s, a, n);
    }
    match a
    case SaveFile(_, _) => SaveTouches(cfg, s, a);
    case SaveFails(_, _) => SaveTouches(cfg, s, a);
    case EnqueueRow(i, sync) => EnqueueKeepsPromises(cfg, s, i, sync, n);
    case _ => OtherTouchesNothing(cfg, s, a);
  }

  lemma EnqueueKeepsPromises(cfg: Config, s: State, i: nat, sync: bool, n: string)
    requires i < |s.saved| && n in s.promises && s.saved[i].name != n
    ensures var s' := Apply(cfg, s, EnqueueRow(i, sync)); n in s'.promises && s'.promises[n] == s.promises[n]
  {
  }

  lemma {:induction false} PromisesPersist(cfg: Config, s: State, acts: seq<Action>, n: string)
    requires Inv(cfg, s) && Legal(cfg, s, acts) && CollisionFreeRun(cfg, s, acts) && n in s.promises
    ensures var s' := Run(cfg, s, acts); n in s'.promises && s'.promises[n] == s.promises[n]
    ensures n !in s.rows ==> n !in Run(cfg, s, acts).rows
    decreases |acts|
  {
    if acts != [] {
      PromiseSurvivesStep(cfg, s, acts[0], n);
      StepKeepsInv(cfg, s, acts[0]);
      PromisesPersist(cfg, Apply(cfg, s, acts[0]), acts[1..], n);
    }
  }

  /** A backup whose row is gone has been delivered, and it stays delivered through every later step. */
  lemma DeliveredStaysDelivered(cfg: Config, s: State, acts: seq<Action>, n: string)
    requires Inv(cfg, s) && Legal(cfg, s, acts) && CollisionFreeRun(cfg, s, acts)
    requires n in s.promises && n !in s.rows
    ensures var s' := Run(cfg, s, acts);
            var p := s.promises[n];
            n !in s'.rows && p.key in s'.remote && s'.remote[p.key] == p.bytes
  {
    PromisesPersist(cfg, s, acts, n);
    RunKeepsInv(cfg, s, acts);
    assert Kept(Run(cfg, s, acts), n);
  }

  // ---------------------------------------------------------------- why collisions matter

  /** The remote still has, or will have, what every unqueued backup under `key` was promised. */
  predicate ObjectAgrees(s: State, key: string, bytes: Bytes) {
    forall n :: n in s.promises && n !in s.rows && s.promises[n].key == key ==> s.promises[n].bytes == bytes
  }

  /** What each step needs of the state it starts from so as to lose no backup. */
  predicate LosesNothing(cfg: Config, s: State, a: Action)
    requires Enabled(cfg, s, a)
  {
    match a
    case SaveFile(d, bytes) => FileName(cfg, s, d) in s.promises ==> s.promises[FileName(cfg, s, d)].bytes == bytes
    case SaveFails(d, effect) =>
      FileName(cfg, s, d) in s.promises ==> effect.NotCreated? || (effect.Torn? && s.promises[FileName(cfg, s, d)].bytes == effect.bytes)
    case EnqueueRow(i, _) => s.saved[i].name in s.files && s.files[s.saved[i].name] == s.saved[i].bytes
    case Put(i, outcome) => outcome.Refused? || ObjectAgrees(s, KeyOf(cfg, s.attempts[i]), s.attempts[i].phase.bytes)
    case RemoveRow(i, dbOk) =>
      var n := s.attempts[i].name;
      dbOk && n in s.promises ==> s.promises[n].key in s.remote && s.remote[s.promises[n].key] == s.promises[n].bytes
    case _ => true
  }

  /** A step loses a backup exactly when it misses that condition, collisions or not. */
  lemma StepLosesExactly(cfg: Config, s: State, a: Action)
    requires NoBackupLost(s) && Enabled(cfg, s, a)
    ensures NoBackupLost(Apply(cfg, s, a)) <==> LosesNothing(cfg, s, a)
  {
    match a
    case SaveFile(_, _) => SaveLosesExactly(cfg, s, a);
    case SaveFails(_, _) => SaveLosesExactly(cfg, s, a);
    case EnqueueRow(i, sync) => EnqueueLosesExactly(cfg, s, i, sync);
    case Put(i, outcome) => PutLosesExactly(cfg, s, i, outcome);
    case RemoveRow(_, _) => RemoveLosesExactly(cfg, s, a);
    case _ => OtherLosesExactly(cfg, s, a);
  }

  lemma SaveLosesExactly(cfg: Config, s: State, a: Action)
    requires NoBackupLost(s) && Enabled(cfg, s, a) && (a.SaveFile? || a.SaveFails?)
    ensures NoBackupLost(Apply(cfg, s, a)) <==> LosesNothing(cfg, s, a)
  {
    PromisedNames(s, Apply(cfg, s, a), FileName(cfg, s, a.database));
  }

  lemma RemoveLosesExactly(cfg: Config, s: State, a: Action)
    requires NoBackupLost(s) && Enabled(cfg, s, a) && a.RemoveRow?
    ensures NoBackupLost(Apply(cfg, s, a)) <==> LosesNothing(cfg, s, a)
  {
    PromisedNames(s, Apply(cfg, s, a), s.attempts[a.attempt].name);
  }

  lemma OtherLosesExactly(cfg: Config, s: State, a: Action)
    requires NoBackupLost(s) && Enabled(cfg, s, a)
    requires !a.SaveFile? && !a.SaveFails? && !a.EnqueueRow? && !a.Put? && !a.RemoveRow?
    ensures NoBackupLost(Apply(cfg, s, a)) && LosesNothing(cfg, s, a)
  {
    hide Apply, Enabled;
    OtherTouchesNothing(cfg, s, a);
    OtherKeepsStores(cfg, s, a);
    KeptSurvives(s, Apply(cfg, s, a));
  }

  lemma OtherKeepsStores(cfg: Config, s: State, a: Action)
    requires Enabled(cfg, s, a)
    requires !a.SaveFile? && !a.SaveFails? && !a.EnqueueRow? && !a.Put? && !a.RemoveRow?
    ensures Apply(cfg, s, a).remote == s.remote && forall n :: n in s.rows ==> n in Apply(cfg, s, a).rows
  {
    hide Spawned, GetDatabaseByID, Admissible, NoDuplicates, Fail;
    match a
    case Load(i, _) => FailKeepsStores(s, i);
    case _ =>
  }

  lemma FailKeepsStores(s: State, i: nat)
    requires i < |s.attempts|
    ensures Fail(s, i).remote == s.remote && Fail(s, i).rows == s.rows
  {
  }

  /** Only `n` can be lost by a step that leaves every other name's file, row and object alone. */
  lemma PromisedNames(s: State, s': State, n: string)
    requires NoBackupLost(s) && s'.promises == s.promises && s'.remote == s.remote
    requires forall m :: m in s.promises && m != n ==> (m in s'.files <==> m in s.files) && (m in s'.rows <==> m in s.rows)
    requires forall m :: m in s.promises && m != n && m in s.files ==> s'.files[m] == s.files[m]
    ensures NoBackupLost(s') <==> (n in s.promises ==> Kept(s', n))
  {
    forall m | m in s.promises && m != n
      ensures Kept(s', m)
    {
      assert Kept(s, m);
    }
  }

  lemma EnqueueLosesExactly(cfg: Config, s: State, i: nat, sync: bool)
    requires NoBackupLost(s) && i < |s.saved|
    ensures NoBackupLost(Enqueued(cfg, s, i, sync)) <==> LosesNothing(cfg, s, EnqueueRow(i, sync))
  {
    var s' := Enqueued(cfg, s, i, sync);
    var b := s.saved[i];
    forall m | m in s.promises && m != b.name
      ensures Kept(s', m)
    {
      assert Kept(s, m);
    }
    assert b.name in s'.promises;
    assert Kept(s', b.name) <==> LosesNothing(cfg, s, EnqueueRow(i, sync));
  }

  lemma PutLosesExactly(cfg: Config, s: State, i: nat, outcome: PutOutcome)
    requires NoBackupLost(s) && i < |s.attempts| && s.attempts[i].phase.Loaded?
    ensures NoBackupLost(PutDone(cfg, s, i, outcome)) <==> LosesNothing(cfg, s, Put(i, outcome))
  {
    var s' := PutDone(cfg, s, i, outcome);
    var k, bytes := KeyOf(cfg, s.attempts[i]), s.attempts[i].phase.bytes;
    if outcome.Refused? || ObjectAgrees(s, k, bytes) {
      forall m | m in s.promises
        ensures Kept(s', m)
      {
        assert Kept(s, m);
      }
    } else {
      var n :| n in s.promises && n !in s.rows && s.promises[n].key == k && s.promises[n].bytes != bytes;
      assert !Kept(s', n);
    }
  }

  /** Two backups of one database in one second: the second save overwrites the queued first one. */
  lemma SameSecondLosesBytes(cfg: Config, d: Database, first: Bytes, second: Bytes) returns (acts: seq<Action>)
    requires d in cfg.databases && first != second
    ensures Legal(cfg, INITIAL, acts) && !NoBackupLost(Run(cfg, INITIAL, acts))
  {
    var s1 := Apply(cfg, INITIAL, SaveFile(d, first));
    var s2 := Apply(cfg, s1, EnqueueRow(0, false));
    var s3 := Apply(cfg, s2, SaveFile(d, second));
    acts := [SaveFile(d, first)] + ([EnqueueRow(0, false)] + ([SaveFile(d, second)] + []));
    FirstStep(cfg, s2, SaveFile(d, second), []);
    FirstStep(cfg, s1, EnqueueRow(0, false), [SaveFile(d, second)] + []);
    FirstStep(cfg, INITIAL, SaveFile(d, first), [EnqueueRow(0, false)] + ([SaveFile(d, second)] + []));
    assert !Kept(s3, FileName(cfg, INITIAL, d));
  }

  // ---------------------------------------------------------------- runs of single backups

  function Queueing(d: Database, bytes: Bytes, sync: bool): seq<Action> {
    [SaveFile(d, bytes), EnqueueRow(0, sync)]
  }

  function Storing(i: nat): seq<Action> {
    [Load(i, true), Put(i, Stored)]
  }

  /** One backup from enqueue to delivery, with nothing failing. */
  function Delivery(d: Database, bytes: Bytes): seq<Action> {
    Queueing(d, bytes, false) + (Storing(0) + [RemoveRow(0, true)])
  }

  /** What a backup queued now promises and leaves in the stores. */
  function AfterQueueing(cfg: Config, s: State, d: Database, bytes: Bytes, sync: bool): State {
    var n := FileName(cfg, s, d);
    s.(files := s.files[n := bytes], rows := s.rows[n := Row(d.id, s.clock, 0, None)],
       attempts := [Attempt(n, d, s.clock, sync, s.clock.nanos, Admitted)],
       promises := s.promises[n := Promise(bytes, cfg.objectKey(d.name, s.clock))], failures := s.failures[n := []])
  }

  lemma QueueingRuns(cfg: Config, s: State, d: Database, bytes: Bytes, sync: bool)
    requires d in cfg.databases && s.attempts == [] && s.saved == []
    ensures Legal(cfg, s, Queueing(d, bytes, sync)) && Run(cfg, s, Queueing(d, bytes, sync)) == AfterQueueing(cfg, s, d, bytes, sync)
  {
    hide Legal, Run;
    var n := FileName(cfg, s, d);
    var s1 := s.(files := s.files[n := bytes], saved := [Saved(n, d, bytes)]);
    var s2 := AfterQueueing(cfg, s, d, bytes, sync);
    assert StepsTo(cfg, s, SaveFile(d, bytes), s1);
    assert StepsTo(cfg, s1, EnqueueRow(0, sync), s2);
    RunOfSteps(cfg, [s, s1, s2], Queueing(d, bytes, sync));
  }

  /** An upload loads its file and stores it, whatever else is in flight. */
  lemma StoringRuns(cfg: Config, s: State, i: nat)
    requires InPhase(s, i, Admitted) && s.attempts[i].name in s.files
    ensures Legal(cfg, s, Storing(i))
    ensures var a := s.attempts[i];
            Run(cfg, s, Storing(i)) == s.(attempts := s.attempts[i := a.(phase := Uploaded)],
                                          remote := s.remote[KeyOf(cfg, a) := s.files[a.name]])
  {
    hide Legal, Run;
    var a := s.attempts[i];
    var bytes := s.files[a.name];
    var s1 := s.(attempts := s.attempts[i := a.(phase := Loaded(bytes))]);
    var s2 := s.(attempts := s.attempts[i := a.(phase := Uploaded)], remote := s.remote[KeyOf(cfg, a) := bytes]);
    assert StepsTo(cfg, s, Load(i, true), s1);
    assert StepsTo(cfg, s1, Put(i, Stored), s2);
    RunOfSteps(cfg, [s, s1, s2], Storing(i));
  }

  /** And then removes its row. */
  lemma UploadRuns(cfg: Config, s: State, i: nat)
    requires InPhase(s, i, Admitted) && s.attempts[i].name in s.files
    ensures Legal(cfg, s, Storing(i) + [RemoveRow(i, true)])
    ensures var a := s.attempts[i];
            Run(cfg, s, Storing(i) + [RemoveRow(i, true)])
            == s.(attempts := RemoveAt(s.attempts, i), remote := s.remote[KeyOf(cfg, a) := s.files[a.name]], rows := s.rows - {a.name})
  {
    hide Legal, Run, KeyOf;
    StoringRuns(cfg, s, i);
    var t := Run(cfg, s, Storing(i));
    assert RemoveAt(t.attempts, i) == RemoveAt(s.attempts, i);
    assert StepsTo(cfg, t, RemoveRow(i, true), RowRemoved(t, i, true));
    RunOfSteps(cfg, [t, RowRemoved(t, i, true)], [RemoveRow(i, true)]);
    RunConcat(cfg, s, Storing(i), [RemoveRow(i, true)]);
  }

  lemma DeliveryRuns(cfg: Config, s: State, d: Database, bytes: Bytes)
    requires d in cfg.databases && s.attempts == [] && s.saved == []
    ensures Legal(cfg, s, Delivery(d, bytes))
    ensures var n, k := FileName(cfg, s, d), cfg.objectKey(d.name, s.clock);
            Run(cfg, s, Delivery(d, bytes)) == s.(files := s.files[n := bytes], remote := s.remote[k := bytes],
                                                  rows := s.rows - {n}, failures := s.failures[n := []],
                                                  promises := s.promises[n := Promise(bytes, k)])
  {
    hide Legal, Run;
    QueueingRuns(cfg, s, d, bytes, false);
    var t := AfterQueueing(cfg, s, d, bytes, false);
    UploadRuns(cfg, t, 0);
    RunConcat(cfg, s, Queueing(d, bytes, false), Storing(0) + [RemoveRow(0, true)]);
    assert t.rows - {FileName(cfg, s, d)} == s.rows - {FileName(cfg, s, d)};
  }

  /** Two databases with one name: in one second their backups share a key, and the second put replaces the first object. */
  lemma SameKeyLosesObject(cfg: Config, d: Database, e: Database, first: Bytes, second: Bytes) returns (acts: seq<Action>)
    requires d in cfg.databases && e in cfg.databases
    requires d.name == e.name && cfg.fileName(d, 0) != cfg.fileName(e, 0) && first != second
    ensures Legal(cfg, INITIAL, acts) && !NoBackupLost(Run(cfg, INITIAL, acts))
  {
    hide Legal, Run;
    DeliveryRuns(cfg, INITIAL, d, first);
    var s := Run(cfg, INITIAL, Delivery(d, first));
    DeliveryRuns(cfg, s, e, second);
    acts := Delivery(d, first) + Delivery(e, second);
    RunConcat(cfg, INITIAL, Delivery(d, first), Delivery(e, second));
    assert !Kept(Run(cfg, INITIAL, acts), cfg.fileName(d, 0));
  }

  /** After a crash a row is retried, under the database its ID finds. */
  function Retrying(n: string): seq<Action> {
    [Crash, Tick([n], 0)]
  }

  lemma RetryingRuns(cfg: Config, s: State, n: string)
    requires Admissible(cfg, s, n, 0)
    ensures Legal(cfg, s, Retrying(n)) && Run(cfg, s, Retrying(n)) == s.(saved := [], attempts := [Retry(cfg, s, n, 0)])
  {
    hide Legal, Run, Eligible, GetDatabaseByID;
    var s1 := s.(saved := [], attempts := []);
    assert StepsTo(cfg, s, Crash, s1);
    TickAddsOne(cfg, s1, n, 0);
    assert [] + [Retry(cfg, s, n, 0)] == [Retry(cfg, s, n, 0)];
    RunOfSteps(cfg, [s, s1, s.(saved := [], attempts := [Retry(cfg, s, n, 0)])], Retrying(n));
  }

  /** The backup of one database retried under another: what is left when `e` shares the ID of an earlier `d`. */
  lemma MisroutedRuns(cfg: Config, s: State, d: Database, e: Database, bytes: Bytes) returns (acts: seq<Action>)
    requires GetDatabaseByID(cfg, e.id) == Some(d) && e in cfg.databases && s.attempts == [] && s.saved == []
    ensures Legal(cfg, s, acts)
    ensures var n := FileName(cfg, s, e);
            Run(cfg, s, acts) == s.(files := s.files[n := bytes], remote := s.remote[cfg.objectKey(d.name, s.clock) := bytes],
                                    rows := s.rows - {n}, failures := s.failures[n := []],
                                    promises := s.promises[n := Promise(bytes, cfg.objectKey(e.name, s.clock))])
  {
    hide Legal, Run, GetDatabaseByID;
    var n := FileName(cfg, s, e);
    QueueingRuns(cfg, s, e, bytes, false);
    var t := AfterQueueing(cfg, s, e, bytes, false);
    RetryingRuns(cfg, t, n);
    var u := t.(saved := [], attempts := [Retry(cfg, t, n, 0)]);
    UploadRuns(cfg, u, 0);
    RunConcat(cfg, t, Retrying(n), Storing(0) + [RemoveRow(0, true)]);
    RunConcat(cfg, s, Queueing(e, bytes, false), Retrying(n) + (Storing(0) + [RemoveRow(0, true)]));
    acts := Queueing(e, bytes, false) + (Retrying(n) + (Storing(0) + [RemoveRow(0, true)]));
    assert t.rows - {n} == s.rows - {n};
  }

  /**
   Two databases with one ID: a retry of the second one's backup finds the first, replaces its object of the
   same second, and removes the row though the second one's own key was never stored.
   */
  lemma SharedIDLosesBackups(cfg: Config, d: Database, e: Database, first: Bytes, second: Bytes) returns (acts: seq<Action>)
    requires GetDatabaseByID(cfg, e.id) == Some(d) && d in cfg.databases && e in cfg.databases
    requires cfg.fileName(d, 0) != cfg.fileName(e, 0) && first != second
    ensures Legal(cfg, INITIAL, acts)
    ensures var s := Run(cfg, INITIAL, acts);
            var m, n := cfg.fileName(d, 0), cfg.fileName(e, 0);
            && m in s.promises && n in s.promises && !Kept(s, m)
            && (cfg.objectKey(d.name, INITIAL.clock) != cfg.objectKey(e.name, INITIAL.clock) ==> !Kept(s, n))
  {
    hide Legal, Run, GetDatabaseByID;
    DeliveryRuns(cfg, INITIAL, d, first);
    var s := Run(cfg, INITIAL, Delivery(d, first));
    var rest := MisroutedRuns(cfg, s, d, e, second);
    RunConcat(cfg, INITIAL, Delivery(d, first), rest);
    acts := Delivery(d, first) + rest;
  }

  /**
   A backup that waits for its upload while a tick uploads the same row: the tick's upload removes the row
   first, so that the other, having stored the same bytes, finds none to remove and reports a failure.
   */
  lemma DeliveredButReportedFailed(cfg: Config, d: Database, bytes: Bytes) returns (acts: seq<Action>)
    requires d in cfg.databases && GetDatabaseByID(cfg, d.id) == Some(d)
    ensures Legal(cfg, INITIAL, acts)
    ensures var s := Run(cfg, INITIAL, acts);
            && InPhase(s, 0, Uploaded) && s.attempts[0].sync
            && s.attempts[0].name in s.promises && s.promises[s.attempts[0].name].bytes == bytes
            && Kept(s, s.attempts[0].name) && !RemovalSucceeds(s, 0, true)
  {
    hide Legal, Run, GetDatabaseByID;
    QueueingRuns(cfg, INITIAL, d, bytes, true);
    var s1 := AfterQueueing(cfg, INITIAL, d, bytes, true);
    var a := s1.attempts[0];
    TickAddsOne(cfg, s1, a.name, 0);
    var s2 := s1.(attempts := s1.attempts + [Retry(cfg, s1, a.name, 0)]);
    RunOfSteps(cfg, [s1, s2], [Tick([a.name], 0)]);
    UploadRuns(cfg, s2, 1);
    var removing := Storing(1) + [RemoveRow(1, true)];
    var s3 := Run(cfg, s2, removing);
    assert s3.attempts == [a];
    StoringRuns(cfg, s3, 0);
    RunConcat(cfg, s2, removing, Storing(0));
    RunConcat(cfg, s1, [Tick([a.name], 0)], removing + Storing(0));
    RunConcat(cfg, INITIAL, Queueing(d, bytes, true), [Tick([a.name], 0)] + (removing + Storing(0)));
    acts := Queueing(d, bytes, true) + ([Tick([a.name], 0)] + (removing + Storing(0)));
  }
}
