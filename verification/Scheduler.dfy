/** The scheduler's registry of cron entries, and the jobs that are really live. */
module Scheduling {
  import opened Text

  datatype DatabaseConfig = DatabaseConfig(id: string, name: string, schedule: string, enabled: bool)

  /** What a cron entry runs: a backup of a captured configuration, or the retry loop. */
  datatype Job = Backup(db: DatabaseConfig) | QueueProcessor

  datatype Entry = Entry(schedule: string, job: Job)

  datatype Outcome = Scheduled | NotFound | NoSchedule | AddFailed

  const QUEUE_SCHEDULE := "0 */5 * * * *"

  function IDOf(db: DatabaseConfig): string {
    db.id
  }

  function GetDatabaseByID(databases: seq<DatabaseConfig>, id: string): (r: Option<DatabaseConfig>)
    ensures r.Some? ==> r.value in databases && r.value.id == id
  {
    FindByID(databases, IDOf, id)
  }

  // ---------------------------------------------------------------- the operations on values

  /** Cron's entries and its last entry ID, and the scheduler's map from database IDs to entry IDs. */
  datatype Registry = Registry(entries: map<nat, Entry>, lastID: nat, entryIDs: map<string, nat>)

  const FRESH := Registry(map[], 0, map[])

  function Unlisted(r: Registry, id: string): Registry {
    if id in r.entryIDs then r.(entries := r.entries - {r.entryIDs[id]}) else r
  }

  function Added(r: Registry, e: Entry): Registry {
    r.(entries := r.entries[r.lastID + 1 := e], lastID := r.lastID + 1)
  }

  /** ScheduleDatabase: an old entry goes before the new schedule is known to parse. */
  function ScheduleResult(r: Registry, databases: seq<DatabaseConfig>, id: string, parses: string -> bool): (Registry, Outcome) {
    match GetDatabaseByID(databases, id)
    case None => (r, NotFound)
    case Some(db) =>
      if db.schedule == "" then (r, NoSchedule)
      else if !parses(db.schedule) then (Unlisted(r, id), AddFailed)
      else
        var added := Added(Unlisted(r, id), Entry(db.schedule, Backup(db)));
        (added.(entryIDs := added.entryIDs[id := added.lastID]), Scheduled)
  }

  function UnscheduleResult(r: Registry, id: string): (Registry, bool) {
    if id !in r.entryIDs then (r, false) else (Unlisted(r, id).(entryIDs := r.entryIDs - {id}), true)
  }

  predicate ToSchedule(db: DatabaseConfig) {
    db.enabled && db.schedule != ""
  }

  /** Start's loop over the first `n` databases: the first failure ends it. */
  function ScheduleAll(r: Registry, databases: seq<DatabaseConfig>, n: nat, parses: string -> bool): (Registry, bool)
    requires n <= |databases|
  {
    if n == 0 then (r, true)
    else
      var (s, ok) := ScheduleAll(r, databases, n - 1, parses);
      if !ok || !ToSchedule(databases[n - 1]) then (s, ok)
      else
        var (t, outcome) := ScheduleResult(s, databases, databases[n - 1].id, parses);
        (t, outcome.Scheduled?)
  }

  function StartResult(r: Registry, databases: seq<DatabaseConfig>, parses: string -> bool): (Registry, bool) {
    var (s, ok) := ScheduleAll(r, databases, |databases|, parses);
    if !ok || !parses(QUEUE_SCHEDULE) then (s, false) else (Added(s, Entry(QUEUE_SCHEDULE, QueueProcessor)), true)
  }

  // ---------------------------------------------------------------- the scheduler

  class Cron {
    var entries: map<nat, Entry>
    var lastID: nat
    var running: bool

    constructor ()
      ensures entries == map[] && lastID == 0 && !running
    {
      entries, lastID, running := map[], 0, false;
    }

    /** Adds a job under a fresh ID, if its schedule parses. */
    method AddFunc(schedule: string, job: Job, parses: string -> bool) returns (r: Option<nat>)
      modifies this
      ensures running == old(running)
      ensures !parses(schedule) ==> r == None && entries == old(entries) && lastID == old(lastID)
      ensures parses(schedule) ==>
                r == Some(lastID) && lastID == old(lastID) + 1 && entries == old(entries)[lastID := Entry(schedule, job)]
    {
      if !parses(schedule) {
        return None;
      }
      lastID := lastID + 1;
      entries := entries[lastID := Entry(schedule, job)];
      return Some(lastID);
    }

    method Remove(id: nat)
      modifies this
      ensures running == old(running)
      ensures entries == old(entries) - {id} && lastID == old(lastID)
    {
      entries := entries - {id};
    }

    method Start()
      modifies this
      ensures running && entries == old(entries) && lastID == old(lastID)
    {
      running := true;
    }
  }

  class Scheduler {
    const cron: Cron
    const databases: seq<DatabaseConfig>
    var entryIDs: map<string, nat>

    constructor (databases: seq<DatabaseConfig>)
      ensures fresh(cron) && !cron.running && this.databases == databases && Contents() == FRESH
    {
      cron := new Cron();
      this.databases := databases;
      entryIDs := map[];
    }

    ghost function Contents(): Registry
      reads this, cron
    {
      Registry(cron.entries, cron.lastID, entryIDs)
    }

    method ScheduleDatabase(databaseID: string, parses: string -> bool) returns (outcome: Outcome)
      modifies this, cron
      ensures (Contents(), outcome) == ScheduleResult(old(Contents()), databases, databaseID, parses)
      ensures cron.running == old(cron.running)
    {
      var dbConfig := GetDatabaseByID(databases, databaseID);
      if dbConfig.None? {
        return NotFound;
      }
      if dbConfig.value.schedule == "" {
        return NoSchedule;
      }
      if databaseID in entryIDs {
        cron.Remove(entryIDs[databaseID]);
      }
      var db := dbConfig.value;
      var entryID := cron.AddFunc(db.schedule, Backup(db), parses);
      if entryID.None? {
        return AddFailed;
      }
      entryIDs := entryIDs[databaseID := entryID.value];
      return Scheduled;
    }

    method UnscheduleDatabase(databaseID: string) returns (ok: bool)
      modifies this, cron
      ensures (Contents(), ok) == UnscheduleResult(old(Contents()), databaseID)
      ensures cron.running == old(cron.running)
    {
      if databaseID !in entryIDs {
        return false;
      }
      cron.Remove(entryIDs[databaseID]);
      entryIDs := entryIDs - {databaseID};
      return true;
    }

    /** Start: cron runs only if every job could be added. */
    method Start(parses: string -> bool) returns (ok: bool)
      modifies this, cron
      ensures (Contents(), ok) == StartResult(old(Contents()), databases, parses)
      ensures cron.running == (old(cron.running) || ok)
    {
      hide ScheduleResult;
      for i := 0 to |databases|
        invariant (Contents(), true) == ScheduleAll(old(Contents()), databases, i, parses)
        invariant cron.running == old(cron.running)
      {
        var db := databases[i];
        if db.enabled && db.schedule != "" {
          var outcome := ScheduleDatabase(db.id, parses);
          if !outcome.Scheduled? {
            FailureSticks(old(Contents()), databases, i + 1, |databases|, parses);
            return false;
          }
        }
      }
      var entryID := cron.AddFunc(QUEUE_SCHEDULE, QueueProcessor, parses);
      if entryID.None? {
        return false;
      }
      cron.Start();
      return true;
    }
  }

  lemma {:induction false} FailureSticks(r: Registry, databases: seq<DatabaseConfig>, m: nat, n: nat, parses: string -> bool)
    requires m <= n <= |databases| && !ScheduleAll(r, databases, m, parses).1
    ensures ScheduleAll(r, databases, n, parses) == ScheduleAll(r, databases, m, parses)
    decreases n
  {
    if m < n {
      FailureSticks(r, databases, m, n - 1, parses);
    }
  }

  // ---------------------------------------------------------------- what every run keeps

  predicate IsBackupOf(e: Entry, id: string) {
    e.job.Backup? && e.job.db.id == id
  }

  predicate SameDatabase(e: Entry, f: Entry) {
    e.job.Backup? && f.job.Backup? && e.job.db.id == f.job.db.id
  }

  /**
   Every live backup job is the recorded one of its database, and a recorded entry is never another
   database's job; entry IDs are not reused.
   */
  predicate Inv(r: Registry) {
    && (forall k :: k in r.entries ==> k <= r.lastID)
    && (forall id :: id in r.entryIDs ==> r.entryIDs[id] <= r.lastID)
    && (forall k :: k in r.entries && r.entries[k].job.Backup? ==>
          r.entries[k].job.db.id in r.entryIDs && r.entryIDs[r.entries[k].job.db.id] == k)
    && (forall id :: id in r.entryIDs && r.entryIDs[id] in r.entries ==> IsBackupOf(r.entries[r.entryIDs[id]], id))
  }

  lemma UnlistedKeepsInv(r: Registry, id: string)
    requires Inv(r)
    ensures Inv(Unlisted(r, id))
    ensures forall k :: k in Unlisted(r, id).entries ==> !IsBackupOf(r.entries[k], id)
  {
  }

  lemma ScheduleKeepsInv(r: Registry, databases: seq<DatabaseConfig>, id: string, parses: string -> bool)
    requires Inv(r)
    ensures Inv(ScheduleResult(r, databases, id, parses).0)
  {
    UnlistedKeepsInv(r, id);
  }

  lemma UnscheduleKeepsInv(r: Registry, id: string)
    requires Inv(r)
    ensures Inv(UnscheduleResult(r, id).0)
  {
    UnlistedKeepsInv(r, id);
  }

  lemma {:induction false} ScheduleAllKeepsInv(r: Registry, databases: seq<DatabaseConfig>, n: nat, parses: string -> bool)
    requires Inv(r) && n <= |databases|
    ensures Inv(ScheduleAll(r, databases, n, parses).0)
  {
    hide Inv, ScheduleResult;
    if n > 0 {
      ScheduleAllKeepsInv(r, databases, n - 1, parses);
      ScheduleKeepsInv(ScheduleAll(r, databases, n - 1, parses).0, databases, databases[n - 1].id, parses);
    }
  }

  lemma ProcessorKeepsInv(r: Registry)
    requires Inv(r)
    ensures Inv(Added(r, Entry(QUEUE_SCHEDULE, QueueProcessor)))
  {
  }

  /** One call, with whatever configuration and schedules that parse at the time. */
  datatype Call =
    | ScheduleCall(id: string, databases: seq<DatabaseConfig>, parses: string -> bool)
    | UnscheduleCall(id: string)
    | StartCall(databases: seq<DatabaseConfig>, parses: string -> bool)

  function After(r: Registry, c: Call): Registry {
    match c
    case ScheduleCall(id, databases, parses) => ScheduleResult(r, databases, id, parses).0
    case UnscheduleCall(id) => UnscheduleResult(r, id).0
    case StartCall(databases, parses) => StartResult(r, databases, parses).0
  }

  function AfterAll(r: Registry, calls: seq<Call>): Registry {
    if calls == [] then r else After(AfterAll(r, calls[..|calls| - 1]), calls[|calls| - 1])
  }

  lemma CallKeepsInv(r: Registry, c: Call)
    requires Inv(r)
    ensures Inv(After(r, c))
  {
    hide Inv, ScheduleAll;
    match c
    case ScheduleCall(id, databases, parses) => ScheduleKeepsInv(r, databases, id, parses);
    case UnscheduleCall(id) => UnscheduleKeepsInv(r, id);
    case StartCall(databases, parses) =>
      ScheduleAllKeepsInv(r, databases, |databases|, parses);
      ProcessorKeepsInv(ScheduleAll(r, databases, |databases|, parses).0);
  }

  lemma {:induction false} RunKeepsInv(calls: seq<Call>)
    ensures Inv(AfterAll(FRESH, calls))
  {
    hide After;
    if calls != [] {
      RunKeepsInv(calls[..|calls| - 1]);
      CallKeepsInv(AfterAll(FRESH, calls[..|calls| - 1]), calls[|calls| - 1]);
    }
  }

  /** After any sequence of calls, failed ones too, every live backup job is recorded and no database has two. */
  lemma LiveJobsAreRecorded(calls: seq<Call>, j: nat, k: nat)
    ensures var r := AfterAll(FRESH, calls);
            && (j in r.entries && r.entries[j].job.Backup? ==>
                  r.entries[j].job.db.id in r.entryIDs && r.entryIDs[r.entries[j].job.db.id] == j)
            && (j in r.entries && k in r.entries && SameDatabase(r.entries[j], r.entries[k]) ==> j == k)
  {
    RunKeepsInv(calls);
  }

  // ---------------------------------------------------------------- stale entries

  predicate Live(r: Registry, id: string) {
    id in r.entryIDs && r.entryIDs[id] in r.entries
  }

  /** The registry records live jobs only. */
  predicate Current(r: Registry) {
    forall id :: id in r.entryIDs ==> Live(r, id)
  }

  /** A schedule that does not parse unschedules a scheduled database and leaves its dead entry recorded. */
  predicate LeavesStaleEntry(r: Registry, databases: seq<DatabaseConfig>, id: string, parses: string -> bool) {
    && id in r.entryIDs && GetDatabaseByID(databases, id).Some?
    && var schedule := GetDatabaseByID(databases, id).value.schedule; schedule != "" && !parses(schedule)
  }

  lemma ScheduleStaysCurrentExactly(r: Registry, databases: seq<DatabaseConfig>, id: string, parses: string -> bool)
    requires Inv(r) && Current(r)
    ensures Current(ScheduleResult(r, databases, id, parses).0) <==> !LeavesStaleEntry(r, databases, id, parses)
  {
    hide Inv;
    var s := ScheduleResult(r, databases, id, parses).0;
    OthersStayLive(r, databases, id, parses);
    if LeavesStaleEntry(r, databases, id, parses) {
      assert id in s.entryIDs && !Live(s, id);
    }
  }

  lemma OthersStayLive(r: Registry, databases: seq<DatabaseConfig>, id: string, parses: string -> bool)
    requires Inv(r)
    ensures var s := ScheduleResult(r, databases, id, parses).0;
            && (forall other :: other != id && Live(r, other) ==> Live(s, other) && s.entries[s.entryIDs[other]] == r.entries[r.entryIDs[other]])
            && (forall other :: other != id ==> (other in s.entryIDs <==> other in r.entryIDs))
            && (forall k :: k in s.entries && !s.entries[k].job.Backup? <==> k in r.entries && !r.entries[k].job.Backup?)
  {
    forall other | other != id && Live(r, other)
      ensures id in r.entryIDs ==> r.entryIDs[other] != r.entryIDs[id]
    {
      assert IsBackupOf(r.entries[r.entryIDs[other]], other);
    }
  }

  lemma UnscheduleStaysCurrent(r: Registry, id: string)
    requires Inv(r) && Current(r)
    ensures Current(UnscheduleResult(r, id).0)
  {
    forall other | other in r.entryIDs && other != id
      ensures Live(r, other) && (id in r.entryIDs ==> r.entryIDs[other] != r.entryIDs[id])
    {
      assert IsBackupOf(r.entries[r.entryIDs[other]], other);
    }
  }

  /** The databases a start has scheduled: some enabled entry of that ID asks for it. */
  predicate Asked(databases: seq<DatabaseConfig>, n: nat, id: string)
    requires n <= |databases|
  {
    exists i :: 0 <= i < n && databases[i].id == id && ToSchedule(databases[i])
  }

  lemma AskedNext(databases: seq<DatabaseConfig>, n: nat, id: string)
    requires 0 < n <= |databases|
    ensures Asked(databases, n, id) <==> Asked(databases, n - 1, id) || (databases[n - 1].id == id && ToSchedule(databases[n - 1]))
  {
  }

  lemma NothingAsked(databases: seq<DatabaseConfig>, id: string)
    ensures !Asked(databases, 0, id)
  {
  }

  /** What scheduling an ID comes to: its first configuration has a schedule, and that parses. */
  predicate CanSchedule(databases: seq<DatabaseConfig>, id: string, parses: string -> bool) {
    var db := GetDatabaseByID(databases, id);
    db.Some? && db.value.schedule != "" && parses(db.value.schedule)
  }

  /** Start gets to its database `n`: all it schedules before can be scheduled. */
  predicate Reached(databases: seq<DatabaseConfig>, n: nat, parses: string -> bool)
    requires n <= |databases|
  {
    forall k :: 0 <= k < n && ToSchedule(databases[k]) ==> CanSchedule(databases, databases[k].id, parses)
  }

  /** Start reschedules at its database `n` an ID it then cannot schedule. */
  predicate StartLeavesStaleEntry(r: Registry, databases: seq<DatabaseConfig>, n: nat, parses: string -> bool)
    requires n < |databases|
  {
    Reached(databases, n, parses) && ToSchedule(databases[n]) && LeavesStaleEntry(r, databases, databases[n].id, parses)
  }

  lemma ScheduleSucceeds(r: Registry, databases: seq<DatabaseConfig>, id: string, parses: string -> bool)
    ensures ScheduleResult(r, databases, id, parses).1.Scheduled? <==> CanSchedule(databases, id, parses)
    ensures var s := ScheduleResult(r, databases, id, parses).0;
            forall other :: other in s.entryIDs <==> other in r.entryIDs || (other == id && CanSchedule(databases, id, parses))
  {
  }

  lemma {:induction false} ScheduleAllReaches(r: Registry, databases: seq<DatabaseConfig>, n: nat, parses: string -> bool)
    requires n <= |databases|
    ensures ScheduleAll(r, databases, n, parses).1 <==> Reached(databases, n, parses)
    decreases n
  {
    hide ScheduleResult, CanSchedule, ToSchedule;
    if n > 0 {
      ScheduleAllReaches(r, databases, n - 1, parses);
      ScheduleSucceeds(ScheduleAll(r, databases, n - 1, parses).0, databases, databases[n - 1].id, parses);
    }
  }

  /** As long as nothing fails, the IDs recorded are those from before and those asked for. */
  lemma {:induction false} ScheduleAllRecords(r: Registry, databases: seq<DatabaseConfig>, n: nat, parses: string -> bool, id: string)
    requires n <= |databases| && ScheduleAll(r, databases, n, parses).1
    ensures id in ScheduleAll(r, databases, n, parses).0.entryIDs <==> id in r.entryIDs || Asked(databases, n, id)
    decreases n
  {
    hide ScheduleResult, CanSchedule, ToSchedule, Asked;
    if n == 0 {
      NothingAsked(databases, id);
    } else {
      ScheduleAllRecords(r, databases, n - 1, parses, id);
      AskedNext(databases, n, id);
      ScheduleSucceeds(ScheduleAll(r, databases, n - 1, parses).0, databases, databases[n - 1].id, parses);
    }
  }

  /** An ID that cannot be scheduled was not asked for before, so it was recorded before the start. */
  lemma StaleAtStart(r: Registry, databases: seq<DatabaseConfig>, n: nat, parses: string -> bool)
    requires n < |databases| && Reached(databases, n, parses)
    ensures var s := ScheduleAll(r, databases, n, parses).0;
            LeavesStaleEntry(s, databases, databases[n].id, parses) <==> LeavesStaleEntry(r, databases, databases[n].id, parses)
  {
    hide ScheduleAll;
    var id := databases[n].id;
    ScheduleAllReaches(r, databases, n, parses);
    ScheduleAllRecords(r, databases, n, parses, id);
    if Asked(databases, n, id) {
      var i :| 0 <= i < n && databases[i].id == id && ToSchedule(databases[i]);
      assert CanSchedule(databases, id, parses);
    }
  }

  lemma {:induction false} ScheduleAllStaysCurrentExactly(r: Registry, databases: seq<DatabaseConfig>, n: nat, parses: string -> bool)
    requires Inv(r) && Current(r) && n <= |databases|
    ensures Current(ScheduleAll(r, databases, n, parses).0) <==> (forall k :: 0 <= k < n ==> !StartLeavesStaleEntry(r, databases, k, parses))
    decreases n
  {
    hide Inv, Current, ScheduleResult, ToSchedule, LeavesStaleEntry, Reached;
    if n > 0 {
      var s := ScheduleAll(r, databases, n - 1, parses).0;
      ScheduleAllStaysCurrentExactly(r, databases, n - 1, parses);
      ScheduleAllReaches(r, databases, n - 1, parses);
      if Reached(databases, n - 1, parses) {
        NoneStaleBefore(r, databases, n - 1, parses);
        ScheduleAllKeepsInv(r, databases, n - 1, parses);
        StaleAtStart(r, databases, n - 1, parses);
        ScheduleStaysCurrentExactly(s, databases, databases[n - 1].id, parses);
      }
      var stale := StartLeavesStaleEntry(r, databases, n - 1, parses);
      assert Current(ScheduleAll(r, databases, n, parses).0) <==> Current(s) && !stale;
    }
  }

  lemma NoneStaleBefore(r: Registry, databases: seq<DatabaseConfig>, n: nat, parses: string -> bool)
    requires n <= |databases| && Reached(databases, n, parses)
    ensures forall k :: 0 <= k < n ==> !StartLeavesStaleEntry(r, databases, k, parses)
  {
  }

  /**
   A start leaves a dead entry recorded exactly if it gets to a recorded database whose schedule does not
   parse. A first start cannot; a repeated one can.
   */
  lemma StartStaysCurrentExactly(r: Registry, databases: seq<DatabaseConfig>, parses: string -> bool)
    requires Inv(r) && Current(r)
    ensures Current(StartResult(r, databases, parses).0)
       <==> (forall n :: 0 <= n < |databases| ==> !StartLeavesStaleEntry(r, databases, n, parses))
  {
    hide ScheduleAll, StartLeavesStaleEntry, Inv, Current;
    ScheduleAllStaysCurrentExactly(r, databases, |databases|, parses);
    ScheduleAllKeepsInv(r, databases, |databases|, parses);
    ProcessorKeepsCurrent(ScheduleAll(r, databases, |databases|, parses).0);
  }

  lemma ProcessorKeepsCurrent(r: Registry)
    requires Inv(r)
    ensures Current(Added(r, Entry(QUEUE_SCHEDULE, QueueProcessor))) <==> Current(r)
  {
    var s := Added(r, Entry(QUEUE_SCHEDULE, QueueProcessor));
    forall id | id in r.entryIDs
      ensures Live(s, id) <==> Live(r, id)
    {
    }
  }

  /** An ID that is not configured or has no schedule is refused, and nothing changes. */
  lemma RefusedScheduleChangesNothing(r: Registry, databases: seq<DatabaseConfig>, id: string, parses: string -> bool)
    ensures (forall db :: db in databases ==> db.id != id) ==> ScheduleResult(r, databases, id, parses) == (r, NotFound)
    ensures var db := GetDatabaseByID(databases, id);
            db.Some? && db.value.schedule == "" ==> ScheduleResult(r, databases, id, parses) == (r, NoSchedule)
  {
  }

  /** Unscheduling a recorded ID leaves it unrecorded and without a live job, and every other job as it was. */
  lemma UnscheduleStopsExactly(r: Registry, id: string)
    requires Inv(r)
    ensures var (s, ok) := UnscheduleResult(r, id);
            && (ok <==> id in r.entryIDs) && (!ok ==> s == r)
            && id !in s.entryIDs
            && (forall other :: other != id ==> (other in s.entryIDs <==> other in r.entryIDs))
            && (forall other :: other in s.entryIDs ==> s.entryIDs[other] == r.entryIDs[other])
            && (forall k :: k in s.entries <==> k in r.entries && !IsBackupOf(r.entries[k], id))
            && (forall k :: k in s.entries ==> s.entries[k] == r.entries[k])
  {
  }

  /** Start succeeds exactly if all it is asked to schedule can be scheduled, and the queue processor too. */
  lemma StartSucceedsExactly(r: Registry, databases: seq<DatabaseConfig>, parses: string -> bool)
    ensures StartResult(r, databases, parses).1 <==> Reached(databases, |databases|, parses) && parses("0 */5 * * * *")
  {
    hide ScheduleAll, Reached;
    ScheduleAllReaches(r, databases, |databases|, parses);
  }

  // ---------------------------------------------------------------- after a start

  /** The job a database's first configuration calls for. */
  predicate RunsAsConfigured(r: Registry, databases: seq<DatabaseConfig>, id: string) {
    var db := GetDatabaseByID(databases, id);
    Live(r, id) && db.Some? && r.entries[r.entryIDs[id]] == Entry(db.value.schedule, Backup(db.value))
  }

  lemma ScheduledRuns(r: Registry, databases: seq<DatabaseConfig>, id: string, parses: string -> bool)
    requires Inv(r) && ScheduleResult(r, databases, id, parses).1.Scheduled?
    ensures RunsAsConfigured(ScheduleResult(r, databases, id, parses).0, databases, id)
  {
  }

  lemma {:induction false} ScheduleAllRuns(databases: seq<DatabaseConfig>, n: nat, parses: string -> bool, id: string)
    requires n <= |databases| && ScheduleAll(FRESH, databases, n, parses).1
    ensures var r := ScheduleAll(FRESH, databases, n, parses).0;
            && Inv(r)
            && (forall k :: k in r.entries ==> r.entries[k].job.Backup?)
            && (if Asked(databases, n, id) then RunsAsConfigured(r, databases, id) else id !in r.entryIDs)
  {
    hide Inv, ScheduleResult, Asked, ToSchedule;
    ScheduleAllKeepsInv(FRESH, databases, n, parses) by { FreshInv(); }
    if n == 0 {
      NothingAsked(databases, id);
    } else {
      var s := ScheduleAll(FRESH, databases, n - 1, parses).0;
      ScheduleAllRuns(databases, n - 1, parses, id);
      AskedNext(databases, n, id);
      var next := databases[n - 1].id;
      if ToSchedule(databases[n - 1]) {
        OthersStayLive(s, databases, next, parses);
        if next == id {
          ScheduledRuns(s, databases, id, parses);
        }
      }
    }
  }

  lemma FreshInv()
    ensures Inv(FRESH)
  {
  }

  /**
   After a successful start of a fresh scheduler the live backup jobs are exactly those of the IDs some
   enabled entry with a schedule asks for, each run as its first configuration says, all of them are
   recorded, and the one other job is the queue processor.
   */
  lemma StartSchedulesExactly(databases: seq<DatabaseConfig>, parses: string -> bool, id: string, k: nat)
    requires StartResult(FRESH, databases, parses).1
    ensures var r := StartResult(FRESH, databases, parses).0;
            && (if Asked(databases, |databases|, id) then RunsAsConfigured(r, databases, id) else id !in r.entryIDs)
            && (k in r.entries && r.entries[k].job.Backup? ==> Asked(databases, |databases|, r.entries[k].job.db.id))
            && (k in r.entries && r.entries[k].job.QueueProcessor? <==> k == r.lastID)
            && r.entries[r.lastID] == Entry("0 */5 * * * *", QueueProcessor)
  {
    hide ScheduleAll, Asked;
    var s := ScheduleAll(FRESH, databases, |databases|, parses).0;
    ScheduleAllRuns(databases, |databases|, parses, id);
    if k in s.entries {
      ScheduleAllRuns(databases, |databases|, parses, s.entries[k].job.db.id);
    }
  }

  predicate UniqueIDs(databases: seq<DatabaseConfig>) {
    forall i, j :: 0 <= i < j < |databases| ==> databases[i].id != databases[j].id
  }

  lemma UniqueLookup(databases: seq<DatabaseConfig>, i: nat)
    requires UniqueIDs(databases) && i < |databases|
    ensures GetDatabaseByID(databases, databases[i].id) == Some(databases[i])
  {
    FindsByID(databases, IDOf, databases[i].id, i);
    var r := GetDatabaseByID(databases, databases[i].id);
    assert r.value.id == databases[i].id;
  }

  /** With unique IDs: Start succeeds exactly if every schedule set for an enabled database parses, and its own. */
  lemma StartSucceedsWithUniqueIDs(r: Registry, databases: seq<DatabaseConfig>, parses: string -> bool)
    requires UniqueIDs(databases)
    ensures StartResult(r, databases, parses).1
       <==> (forall i :: 0 <= i < |databases| && databases[i].enabled && databases[i].schedule != "" ==> parses(databases[i].schedule))
            && parses("0 */5 * * * *")
  {
    hide StartResult, UniqueIDs;
    StartSucceedsExactly(r, databases, parses);
    forall i | 0 <= i < |databases|
      ensures CanSchedule(databases, databases[i].id, parses) <==> databases[i].schedule != "" && parses(databases[i].schedule)
    {
      UniqueLookup(databases, i);
    }
  }

  /** With unique IDs: a database's job is live, with its own schedule, exactly if it is enabled and has one. */
  lemma StartSchedulesEnabled(databases: seq<DatabaseConfig>, parses: string -> bool, i: nat)
    requires UniqueIDs(databases) && i < |databases| && StartResult(FRESH, databases, parses).1
    ensures var r := StartResult(FRESH, databases, parses).0;
            var db := databases[i];
            (Live(r, db.id) <==> db.enabled && db.schedule != "")
            && (Live(r, db.id) ==> r.entries[r.entryIDs[db.id]] == Entry(db.schedule, Backup(db)))
  {
    hide ScheduleAll, StartResult;
    StartSchedulesExactly(databases, parses, databases[i].id, 0);
    UniqueLookup(databases, i);
    if Asked(databases, |databases|, databases[i].id) {
      var j :| 0 <= j < |databases| && databases[j].id == databases[i].id && ToSchedule(databases[j]);
      assert i == j;
    }
  }

  /** The queue processor is not recorded, so a second start runs a second one. */
  lemma StartAddsAProcessor(r: Registry, databases: seq<DatabaseConfig>, parses: string -> bool, k: nat)
    requires Inv(r) && StartResult(r, databases, parses).1
    ensures var s := StartResult(r, databases, parses).0;
            k in s.entries && s.entries[k].job.QueueProcessor?
            <==> k == s.lastID || (k in r.entries && r.entries[k].job.QueueProcessor?)
  {
    hide ScheduleAll, Inv;
    ScheduleAllKeepsProcessors(r, databases, |databases|, parses, k);
  }

  lemma {:induction false} ScheduleAllKeepsProcessors(r: Registry, databases: seq<DatabaseConfig>, n: nat, parses: string -> bool, k: nat)
    requires Inv(r) && n <= |databases|
    ensures var s := ScheduleAll(r, databases, n, parses).0;
            && (k in s.entries && s.entries[k].job.QueueProcessor? <==> k in r.entries && r.entries[k].job.QueueProcessor?)
            && s.lastID >= r.lastID
  {
    hide ScheduleResult, Inv;
    if n > 0 {
      var s := ScheduleAll(r, databases, n - 1, parses).0;
      ScheduleAllKeepsProcessors(r, databases, n - 1, parses, k);
      ScheduleAllKeepsInv(r, databases, n - 1, parses);
      OthersStayLive(s, databases, databases[n - 1].id, parses);
      IDsGrow(s, databases, databases[n - 1].id, parses);
    }
  }

  lemma IDsGrow(r: Registry, databases: seq<DatabaseConfig>, id: string, parses: string -> bool)
    ensures ScheduleResult(r, databases, id, parses).0.lastID >= r.lastID
  {
  }
}
