/** When the agent's own file names and object keys keep backups apart. */
module Collisions {
  import opened Text
  import opened Timestamps
  import opened ObjectKeys
  import opened Protocol
  import opened Durability
  import opened Agents

  function JoinedName(d: Database): string {
    d.id + "-" + d.name
  }

  /** Two backups share a file name exactly when ID-Name and the second agree; the ID alone need not. */
  lemma BackupNamesAgree(d: Database, m: nat, e: Database, n: nat)
    ensures BackupName(d, m) == BackupName(e, n) <==> JoinedName(d) == JoinedName(e) && m == n
  {
    if BackupName(d, m) == BackupName(e, n) {
      DigitsHaveNoDash(Itoa(m));
      DigitsHaveNoDash(Itoa(n));
      FileTextUnique(JoinedName(d), IntText(m), JoinedName(e), IntText(n));
      IntTextInjective(m, n);
    }
  }

  /** A dash moved from name to ID gives the same file name. */
  lemma DashesCollide(id: string, middle: string, name: string, second: int)
    ensures BackupName(Database(id, middle + "-" + name), second) == BackupName(Database(id + "-" + middle, name), second)
  {
    assert JoinedName(Database(id, middle + "-" + name)) == JoinedName(Database(id + "-" + middle, name));
  }

  /**
   A configuration whose names cannot run into each other: the one-time check a caller can make. A retry
   looks its database up by ID, so no two may share one. The local store cleans the path it joins a file name
   to, so IDs may hold no slash either; then the name stays as it is.
   */
  predicate NamesApart(databases: seq<Database>, serverID: string) {
    && (forall d :: d in databases ==> PlainNames(serverID, d.name) && '/' !in d.id)
    && (forall d, e :: d in databases && e in databases && (d.id == e.id || JoinedName(d) == JoinedName(e)) ==> d == e)
  }

  /**
   No database is backed up twice within one second, and no two backups of equally named databases are
   queued within one second. `saves` and `queued` are what went before.
   */
  predicate Apart(cfg: Config, s: State, acts: seq<Action>, saves: set<(Database, nat)>, queued: set<(string, nat)>)
    requires Legal(cfg, s, acts)
    decreases |acts|
  {
    acts == []
    || (
      var next, rest := Apply(cfg, s, acts[0]), acts[1..];
      match acts[0]
      case SaveFile(d, _) =>
        && 0 <= Unix(s.clock)
        && var save := (d, Unix(s.clock));
           save !in saves && Apart(cfg, next, rest, saves + {save}, queued)
      case SaveFails(d, _) =>
        && 0 <= Unix(s.clock)
        && var save := (d, Unix(s.clock));
           save !in saves && Apart(cfg, next, rest, saves + {save}, queued)
      case EnqueueRow(i, _) =>
        && 0 <= Unix(s.clock)
        && var entry := (s.saved[i].database.name, Unix(s.clock));
           entry !in queued && Apart(cfg, next, rest, saves, queued + {entry})
      case _ => Apart(cfg, next, rest, saves, queued))
  }

  /** Every file comes from a past save. */
  ghost predicate FilesFrom(cfg: Config, s: State, saves: set<(Database, nat)>) {
    && (forall e :: e in saves ==> e.0 in cfg.databases)
    && (forall n :: n in s.files ==> exists e :: e in saves && n == BackupName(e.0, e.1))
  }

  ghost predicate IsKeyAt(cfg: Config, key: string, name: string, second: nat) {
    exists t: Time :: Unix(t) == second && key == cfg.objectKey(name, t)
  }

  /** Every promised key was printed for a past enqueue. */
  ghost predicate KeysFrom(cfg: Config, s: State, serverID: string, queued: set<(string, nat)>) {
    && (forall b :: b in s.saved ==> PlainNames(serverID, b.database.name))
    && (forall e :: e in queued ==> PlainNames(serverID, e.0))
    && (forall n :: n in s.promises ==> exists e :: e in queued && IsKeyAt(cfg, s.promises[n].key, e.0, e.1))
  }

  lemma FreshFileName(databases: seq<Database>, prefix: string, serverID: string, s: State, d: Database, saves: set<(Database, nat)>)
    requires NamesApart(databases, serverID) && 0 <= Unix(s.clock) && d in databases && (d, Unix(s.clock)) !in saves
    requires FilesFrom(ConfigFor(databases, prefix, serverID), s, saves)
    ensures FileName(ConfigFor(databases, prefix, serverID), s, d) !in s.files
  {
    var name := BackupName(d, Unix(s.clock));
    if name in s.files {
      var e :| e in saves && name == BackupName(e.0, e.1);
      BackupNamesAgree(d, Unix(s.clock), e.0, e.1);
    }
  }

  lemma IDFindsDatabase(databases: seq<Database>, prefix: string, serverID: string, d: Database)
    requires NamesApart(databases, serverID) && d in databases
    ensures GetDatabaseByID(ConfigFor(databases, prefix, serverID), d.id) == Some(d)
  {
    hide JoinedName, PlainNames;
    var i :| 0 <= i < |databases| && databases[i] == d;
    FindsByID(databases, IDOf, d.id, i);
    var r := FindByID(databases, IDOf, d.id);
    assert r.Some? ==> IDOf(r.value) == r.value.id;
  }

  lemma FreshKey(databases: seq<Database>, prefix: string, serverID: string, s: State, i: nat, queued: set<(string, nat)>)
    requires 0 <= Unix(s.clock) && i < |s.saved|
    requires KeysFrom(ConfigFor(databases, prefix, serverID), s, serverID, queued)
    requires (s.saved[i].database.name, Unix(s.clock)) !in queued
    ensures CollisionFree(ConfigFor(databases, prefix, serverID), s, EnqueueRow(i, false))
  {
    hide GenerateObjectKey, Unix;
    var cfg := ConfigFor(databases, prefix, serverID);
    var name := s.saved[i].database.name;
    assert s.saved[i] in s.saved;
    forall n | n in s.promises
      ensures s.promises[n].key != cfg.objectKey(name, s.clock)
    {
      var e :| e in queued && IsKeyAt(cfg, s.promises[n].key, e.0, e.1);
      var t: Time :| Unix(t) == e.1 && s.promises[n].key == cfg.objectKey(e.0, t);
      if s.promises[n].key == cfg.objectKey(name, s.clock) {
        KeyInjective(prefix, serverID, e.0, t, serverID, name, s.clock);
      }
    }
  }

  lemma FilesGrow(cfg: Config, s: State, s': State, saves: set<(Database, nat)>, save: (Database, nat))
    requires FilesFrom(cfg, s, saves) && save.0 in cfg.databases
    requires forall n :: n in s'.files ==> n in s.files || n == BackupName(save.0, save.1)
    ensures FilesFrom(cfg, s', saves + {save})
  {
    hide BackupName;
    assert save in saves + {save};
    forall n | n in s'.files
      ensures exists e :: e in saves + {save} && n == BackupName(e.0, e.1)
    {
      if n != BackupName(save.0, save.1) {
        var e :| e in saves && n == BackupName(e.0, e.1);
        assert e in saves + {save};
      }
    }
  }

  lemma SaveStaysApart(databases: seq<Database>, prefix: string, serverID: string, s: State, a: Action,
                       saves: set<(Database, nat)>, queued: set<(string, nat)>)
    requires NamesApart(databases, serverID) && 0 <= Unix(s.clock) && (a.SaveFile? || a.SaveFails?)
    requires var cfg := ConfigFor(databases, prefix, serverID);
             Enabled(cfg, s, a) && FilesFrom(cfg, s, saves) && KeysFrom(cfg, s, serverID, queued)
             && (a.database, Unix(s.clock)) !in saves
    ensures var cfg := ConfigFor(databases, prefix, serverID);
            CollisionFree(cfg, s, a) && KeysFrom(cfg, Apply(cfg, s, a), serverID, queued)
            && FilesFrom(cfg, Apply(cfg, s, a), saves + {(a.database, Unix(s.clock))})
  {
    hide GenerateObjectKey, IsKeyAt, Unix, Apply, FilesFrom, PlainNames;
    var cfg := ConfigFor(databases, prefix, serverID);
    FreshFileName(databases, prefix, serverID, s, a.database, saves);
    IDFindsDatabase(databases, prefix, serverID, a.database);
    SaveTouches(cfg, s, a);
    FilesGrow(cfg, s, Apply(cfg, s, a), saves, (a.database, Unix(s.clock)));
  }

  lemma EnqueueStaysApart(databases: seq<Database>, prefix: string, serverID: string, s: State, i: nat, sync: bool,
                          saves: set<(Database, nat)>, queued: set<(string, nat)>)
    requires 0 <= Unix(s.clock) && i < |s.saved| && (s.saved[i].database.name, Unix(s.clock)) !in queued
    requires var cfg := ConfigFor(databases, prefix, serverID);
             FilesFrom(cfg, s, saves) && KeysFrom(cfg, s, serverID, queued)
    ensures var cfg := ConfigFor(databases, prefix, serverID);
            var s' := Apply(cfg, s, EnqueueRow(i, sync));
            CollisionFree(cfg, s, EnqueueRow(i, sync)) && FilesFrom(cfg, s', saves)
            && KeysFrom(cfg, s', serverID, queued + {(s.saved[i].database.name, Unix(s.clock))})
  {
    hide GenerateObjectKey, Unix, BackupName;
    var cfg := ConfigFor(databases, prefix, serverID);
    FreshKey(databases, prefix, serverID, s, i, queued);
    var s' := Enqueued(cfg, s, i, sync);
    var b := s.saved[i];
    assert b in s.saved;
    var entry := (b.database.name, Unix(s.clock));
    forall n | n in s'.promises
      ensures exists e :: e in queued + {entry} && IsKeyAt(cfg, s'.promises[n].key, e.0, e.1)
    {
      if n == b.name {
        assert entry in queued + {entry} && IsKeyAt(cfg, s'.promises[n].key, entry.0, entry.1);
      } else {
        var e :| e in queued && IsKeyAt(cfg, s.promises[n].key, e.0, e.1);
        assert e in queued + {entry};
      }
    }
  }

  lemma OtherStaysApart(cfg: Config, serverID: string, s: State, a: Action, saves: set<(Database, nat)>, queued: set<(string, nat)>)
    requires Enabled(cfg, s, a) && !a.SaveFile? && !a.SaveFails? && !a.EnqueueRow?
    requires FilesFrom(cfg, s, saves) && KeysFrom(cfg, s, serverID, queued)
    ensures CollisionFree(cfg, s, a) && FilesFrom(cfg, Apply(cfg, s, a), saves) && KeysFrom(cfg, Apply(cfg, s, a), serverID, queued)
  {
    hide IsKeyAt, BackupName, Apply, PlainNames;
    OtherTouchesNothing(cfg, s, a);
  }

  lemma {:induction false} ApartRunsDoNotCollide(databases: seq<Database>, prefix: string, serverID: string, s: State, acts: seq<Action>,
                                                 saves: set<(Database, nat)>, queued: set<(string, nat)>)
    requires NamesApart(databases, serverID)
    requires var cfg := ConfigFor(databases, prefix, serverID);
             Legal(cfg, s, acts) && FilesFrom(cfg, s, saves) && KeysFrom(cfg, s, serverID, queued) && Apart(cfg, s, acts, saves, queued)
    ensures CollisionFreeRun(ConfigFor(databases, prefix, serverID), s, acts)
    decreases |acts|
  {
    hide GenerateObjectKey, BackupName, Apply, FilesFrom, KeysFrom, CollisionFree, Unix;
    var cfg := ConfigFor(databases, prefix, serverID);
    if acts != [] {
      var a, next := acts[0], Apply(cfg, s, acts[0]);
      match a
      case SaveFile(d, _) =>
        SaveStaysApart(databases, prefix, serverID, s, a, saves, queued);
        ApartRunsDoNotCollide(databases, prefix, serverID, next, acts[1..], saves + {(d, Unix(s.clock))}, queued);
      case SaveFails(d, _) =>
        SaveStaysApart(databases, prefix, serverID, s, a, saves, queued);
        ApartRunsDoNotCollide(databases, prefix, serverID, next, acts[1..], saves + {(d, Unix(s.clock))}, queued);
      case EnqueueRow(i, sync) =>
        EnqueueStaysApart(databases, prefix, serverID, s, i, sync, saves, queued);
        ApartRunsDoNotCollide(databases, prefix, serverID, next, acts[1..], saves, queued + {(s.saved[i].database.name, Unix(s.clock))});
      case _ =>
        OtherStaysApart(cfg, serverID, s, a, saves, queued);
        ApartRunsDoNotCollide(databases, prefix, serverID, next, acts[1..], saves, queued);
    }
  }

  /**
   With the agent's real names: however uploads, failures, retries and crashes interleave, every queued
   backup keeps its bytes on disk and is still queued or stored, as long as backups stay a second apart.
   */
  lemma AgentLosesNoBackup(databases: seq<Database>, prefix: string, serverID: string, acts: seq<Action>)
    requires NamesApart(databases, serverID)
    requires var cfg := ConfigFor(databases, prefix, serverID);
             Legal(cfg, INITIAL, acts) && Apart(cfg, INITIAL, acts, {}, {})
    ensures NoBackupLost(Run(ConfigFor(databases, prefix, serverID), INITIAL, acts))
  {
    hide GenerateObjectKey, BackupName, Apply;
    ApartRunsDoNotCollide(databases, prefix, serverID, INITIAL, acts, {}, {});
    NoBackupIsLost(ConfigFor(databases, prefix, serverID), acts);
  }
}
