/**
 The agent over its queue, its local storage and its remote provider. Every method is shown to be a run
 of the upload protocol, so what holds of all runs holds of the agent.
 */
module Agents {
  import opened Text
  import opened Timestamps
  import opened ObjectKeys
  import opened Storage
  import opened Protocol
  import Q = Queue

  /** The local file name of a backup: ID-Name-second.enc. */
  function BackupName(d: Database, second: int): string {
    FileText(d.id + "-" + d.name, IntText(second))
  }

  /** The file part of the key pattern, over a whole file name. */
  predicate NameReadsAs(file: string, joined: string, second: nat) {
    var r := MatchFile(file, |file|);
    r.Some? && r.value.0 == joined && AllDigits(r.value.1) && Value(r.value.1) == second
  }

  /** A file name reads back to its ID-Name and its second. */
  lemma BackupNameReadsBack(d: Database, second: nat)
    requires '\n' !in d.id && '\n' !in d.name
    ensures NameReadsAs(BackupName(d, second), d.id + "-" + d.name, second)
  {
    var joined, z, file := d.id + "-" + d.name, IntText(second), BackupName(d, second);
    ItoaValue(second);
    MatchFileComplete(file, |file|, joined, z);
    MatchFileSound(file, |file|);
    var (database, digits) := MatchFile(file, |file|).value;
    DigitsHaveNoDash(z);
    DigitsHaveNoDash(digits);
    FileTextUnique(joined, z, database, digits);
  }

  function ConfigFor(databases: seq<Database>, prefix: string, serverID: string): Config {
    Config(databases, (name, t) => GenerateObjectKey(prefix, serverID, name, t), (d, second) => BackupName(d, second))
  }

  /** A queued file as the protocol's row; Go's zero time stands for "never retried". */
  function RowOf(f: Q.BackupFile): Row {
    Row(f.databaseID, f.createdAt, f.retryCount, if f.lastRetryAt.nanos == ZERO_TIME.nanos then None else Some(f.lastRetryAt.nanos))
  }

  function RowsOf(t: Q.Table, view: Q.Row -> Row): map<string, Row> {
    if t == [] then map[] else RowsOf(t[..|t| - 1], view)[t[|t| - 1].name := view(t[|t| - 1])]
  }

  function ObjectsIn(objects: Objects, bucket: string): map<string, Bytes> {
    map k: string | k in (set p | p in objects && p.0 == bucket :: p.1) :: objects[(bucket, k)]
  }

  lemma ObjectsInUpdate(objects: Objects, bucket: string, key: string, body: Bytes)
    ensures ObjectsIn(objects[(bucket, key) := body], bucket) == ObjectsIn(objects, bucket)[key := body]
  {
    var a := ObjectsIn(objects[(bucket, key) := body], bucket);
    var b := ObjectsIn(objects, bucket)[key := body];
    forall k: string
      ensures k in a <==> k in b
      ensures k in a ==> a[k] == b[k]
    {
      assert k in a <==> (bucket, k) in objects[(bucket, key) := body];
      assert k in ObjectsIn(objects, bucket) <==> (bucket, k) in objects;
    }
  }

  lemma {:induction false} RowsOfMembers(t: Q.Table, view: Q.Row -> Row)
    requires Q.UniqueNames(t)
    ensures forall n :: n in RowsOf(t, view) <==> Q.HasName(t, n)
    ensures forall r :: r in t ==> r.name in RowsOf(t, view) && RowsOf(t, view)[r.name] == view(r)
  {
    if t != [] {
      var u, r := t[..|t| - 1], t[|t| - 1];
      RowsOfMembers(u, view);
      assert t == u + [r];
      assert forall n :: Q.HasName(t, n) <==> Q.HasName(u, n) || n == r.name;
    }
  }

  /** A map from names is known by its members. */
  lemma RowsOfIs(t: Q.Table, view: Q.Row -> Row, m: map<string, Row>)
    requires Q.UniqueNames(t)
    requires forall n :: n in m ==> Q.HasName(t, n)
    requires forall r :: r in t ==> r.name in m && m[r.name] == view(r)
    ensures RowsOf(t, view) == m
  {
    RowsOfMembers(t, view);
    forall n | n in m
      ensures n in RowsOf(t, view) && RowsOf(t, view)[n] == m[n]
    {
      var r :| r in t && r.name == n;
    }
  }

  lemma RowsOfWithout(t: Q.Table, view: Q.Row -> Row, n: string)
    requires Q.UniqueNames(t)
    ensures RowsOf(Q.Without(t, n), view) == RowsOf(t, view) - {n}
  {
    RowsOfMembers(t, view);
    Q.WithoutMembers(t, n);
    Q.WithoutIsUnique(t, n);
    var m := RowsOf(t, view) - {n};
    forall k | k in m
      ensures Q.HasName(Q.Without(t, n), k)
    {
      var r :| r in t && r.name == k;
      assert r in Q.Without(t, n);
    }
    RowsOfIs(Q.Without(t, n), view, m);
  }

  lemma RowsOfReplaced(t: Q.Table, view: Q.Row -> Row, b: Q.BackupFile)
    requires Q.UniqueNames(t)
    ensures RowsOf(Q.Replaced(t, b), view) == RowsOf(t, view)[b.name := view(Q.NewRow(b))]
  {
    var u := Q.Without(t, b.name);
    RowsOfWithout(t, view, b.name);
    assert Q.Replaced(t, b)[..|u|] == u;
    assert RowsOf(u, view)[b.name := view(Q.NewRow(b))] == RowsOf(t, view)[b.name := view(Q.NewRow(b))];
  }

  lemma IncrementedNames(t: Q.Table, n: string, message: string, now: Time)
    requires Q.UniqueNames(t)
    ensures Q.UniqueNames(Q.Incremented(t, n, message, now))
    ensures forall k :: Q.HasName(t, k) ==> Q.HasName(Q.Incremented(t, n, message, now), k)
  {
    var u := Q.Incremented(t, n, message, now);
    forall k | Q.HasName(t, k)
      ensures Q.HasName(u, k)
    {
      var i :| 0 <= i < |t| && t[i].name == k;
      assert u[i] in u && u[i].name == k;
    }
  }

  function Bumped(row: Row, now: Time): Row {
    row.(retryCount := row.retryCount + 1, lastRetryAt := Some(now.nanos))
  }

  /** The rows after counting a failure of `n`. */
  function WithBumped(rows: map<string, Row>, n: string, now: Time): map<string, Row> {
    if n in rows then rows[n := Bumped(rows[n], now)] else rows
  }

  lemma RetriedName(r: Q.Row, message: string, now: Time)
    ensures Q.Retried(r, message, now).name == r.name
  {
  }

  lemma IncrementedRow(t: Q.Table, view: Q.Row -> Row, n: string, message: string, now: Time, i: nat)
    requires Q.UniqueNames(t) && i < |t|
    requires view(Q.Retried(t[i], message, now)) == Bumped(view(t[i]), now)
    ensures var r := Q.Incremented(t, n, message, now)[i];
            var m := WithBumped(RowsOf(t, view), n, now);
            r.name in m && m[r.name] == view(r)
  {
    hide RowsOf, Bumped, Q.Incremented, Q.Retried, Q.UniqueNames, Q.HasName;
    RetriedName(t[i], message, now);
    RowsOfMembers(t, view);
    assert t[i] in t;
  }

  lemma RowsOfIncremented(t: Q.Table, view: Q.Row -> Row, n: string, message: string, now: Time)
    requires Q.UniqueNames(t)
    requires forall r :: view(Q.Retried(r, message, now)) == Bumped(view(r), now)
    ensures RowsOf(Q.Incremented(t, n, message, now), view) == WithBumped(RowsOf(t, view), n, now)
  {
    hide RowsOf, Bumped, Q.Incremented, Q.Retried, Q.UniqueNames, Q.HasName;
    var u := Q.Incremented(t, n, message, now);
    var m := WithBumped(RowsOf(t, view), n, now);
    RowsOfMembers(t, view);
    IncrementedNames(t, n, message, now);
    forall r | r in u
      ensures r.name in m && m[r.name] == view(r)
    {
      var i :| 0 <= i < |u| && u[i] == r;
      assert view(Q.Retried(t[i], message, now)) == Bumped(view(t[i]), now);
      IncrementedRow(t, view, n, message, now, i);
    }
    RowsOfIs(u, view, m);
  }

  /** A clock reading the queue's text can carry, and that is not Go's zero time. */
  predicate Representable(t: Time) {
    FourDigitYear(t) && OffsetInRange(t.offset) && FourDigitYear(t.(offset := 0)) && t.nanos != ZERO_TIME.nanos
  }

  function RowView(r: Q.Row): Row {
    RowOf(Q.FileOf(r))
  }

  lemma NewRowView(b: Q.BackupFile)
    requires Representable(b.createdAt)
    ensures RowView(Q.NewRow(b)) == Row(b.databaseID, b.createdAt, 0, None)
  {
    hide StoredText, ParseSQLiteTime;
    TimestampTextsAreExact(b.createdAt);
  }

  lemma RetriedView(r: Q.Row, message: string, now: Time)
    requires Representable(now)
    ensures RowView(Q.Retried(r, message, now.(offset := 0))) == Bumped(RowView(r), now.(offset := 0))
  {
    hide StoredText, ParseSQLiteTime;
    TimestampTextsAreExact(now.(offset := 0));
    StoredTextIsNotEmpty(now.(offset := 0));
  }

  /** Counting a failure in the table is counting it in the protocol's row. */
  lemma IncrementView(t: Q.Table, n: string, message: string, now: Time)
    requires Q.UniqueNames(t) && Representable(now)
    ensures RowsOf(Q.Incremented(t, n, message, now.(offset := 0)), RowView)
            == WithBumped(RowsOf(t, RowView), n, now.(offset := 0))
  {
    forall r: Q.Row
      ensures RowView(Q.Retried(r, message, now.(offset := 0))) == Bumped(RowView(r), now.(offset := 0))
    {
      RetriedView(r, message, now);
    }
    RowsOfIncremented(t, RowView, n, message, now.(offset := 0));
  }

  // ---------------------------------------------------------------- the retry loop

  /** What the retry loop asks of a listed file before it starts an upload. */
  predicate Due(cfg: Config, f: Q.BackupFile, now: int) {
    Eligible(RowOf(f), now) && GetDatabaseByID(cfg, f.databaseID).Some?
  }

  function DueNames(cfg: Config, items: seq<Q.BackupFile>, now: int): seq<string> {
    if items == [] then []
    else
      var f := items[|items| - 1];
      DueNames(cfg, items[..|items| - 1], now) + if Due(cfg, f, now) then [f.name] else []
  }

  function UploadOf(cfg: Config, f: Q.BackupFile, now: int): Attempt
    requires Due(cfg, f, now)
  {
    Attempt(f.name, GetDatabaseByID(cfg, f.databaseID).value, f.createdAt, false, now, Admitted)
  }

  function DueUploads(cfg: Config, items: seq<Q.BackupFile>, now: int): seq<Attempt> {
    if items == [] then []
    else
      var f := items[|items| - 1];
      DueUploads(cfg, items[..|items| - 1], now) + if Due(cfg, f, now) then [UploadOf(cfg, f, now)] else []
  }

  lemma DueNone(cfg: Config, now: int)
    ensures DueUploads(cfg, [], now) == []
  {
  }

  lemma DueNext(cfg: Config, items: seq<Q.BackupFile>, k: nat, now: int)
    requires k < |items|
    ensures var before, after := DueUploads(cfg, items[..k], now), DueUploads(cfg, items[..k + 1], now);
            after == if Due(cfg, items[k], now) then before + [UploadOf(cfg, items[k], now)] else before
  {
    assert items[..k + 1][..k] == items[..k];
  }

  /** The listed files are the queue's rows, each once. */
  ghost predicate Lists(items: seq<Q.BackupFile>, rows: map<string, Row>) {
    && (forall i, j :: 0 <= i < j < |items| ==> items[i].name != items[j].name)
    && (forall i :: 0 <= i < |items| ==> items[i].name in rows && rows[items[i].name] == RowOf(items[i]))
  }

  /** No row is left out. */
  ghost predicate ListsAll(items: seq<Q.BackupFile>, rows: map<string, Row>) {
    forall n :: n in rows ==> exists f :: f in items && f.name == n
  }

  lemma {:induction false} FilesOfElements(s: Q.Table)
    ensures forall i :: 0 <= i < |s| ==> Q.FilesOf(s)[i] == Q.FileOf(s[i])
  {
    if s != [] {
      FilesOfElements(s[..|s| - 1]);
    }
  }

  lemma ListingMembers(t: Q.Table)
    ensures forall r :: r in Q.Listing(t) <==> r in t
  {
    Q.ListingMultiset(t);
    assert forall r :: r in Q.Listing(t) <==> r in multiset(Q.Listing(t));
  }

  lemma FetchedUnique(s: Q.Table, read: nat)
    requires Q.UniqueNames(s)
    ensures Q.UniqueNames(Q.Fetched(s, read)) && forall r :: r in Q.Fetched(s, read) ==> r in s
  {
  }

  lemma ListingLists(t: Q.Table, read: nat)
    requires Q.UniqueNames(t)
    ensures Lists(Q.FilesOf(Q.Fetched(Q.Listing(t), read)), RowsOf(t, RowView))
  {
    hide Q.Listing, Q.FilesOf, RowsOf, Q.FileOf, RowOf, Q.Fetched;
    var s := Q.Fetched(Q.Listing(t), read);
    Q.ListingUnique(t);
    FetchedUnique(Q.Listing(t), read);
    ListingMembers(t);
    RowsOfMembers(t, RowView);
    FilesOfElements(s);
    forall i | 0 <= i < |s|
      ensures Q.FileOf(s[i]).name == s[i].name
      ensures s[i].name in RowsOf(t, RowView) && RowsOf(t, RowView)[s[i].name] == RowOf(Q.FileOf(s[i]))
    {
      NameOfFile(s[i]);
      assert s[i] in Q.Listing(t);
    }
  }

  lemma NameOfFile(r: Q.Row)
    ensures Q.FileOf(r).name == r.name
  {
  }

  lemma ListingIsComplete(t: Q.Table)
    requires Q.UniqueNames(t)
    ensures ListsAll(Q.FilesOf(Q.Listing(t)), RowsOf(t, RowView))
  {
    hide Q.Listing, Q.FilesOf, RowsOf, RowView, Q.FileOf;
    var s := Q.Listing(t);
    ListingMembers(t);
    RowsOfMembers(t, RowView);
    FilesOfElements(s);
    forall n | n in RowsOf(t, RowView)
      ensures exists f :: f in Q.FilesOf(s) && f.name == n
    {
      var r :| r in t && r.name == n;
      var i :| 0 <= i < |s| && s[i] == r;
      NameOfFile(s[i]);
      assert Q.FilesOf(s)[i] in Q.FilesOf(s);
    }
  }

  lemma ListsInit(items: seq<Q.BackupFile>, rows: map<string, Row>)
    requires Lists(items, rows) && items != []
    ensures Lists(items[..|items| - 1], rows)
  {
  }

  lemma NoDuplicatesSnoc(names: seq<string>, n: string)
    requires NoDuplicates(names) && n !in names
    ensures NoDuplicates(names + [n])
  {
  }

  /** The loop admits the names of the due files, each once. */
  lemma {:induction false} DueNamesMembers(cfg: Config, items: seq<Q.BackupFile>, rows: map<string, Row>, now: int)
    requires Lists(items, rows)
    ensures forall n :: n in DueNames(cfg, items, now) <==> exists f :: f in items && f.name == n && Due(cfg, f, now)
    ensures NoDuplicates(DueNames(cfg, items, now))
  {
    if items != [] {
      var init, f := items[..|items| - 1], items[|items| - 1];
      ListsInit(items, rows);
      DueNamesMembers(cfg, init, rows, now);
      assert items == init + [f];
      assert forall g :: g in init ==> g.name != f.name;
      assert f.name !in DueNames(cfg, init, now);
      NoDuplicatesSnoc(DueNames(cfg, init, now), f.name);
    }
  }

  /** The uploads the loop starts are the ones the protocol's tick starts. */
  lemma {:induction false} DueUploadsAreSpawned(cfg: Config, items: seq<Q.BackupFile>, s: State, now: int)
    requires Lists(items, s.rows)
    ensures forall n :: n in DueNames(cfg, items, now) ==> Admissible(cfg, s, n, now)
    ensures DueUploads(cfg, items, now) == Spawned(cfg, s, DueNames(cfg, items, now), now)
  {
    if items != [] {
      var init, f := items[..|items| - 1], items[|items| - 1];
      ListsInit(items, s.rows);
      DueUploadsAreSpawned(cfg, init, s, now);
      var names := DueNames(cfg, init, now);
      if !Due(cfg, f, now) {
        assert DueNames(cfg, items, now) == names;
        assert DueUploads(cfg, items, now) == DueUploads(cfg, init, now);
      } else {
        assert DueNames(cfg, items, now) == names + [f.name];
        SpawnedSnoc(cfg, s, names, f.name, now);
        assert Retry(cfg, s, f.name, now) == UploadOf(cfg, f, now);
      }
    }
  }

  lemma SpawnedSnoc(cfg: Config, s: State, names: seq<string>, n: string, now: int)
    requires Admissible(cfg, s, n, now) && forall m :: m in names ==> Admissible(cfg, s, m, now)
    ensures Spawned(cfg, s, names + [n], now) == Spawned(cfg, s, names, now) + [Retry(cfg, s, n, now)]
  {
    assert (names + [n])[..|names|] == names;
  }

  /** Every due row is admitted. */
  predicate LeavesNoneOut(cfg: Config, s: State, admitted: seq<string>, now: int) {
    forall n :: n in s.rows && Admissible(cfg, s, n, now) ==> n in admitted
  }

  /** So the loop over a listing of the queue is a tick, and over a complete one it leaves no due row out. */
  lemma DueFilesAreATick(cfg: Config, items: seq<Q.BackupFile>, s: State, now: int)
    requires Lists(items, s.rows)
    ensures StepsTo(cfg, s, Tick(DueNames(cfg, items, now), now), s.(attempts := s.attempts + DueUploads(cfg, items, now)))
    ensures ListsAll(items, s.rows) ==> LeavesNoneOut(cfg, s, DueNames(cfg, items, now), now)
  {
    DueNamesMembers(cfg, items, s.rows, now);
    DueUploadsAreSpawned(cfg, items, s, now);
    if ListsAll(items, s.rows) {
      forall n | n in s.rows && Admissible(cfg, s, n, now)
        ensures n in DueNames(cfg, items, now)
      {
        var f :| f in items && f.name == n;
        assert Due(cfg, f, now);
      }
    }
  }

  /** A tick launches exactly the configured rows whose wait is over. */
  predicate LaunchesDue(cfg: Config, s: State, admitted: seq<string>, now: int) {
    && (forall n :: n in s.rows && GetDatabaseByID(cfg, s.rows[n].databaseID).Some? ==> (n in admitted <==> WaitIsOver(s.rows[n], now)))
    && (forall n :: n in admitted ==> n in s.rows && GetDatabaseByID(cfg, s.rows[n].databaseID).Some?)
  }

  lemma AdmittedAreDue(cfg: Config, s: State, admitted: seq<string>, now: int)
    requires Enabled(cfg, s, Tick(admitted, now)) && LeavesNoneOut(cfg, s, admitted, now)
    ensures LaunchesDue(cfg, s, admitted, now)
  {
    hide Eligible, WaitIsOver, GetDatabaseByID;
    forall n | n in s.rows
      ensures Eligible(s.rows[n], now) <==> WaitIsOver(s.rows[n], now)
    {
      EligibleWhenWaited(s.rows[n], now);
    }
    assert forall n :: n in admitted ==> Admissible(cfg, s, n, now);
  }

  lemma ReplacedHasName(t: Q.Table, b: Q.BackupFile)
    ensures Q.HasName(Q.Replaced(t, b), b.name)
  {
    assert Q.NewRow(b) in Q.Replaced(t, b);
  }

  lemma Skipped(cfg: Config, s: State, i: nat)
    requires i < |s.saved|
    ensures StepsTo(cfg, s, SkipQueue(i), s.(saved := RemoveAt(s.saved, i)))
  {
  }

  class Agent {
    const databases: seq<Database>
    const serverID: string
    const storage: LocalStorage
    const queue: Q.SQLiteQueue
    const remote: S3Provider
    var uploads: seq<Attempt>
    var saved: seq<Saved>
    var clock: Time
    ghost var promises: map<string, Promise>
    ghost var failures: map<string, seq<int>>

    constructor (databases: seq<Database>, serverID: string, storage: LocalStorage, queue: Q.SQLiteQueue, remote: S3Provider)
      requires queue.Valid() && queue.table == [] && storage.files == map[] && remote.objects == map[]
      ensures Valid() && View() == INITIAL
      ensures this.databases == databases && this.serverID == serverID
      ensures this.storage == storage && this.queue == queue && this.remote == remote
    {
      this.databases := databases;
      this.serverID := serverID;
      this.storage := storage;
      this.queue := queue;
      this.remote := remote;
      uploads, saved, clock := [], [], Time(0, 0);
      promises, failures := map[], map[];
      new;
      assert ObjectsIn(remote.objects, remote.bucket) == map[];
    }

    ghost predicate Valid()
      reads queue
    {
      queue.Valid()
    }

    ghost function Cfg(): Config {
      ConfigFor(databases, remote.prefix, remote.ServerFor(serverID))
    }

    ghost function View(): State
      reads this, storage, queue, remote
    {
      State(RowsOf(queue.table, RowView), storage.files, ObjectsIn(remote.objects, remote.bucket),
            uploads, saved, clock, promises, failures)
    }

    /** time.Now(). */
    method Now(now: Time)
      requires Valid()
      modifies this
      ensures Valid() && StepsTo(Cfg(), old(View()), SetClock(now), View())
      ensures clock == now && uploads == old(uploads) && saved == old(saved)
    {
      clock := now;
    }

    static function SaveAction(d: Database, data: Bytes, created: bool, copied: bool, removed: bool, part: Bytes): Action {
      if created && copied then SaveFile(d, data)
      else SaveFails(d, if !created then NotCreated else if removed then Removed else Torn(part))
    }

    /** Step 4 of Backup: save the encrypted file under a name of the current second. */
    method SaveLocally(d: Database, data: Bytes, created: bool, copied: bool, removed: bool, part: Bytes) returns (ok: bool)
      requires Valid() && d in databases
      modifies this, storage
      ensures Valid()
      ensures ok == (created && copied)
      ensures StepsTo(Cfg(), old(View()), SaveAction(d, data, created, copied, removed, part), View())
      ensures clock == old(clock) && uploads == old(uploads)
      ensures saved == if ok then old(saved) + [Saved(BackupName(d, Unix(clock)), d, data)] else old(saved)
      ensures ok ==> BackupName(d, Unix(clock)) in storage.files
      ensures ok && 0 <= Unix(clock) && '\n' !in d.id && '\n' !in d.name ==>
                NameReadsAs(saved[|saved| - 1].name, d.id + "-" + d.name, Unix(clock))
    {
      hide RowsOf, RowView, ObjectsIn, BackupName, NameReadsAs;
      if 0 <= Unix(clock) && '\n' !in d.id && '\n' !in d.name {
        BackupNameReadsBack(d, Unix(clock));
      }
      var name := BackupName(d, Unix(clock));
      ok := storage.Save(name, data, created, copied, removed, part);
      if ok {
        saved := saved + [Saved(name, d, data)];
      }
    }

    /** Step 5 of Backup: queue the saved file, created now, and start its first upload. */
    method EnqueueBackup(i: nat, sync: bool, dbOk: bool) returns (ok: bool)
      requires Valid() && i < |saved| && Representable(clock)
      modifies this, queue
      ensures Valid()
      ensures ok == dbOk
      ensures StepsTo(Cfg(), old(View()), if dbOk then EnqueueRow(i, sync) else SkipQueue(i), View())
      ensures clock == old(clock) && saved == RemoveAt(old(saved), i)
      ensures dbOk ==> |uploads| == |old(uploads)| + 1
      ensures dbOk ==> Q.HasName(queue.table, old(saved[i].name))
      ensures dbOk ==> var a := uploads[|uploads| - 1]; a.sync == sync && a.phase.Admitted? && a.name == old(saved[i].name)
    {
      hide RowView, RowsOf, ObjectsIn, Q.Replaced, Q.NewRow, Representable, GenerateObjectKey;
      var b := saved[i];
      var file := Q.BackupFile(b.name, b.name, |b.bytes|, clock, b.database.id, 0, ZERO_TIME);
      RowsOfReplaced(queue.table, RowView, file);
      NewRowView(file);
      ReplacedHasName(queue.table, file);
      var status := queue.Enqueue(file, dbOk);
      saved := RemoveAt(saved, i);
      if !dbOk {
        return false;
      }
      uploads := uploads + [Attempt(b.name, b.database, clock, sync, clock.nanos, Admitted)];
      promises := promises[b.name := Promise(b.bytes, Cfg().objectKey(b.database.name, clock))];
      failures := failures[b.name := []];
      return true;
    }

    /** What both kinds of upload do on failure: a synchronous one is over, an asynchronous one counts it. */
    method FailUpload(i: nat)
      requires Valid() && i < |uploads|
      modifies this
      ensures Valid() && View() == Fail(old(View()), i)
    {
      uploads := if uploads[i].sync then RemoveAt(uploads, i) else uploads[i := uploads[i].(phase := Failed)];
    }

    method LoadBackup(i: nat, readable: bool) returns (ok: bool)
      requires Valid() && i < |uploads| && uploads[i].phase.Admitted?
      modifies this
      ensures Valid()
      ensures ok == (readable && old(uploads[i].name) in storage.files)
      ensures StepsTo(Cfg(), old(View()), Load(i, ok), View()) && clock == old(clock)
      ensures ok || !old(uploads[i].sync) ==>
                |uploads| == |old(uploads)| && uploads[i].sync == old(uploads[i].sync)
                && uploads[i].phase == if ok then Loaded(storage.files[old(uploads[i].name)]) else Failed
      ensures ok ==> uploads[i].name == old(uploads[i].name)
    {
      var data := storage.Load(uploads[i].name, readable);
      if data.Err? {
        FailUpload(i);
        return false;
      }
      uploads := uploads[i := uploads[i].(phase := Loaded(data.value))];
      return true;
    }

    /** Without a server ID the provider refuses before it sends anything. */
    function Effective(outcome: PutOutcome): PutOutcome {
      if remote.ServerFor(serverID) == "" then Refused else outcome
    }

    method PutBackup(i: nat, outcome: PutOutcome) returns (ok: bool)
      requires Valid() && i < |uploads| && uploads[i].phase.Loaded?
      modifies this, remote
      ensures Valid()
      ensures ok == (outcome.Stored? && remote.ServerFor(serverID) != "")
      ensures StepsTo(Cfg(), old(View()), Put(i, Effective(outcome)), View()) && clock == old(clock)
      ensures ok || !old(uploads[i].sync) ==>
                |uploads| == |old(uploads)| && uploads[i].sync == old(uploads[i].sync)
                && uploads[i].phase == if ok then Uploaded else Failed
      ensures ok ==> uploads[i].name == old(uploads[i].name)
    {
      var a := uploads[i];
      ObjectsInUpdate(remote.objects, remote.bucket, KeyOf(Cfg(), a), a.phase.bytes);
      var metadata := remote.Upload(serverID, a.database.name, a.phase.bytes, a.createdAt, !outcome.Refused?, outcome.Stored?);
      if metadata.Err? {
        FailUpload(i);
        return false;
      }
      uploads := uploads[i := a.(phase := Uploaded)];
      return true;
    }

    /** A row that is gone already is reported as a failure, as much as a failed statement. */
    method RemoveFromQueue(i: nat, dbOk: bool) returns (ok: bool)
      requires Valid() && i < |uploads| && uploads[i].phase.Uploaded?
      modifies this, queue
      ensures Valid() && StepsTo(Cfg(), old(View()), RemoveRow(i, dbOk), View())
      ensures ok == RemovalSucceeds(old(View()), i, dbOk) == (dbOk && Q.HasName(old(queue.table), old(uploads[i].name)))
    {
      RowsOfMembers(queue.table, RowView);
      RowsOfWithout(queue.table, RowView, uploads[i].name);
      var status := queue.Remove(uploads[i].name, dbOk);
      uploads := RemoveAt(uploads, i);
      return status.Done?;
    }

    method CountFailure(i: nat, message: string, dbOk: bool)
      requires Valid() && i < |uploads| && uploads[i].phase.Failed? && Representable(clock)
      modifies this, queue
      ensures Valid() && StepsTo(Cfg(), old(View()), Increment(i, dbOk), View())
    {
      hide RowView, RowsOf, Q.Incremented, ObjectsIn, Cfg;
      var name := uploads[i].name;
      IncrementView(queue.table, name, message, clock);
      ghost var queued := dbOk && name in View().rows;
      var status := queue.IncrementRetry(name, message, clock.(offset := 0), dbOk);
      uploads := RemoveAt(uploads, i);
      if queued {
        failures := failures[name := (if name in failures then failures[name] else []) + [clock.nanos]];
      }
      assert View() == Counted(old(View()), i, dbOk);
    }

    /** uploadBackup, run on its own: load, put, and then either leave the queue or count the failure. */
    method UploadBackup(i: nat, message: string, readable: bool, outcome: PutOutcome, dbOk: bool) returns (ghost acts: seq<Action>)
      requires Valid() && i < |uploads| && uploads[i].phase.Admitted? && !uploads[i].sync && Representable(clock)
      modifies this, queue, remote
      ensures Valid() && Legal(Cfg(), old(View()), acts) && View() == Run(Cfg(), old(View()), acts)
      ensures var loaded := readable && old(uploads[i].name) in storage.files;
              acts == if !loaded then [Load(i, false), Increment(i, dbOk)]
                      else if Effective(outcome).Stored? then [Load(i, true), Put(i, Stored), RemoveRow(i, dbOk)]
                      else [Load(i, true), Put(i, Effective(outcome)), Increment(i, dbOk)]
    {
      hide StepsTo, View, Cfg;
      ghost var s0 := View();
      var loaded := LoadBackup(i, readable);
      ghost var s1 := View();
      if !loaded {
        CountFailure(i, message, dbOk);
        acts := [Load(i, false), Increment(i, dbOk)];
        RunOfSteps(Cfg(), [s0, s1, View()], acts);
        return;
      }
      var stored := PutBackup(i, outcome);
      ghost var s2 := View();
      if stored {
        var removed := RemoveFromQueue(i, dbOk);
      } else {
        CountFailure(i, message, dbOk);
      }
      acts := [Load(i, true), Put(i, Effective(outcome)), if stored then RemoveRow(i, dbOk) else Increment(i, dbOk)];
      RunOfSteps(Cfg(), [s0, s1, s2, View()], acts);
    }

    /** What a synchronous upload does: it ends at its first failure, and never counts one. */
    function SyncUpload(i: nat, loaded: bool, outcome: PutOutcome, dbOk: bool): seq<Action> {
      if !loaded then [Load(i, false)]
      else if Effective(outcome).Stored? then [Load(i, true), Put(i, Stored), RemoveRow(i, dbOk)]
      else [Load(i, true), Put(i, Effective(outcome))]
    }

    /**
     uploadBackupSync, run on its own: a failure is reported and leaves the row as it is. An upload that is
     stored and whose delete statement works still reports one exactly if its row was gone already.
     */
    method UploadBackupSync(i: nat, readable: bool, outcome: PutOutcome, dbOk: bool) returns (ok: bool, ghost acts: seq<Action>)
      requires Valid() && i < |uploads| && uploads[i].phase.Admitted? && uploads[i].sync
      modifies this, queue, remote
      ensures Valid() && Legal(Cfg(), old(View()), acts) && View() == Run(Cfg(), old(View()), acts)
      ensures var loaded := readable && old(uploads[i].name) in storage.files;
              && acts == SyncUpload(i, loaded, outcome, dbOk)
              && ok == (loaded && Effective(outcome).Stored? && dbOk && Q.HasName(old(queue.table), old(uploads[i].name)))
    {
      hide StepsTo, View, Cfg;
      ghost var s0 := View();
      var loaded := LoadBackup(i, readable);
      ghost var s1 := View();
      if !loaded {
        acts := [Load(i, false)];
        RunOfSteps(Cfg(), [s0, s1], acts);
        return false, acts;
      }
      var stored := PutBackup(i, outcome);
      ghost var s2 := View();
      if !stored {
        acts := [Load(i, true), Put(i, Effective(outcome))];
        RunOfSteps(Cfg(), [s0, s1, s2], acts);
        return false, acts;
      }
      ok := RemoveFromQueue(i, dbOk);
      acts := [Load(i, true), Put(i, Effective(outcome)), RemoveRow(i, dbOk)];
      RunOfSteps(Cfg(), [s0, s1, s2, View()], acts);
    }

    /** RetryFailedUploads: start an upload for every listed row that is due at `now`. */
    method RetryFailedUploads(now: Time, dbOk: bool, read: nat) returns (ok: bool, ghost admitted: seq<string>)
      requires Valid()
      modifies this
      ensures Valid() && ok == dbOk
      ensures if ok then StepsTo(Cfg(), old(View()), Tick(admitted, now.nanos), View()) else View() == old(View())
      ensures ok && |queue.table| <= read ==> LaunchesDue(Cfg(), old(View()), admitted, now.nanos)
      ensures clock == old(clock)
    {
      hide RowsOf, RowView, ObjectsIn, DueNames, DueUploads, Q.Listing, Q.FilesOf, Lists, ListsAll, LeavesNoneOut, LaunchesDue, Backoff, Apply;
      var status, items := queue.List(dbOk, read);
      if status.DbFailed? {
        return false, [];
      }
      ListingLists(queue.table, read);
      ListingIsComplete(queue.table);
      DueFilesAreATick(Cfg(), items, View(), now.nanos);
      ghost var cfg := Cfg();
      DueNone(cfg, now.nanos);
      assert items[..0] == [];
      for k := 0 to |items|
        invariant uploads == old(uploads) + DueUploads(cfg, items[..k], now.nanos)
        invariant View() == old(View()).(attempts := uploads)
      {
        var item := items[k];
        DueNext(cfg, items, k, now.nanos);
        if item.retryCount >= MAX_RETRIES {
          continue;
        }
        if item.retryCount > 0 && item.lastRetryAt.nanos != ZERO_TIME.nanos {
          var backoff := Backoff(item.retryCount);
          if now.nanos < item.lastRetryAt.nanos + backoff {
            continue;
          }
        }
        var database := FindByID(databases, IDOf, item.databaseID);
        if database.None? {
          continue;
        }
        uploads := uploads + [Attempt(item.name, database.value, item.createdAt, false, now.nanos, Admitted)];
      }
      assert items[..|items|] == items;
      admitted := DueNames(cfg, items, now.nanos);
      if |queue.table| <= read {
        AdmittedAreDue(cfg, old(View()), admitted, now.nanos);
      }
      return true, admitted;
    }

    /** Steps 5 and 6: queue the backup saved last, and upload it if it is to be waited for. */
    function QueueAndUploadActions(i: nat, upload: nat, wait: bool, now: Time, queued: bool, loaded: bool, outcome: PutOutcome, dbOk: bool)
      : seq<Action>
    {
      [SetClock(now), if queued then EnqueueRow(i, wait) else SkipQueue(i)]
      + if queued && wait then SyncUpload(upload, loaded, outcome, dbOk) else []
    }

    method QueueAndUpload(wait: bool, now: Time, queued: bool, readable: bool, outcome: PutOutcome, dbOk: bool)
      returns (ok: bool, ghost acts: seq<Action>)
      requires Valid() && saved != [] && Representable(now)
      modifies this, queue, remote
      ensures Valid() && Legal(Cfg(), old(View()), acts) && View() == Run(Cfg(), old(View()), acts)
      ensures var i := |old(saved)| - 1;
              var loaded := readable && old(saved[i].name) in storage.files;
              && acts == QueueAndUploadActions(i, |old(uploads)|, wait, now, queued, loaded, outcome, dbOk)
              && ok == (queued && (wait ==> loaded && Effective(outcome).Stored? && dbOk))
    {
      hide StepsTo, View, Cfg, Legal, Run;
      ghost var s0 := View();
      Now(now);
      ghost var s1 := View();
      ok := EnqueueBackup(|saved| - 1, wait, queued);
      ghost var enqueued := View();
      acts := [SetClock(now), if queued then EnqueueRow(|old(saved)| - 1, wait) else SkipQueue(|old(saved)| - 1)];
      RunOfSteps(Cfg(), [s0, s1, enqueued], acts);
      if ok && wait {
        ghost var upload;
        ok, upload := UploadBackupSync(|uploads| - 1, readable, outcome, dbOk);
        RunConcat(Cfg(), s0, acts, upload);
        acts := acts + upload;
      }
    }

    /** A saved backup that gets no row. */
    method LeaveUnqueued(i: nat) returns (ghost acts: seq<Action>)
      requires Valid() && i < |saved|
      modifies this
      ensures Valid() && Legal(Cfg(), old(View()), acts) && View() == Run(Cfg(), old(View()), acts)
      ensures acts == [SkipQueue(i)] && uploads == old(uploads) && saved == old(saved)[..i] + old(saved)[i + 1..]
    {
      hide StepsTo, Cfg, RowsOf, ObjectsIn, Legal, Run;
      ghost var s0 := View();
      saved := RemoveAt(saved, i);
      assert StepsTo(Cfg(), s0, SkipQueue(i), View()) by { Skipped(Cfg(), s0, i); }
      acts := [SkipQueue(i)];
      RunOfSteps(Cfg(), [s0, View()], acts);
    }

    /**
     Backup from step 4 on: save under the second `now1`, queue the row created at `now2`, and then upload
     synchronously or leave an upload in flight. Local-only agents stop after saving.
     */
    method Backup(d: Database, data: Bytes, local: bool, wait: bool, now1: Time, now2: Time, created: bool, copied: bool,
                  removed: bool, part: Bytes, statOk: bool, queued: bool, readable: bool, outcome: PutOutcome, dbOk: bool)
      returns (ok: bool, ghost acts: seq<Action>)
      requires Valid() && d in databases && Representable(now2)
      modifies this, storage, queue, remote
      ensures Valid() && Legal(Cfg(), old(View()), acts) && View() == Run(Cfg(), old(View()), acts)
      ensures var i := |old(saved)|;
              acts == [SetClock(now1), SaveAction(d, data, created, copied, removed, part)]
                      + if !created || !copied then []
                        else if local || !statOk then [SkipQueue(i)]
                        else QueueAndUploadActions(i, |old(uploads)|, wait, now2, queued, readable, outcome, dbOk)
      ensures ok == (created && copied && statOk && (local || (queued && (wait ==> readable && Effective(outcome).Stored? && dbOk))))
    {
      hide StepsTo, View, Cfg, Legal, Run;
      ghost var s0 := View();
      Now(now1);
      ghost var s1 := View();
      ok := SaveLocally(d, data, created, copied, removed, part);
      acts := [SetClock(now1), SaveAction(d, data, created, copied, removed, part)];
      RunOfSteps(Cfg(), [s0, s1, View()], acts);
      if !ok {
        return;
      }
      ghost var rest;
      if local || !statOk {
        rest := LeaveUnqueued(|saved| - 1);
        ok := statOk;
      } else {
        ok, rest := QueueAndUpload(wait, now2, queued, readable, outcome, dbOk);
      }
      RunConcat(Cfg(), s0, acts, rest);
      acts := acts + rest;
    }
  }
}
