/** The persistent upload queue: a table of rows with unique names, listed in creation order. */
module Queue {
  import opened Text
  import opened Timestamps

  /** A row as SQLite holds it: both times are column texts. */
  datatype Row = Row(name: string, path: string, size: int, databaseID: string, createdText: string,
                     retryCount: nat, lastError: Option<string>, lastRetryText: Option<string>)

  /** storage.BackupFile, as handed to and back from the queue. */
  datatype BackupFile = BackupFile(name: string, path: string, size: int, createdAt: Time, databaseID: string,
                                   retryCount: nat, lastRetryAt: Time)

  datatype Status = Done | DbFailed | NotFound

  /** Rows in the order of their ids, which is the order they were inserted in. */
  type Table = seq<Row>

  predicate UniqueNames(t: Table) {
    forall i, j :: 0 <= i < j < |t| ==> t[i].name != t[j].name
  }

  predicate HasName(t: Table, name: string) {
    exists r :: r in t && r.name == name
  }

  /** DELETE ... WHERE name = ? */
  function Without(t: Table, name: string): Table {
    if t == [] then []
    else if t[0].name == name then Without(t[1..], name)
    else [t[0]] + Without(t[1..], name)
  }

  function NewRow(b: BackupFile): Row {
    Row(b.name, b.path, b.size, b.databaseID, StoredText(b.createdAt), 0, None, None)
  }

  /** INSERT OR REPLACE: the old row goes, and with it its retry count; the new one gets the next id. */
  function Replaced(t: Table, b: BackupFile): Table {
    Without(t, b.name) + [NewRow(b)]
  }

  function Retried(r: Row, message: string, now: Time): Row {
    r.(retryCount := r.retryCount + 1, lastError := Some(message), lastRetryText := Some(StoredText(now)))
  }

  /** UPDATE ... WHERE name = ? */
  function Incremented(t: Table, name: string, message: string, now: Time): (u: Table)
    ensures |u| == |t|
    ensures forall i :: 0 <= i < |t| ==> u[i] == if t[i].name == name then Retried(t[i], message, now) else t[i]
  {
    seq(|t|, i requires 0 <= i < |t| => if t[i].name == name then Retried(t[i], message, now) else t[i])
  }

  /** ORDER BY created_at compares the stored texts. */
  predicate NotAfter(a: Row, b: Row) {
    !Less(b.createdText, a.createdText)
  }

  /** Where a row with a larger id than all of `s` belongs: after its equals. */
  function Insert(r: Row, s: Table): (u: Table)
    ensures |u| == |s| + 1
  {
    if s != [] && NotAfter(s[0], r) then [s[0]] + Insert(r, s[1..]) else [r] + s
  }

  /** ORDER BY created_at ASC; rows with the same text stay in id order, as the created_at index keeps them. */
  function Listing(t: Table): (s: Table)
    ensures |s| == |t|
  {
    if t == [] then [] else Insert(t[|t| - 1], Listing(t[..|t| - 1]))
  }

  predicate Sorted(s: Table) {
    forall i, j :: 0 <= i < j < |s| ==> NotAfter(s[i], s[j])
  }

  /**
   A row read back. The driver re-prints a timestamp column as RFC 3339 before it is parsed; both texts
   parse alike, so the column text is parsed here.
   */
  function FileOf(r: Row): BackupFile {
    BackupFile(r.name, r.path, r.size, ParseSQLiteTime(r.createdText), r.databaseID, r.retryCount,
               if r.lastRetryText.Some? && r.lastRetryText.value != "" then ParseSQLiteTime(r.lastRetryText.value) else ZERO_TIME)
  }

  /** Peek and Dequeue do not select the retry columns. */
  function HeadOf(r: Row): BackupFile {
    FileOf(r).(retryCount := 0, lastRetryAt := ZERO_TIME)
  }

  function FilesOf(s: Table): (files: seq<BackupFile>)
    ensures |files| == |s|
  {
    if s == [] then [] else FilesOf(s[..|s| - 1]) + [FileOf(s[|s| - 1])]
  }

  /** The rows an iteration yields that ends, or breaks off, after at most `read` of them. */
  function Fetched(s: Table, read: nat): (r: Table)
    ensures |r| <= |s| && r == s[..|r|] && |r| <= read && (|s| <= read ==> r == s) && (read <= |s| ==> |r| == read)
  {
    if read < |s| then s[..read] else s
  }

  lemma FilesOfSnoc(s: Table, r: Row)
    ensures FilesOf(s + [r]) == FilesOf(s) + [FileOf(r)]
  {
    assert (s + [r])[..|s|] == s;
  }

  lemma NoFiles()
    ensures FilesOf([]) == []
  {
  }

  class SQLiteQueue {
    var table: Table

    ghost predicate Valid()
      reads this
    {
      UniqueNames(table)
    }

    constructor ()
      ensures Valid() && table == []
    {
      table := [];
    }

    method Enqueue(backup: BackupFile, dbOk: bool) returns (status: Status)
      requires Valid()
      modifies this
      ensures Valid()
      ensures status == if dbOk then Done else DbFailed
      ensures table == if dbOk then Replaced(old(table), backup) else old(table)
    {
      if !dbOk {
        return DbFailed;
      }
      ReplacedIsUnique(table, backup);
      table := Without(table, backup.name) + [NewRow(backup)];
      return Done;
    }

    method Peek(dbOk: bool) returns (status: Status, head: Option<BackupFile>)
      requires Valid()
      ensures status == if dbOk then Done else DbFailed
      ensures head == if table == [] || !dbOk then None else Some(HeadOf(Listing(table)[0]))
    {
      if !dbOk {
        return DbFailed, None;
      }
      var rows := Listing(table);
      if |rows| == 0 {
        return Done, None;
      }
      return Done, Some(HeadOf(rows[0]));
    }

    /** The row is read and then deleted by two statements, either of which may fail. */
    method Dequeue(readOk: bool, dbOk: bool) returns (status: Status, head: Option<BackupFile>)
      requires Valid()
      modifies this
      ensures Valid()
      ensures !readOk || (old(table) != [] && !dbOk) ==> status == DbFailed && head == None && table == old(table)
      ensures readOk && old(table) == [] ==> status == Done && head == None && table == []
      ensures readOk && old(table) != [] && dbOk ==>
                var first := Listing(old(table))[0];
                status == Done && head == Some(HeadOf(first)) && table == Without(old(table), first.name)
    {
      if !readOk {
        return DbFailed, None;
      }
      var rows := Listing(table);
      if |rows| == 0 {
        return Done, None;
      }
      var backup := HeadOf(rows[0]);
      if !dbOk {
        return DbFailed, None;
      }
      WithoutIsUnique(table, backup.name);
      table := Without(table, backup.name);
      return Done, Some(backup);
    }

    /** A query or a scan may fail; an iteration that breaks off after `read` rows is not noticed. */
    method List(dbOk: bool, read: nat) returns (status: Status, backups: seq<BackupFile>)
      requires Valid()
      ensures status == if dbOk then Done else DbFailed
      ensures backups == if dbOk then FilesOf(Fetched(Listing(table), read)) else []
    {
      backups := [];
      if !dbOk {
        return DbFailed, [];
      }
      hide Listing, FilesOf, FileOf;
      var rows := Fetched(Listing(table), read);
      NoFiles();
      for i := 0 to |rows|
        invariant backups == FilesOf(rows[..i])
      {
        FilesOfSnoc(rows[..i], rows[i]);
        assert rows[..i + 1] == rows[..i] + [rows[i]];
        backups := backups + [FileOf(rows[i])];
      }
      assert rows[..|rows|] == rows;
      return Done, backups;
    }

    method IncrementRetry(name: string, message: string, now: Time, dbOk: bool) returns (status: Status)
      requires Valid()
      modifies this
      ensures Valid()
      ensures status == if dbOk then Done else DbFailed
      ensures table == if dbOk then Incremented(old(table), name, message, now) else old(table)
    {
      if !dbOk {
        return DbFailed;
      }
      table := Incremented(table, name, message, now);
      return Done;
    }

    method Remove(name: string, dbOk: bool) returns (status: Status)
      requires Valid()
      modifies this
      ensures Valid()
      ensures table == if dbOk then Without(old(table), name) else old(table)
      ensures status == if !dbOk then DbFailed else if HasName(old(table), name) then Done else NotFound
    {
      if !dbOk {
        return DbFailed;
      }
      var rowsBefore := |table|;
      WithoutShrinks(table, name);
      WithoutIsUnique(table, name);
      table := Without(table, name);
      return if |table| == rowsBefore then NotFound else Done;
    }

    method Clear(dbOk: bool) returns (status: Status)
      requires Valid()
      modifies this
      ensures Valid()
      ensures status == if dbOk then Done else DbFailed
      ensures table == if dbOk then [] else old(table)
    {
      if !dbOk {
        return DbFailed;
      }
      table := [];
      return Done;
    }
  }

  // ---------------------------------------------------------------- deletion and replacement

  lemma {:induction false} WithoutShrinks(t: Table, name: string)
    ensures |Without(t, name)| <= |t|
    ensures |Without(t, name)| == |t| <==> !HasName(t, name)
    ensures !HasName(t, name) ==> Without(t, name) == t
  {
    if t != [] {
      WithoutShrinks(t[1..], name);
      assert t == [t[0]] + t[1..];
      assert HasName(t, name) <==> HasName(t[1..], name) || t[0].name == name;
    }
  }

  lemma {:induction false} WithoutMembers(t: Table, name: string)
    ensures forall r :: r in Without(t, name) <==> r in t && r.name != name
  {
    if t != [] {
      WithoutMembers(t[1..], name);
      assert t == [t[0]] + t[1..];
    }
  }

  lemma UniqueCons(r: Row, s: Table)
    requires UniqueNames(s) && forall q :: q in s ==> q.name != r.name
    ensures UniqueNames([r] + s)
  {
  }

  lemma {:induction false} WithoutIsUnique(t: Table, name: string)
    requires UniqueNames(t)
    ensures UniqueNames(Without(t, name))
  {
    if t != [] {
      WithoutIsUnique(t[1..], name);
      WithoutMembers(t[1..], name);
      UniqueCons(t[0], Without(t[1..], name));
    }
  }

  /** One row per name survives an enqueue, and it is the new one. */
  lemma ReplacedIsUnique(t: Table, b: BackupFile)
    requires UniqueNames(t)
    ensures UniqueNames(Replaced(t, b))
    ensures forall r :: r in Replaced(t, b) && r.name == b.name ==> r == NewRow(b)
  {
    WithoutIsUnique(t, b.name);
    WithoutMembers(t, b.name);
    var u := Without(t, b.name);
    assert forall i :: 0 <= i < |u| ==> u[i] in u;
  }

  // ---------------------------------------------------------------- order

  lemma {:induction false} InsertMembers(r: Row, s: Table)
    ensures forall q :: q in Insert(r, s) <==> q in s || q == r
  {
    if s != [] && NotAfter(s[0], r) {
      InsertMembers(r, s[1..]);
      assert s == [s[0]] + s[1..];
    }
  }

  lemma {:induction false} InsertMultiset(r: Row, s: Table)
    ensures multiset(Insert(r, s)) == multiset(s) + multiset{r}
  {
    if s != [] && NotAfter(s[0], r) {
      InsertMultiset(r, s[1..]);
      assert s == [s[0]] + s[1..];
    }
  }

  lemma {:induction false} ListingMultiset(t: Table)
    ensures multiset(Listing(t)) == multiset(t)
  {
    if t != [] {
      var u, r := t[..|t| - 1], t[|t| - 1];
      assert t == u + [r];
      ListingMultiset(u);
      InsertMultiset(r, Listing(u));
    }
  }

  lemma NotAfterOrder(a: Row, b: Row, c: Row)
    ensures NotAfter(a, b) || NotAfter(b, a)
    ensures NotAfter(a, b) && NotAfter(b, c) ==> NotAfter(a, c)
  {
    LessTotal(a.createdText, b.createdText);
    if NotAfter(a, b) && NotAfter(b, c) {
      NotAfterTransitive(a.createdText, b.createdText, c.createdText);
    }
  }

  lemma {:induction false} InsertSorted(r: Row, s: Table)
    requires Sorted(s)
    ensures Sorted(Insert(r, s))
  {
    if s != [] && NotAfter(s[0], r) {
      InsertSorted(r, s[1..]);
      InsertMembers(r, s[1..]);
      SortedCons(s[0], Insert(r, s[1..]));
    } else {
      if s != [] {
        NotAfterOrder(r, s[0], r);
      }
      forall q | q in s
        ensures NotAfter(r, q)
      {
        NotAfterOrder(r, s[0], q);
        NotAfterOrder(s[0], s[0], s[0]);
      }
      SortedCons(r, s);
    }
  }

  lemma SortedCons(r: Row, s: Table)
    requires Sorted(s) && forall q :: q in s ==> NotAfter(r, q)
    ensures Sorted([r] + s)
  {
  }

  lemma {:induction false} ListingSorted(t: Table)
    ensures Sorted(Listing(t))
  {
    if t != [] {
      ListingSorted(t[..|t| - 1]);
      InsertSorted(t[|t| - 1], Listing(t[..|t| - 1]));
    }
  }

  predicate DistinctTimes(t: Table) {
    forall i, j :: 0 <= i < j < |t| ==> t[i].createdText != t[j].createdText
  }

  /** Two sorted arrangements of rows with distinct times are one, so ties aside SQL leaves no choice. */
  lemma {:induction false} SortedUnique(s: Table, u: Table)
    requires Sorted(s) && Sorted(u) && multiset(s) == multiset(u) && DistinctTimes(s)
    ensures s == u
  {
    assert |s| == |multiset(s)| == |multiset(u)| == |u|;
    if s != [] {
      var a, b := s[0], u[0];
      assert a in multiset(u) && b in multiset(s);
      assert NotAfter(a, b) by { NotAfterOrder(a, a, a); }
      assert NotAfter(b, a) by { NotAfterOrder(b, b, b); }
      LessTotal(a.createdText, b.createdText);
      MultisetRest(s);
      MultisetRest(u);
      SortedUnique(s[1..], u[1..]);
    }
  }

  lemma MultisetRest(s: Table)
    requires s != []
    ensures multiset(s[1..]) == multiset(s) - multiset{s[0]}
  {
    assert s == [s[0]] + s[1..];
  }

  lemma ListingIsTheOnlyOrder(t: Table, u: Table)
    requires Sorted(u) && multiset(u) == multiset(t) && DistinctTimes(u)
    ensures u == Listing(t)
  {
    ListingSorted(t);
    ListingMultiset(t);
    SortedUnique(u, Listing(t));
  }

  // ---------------------------------------------------------------- draining

  lemma WithoutCons(r: Row, s: Table, name: string)
    ensures Without([r] + s, name) == if r.name == name then Without(s, name) else [r] + Without(s, name)
  {
    assert ([r] + s)[1..] == s;
  }

  lemma {:induction false} WithoutSnoc(s: Table, r: Row, name: string)
    ensures Without(s + [r], name) == if r.name == name then Without(s, name) else Without(s, name) + [r]
  {
    if s == [] {
      assert s + [r] == [r] + [];
      WithoutCons(r, [], name);
    } else {
      assert s + [r] == [s[0]] + (s[1..] + [r]);
      WithoutCons(s[0], s[1..] + [r], name);
      WithoutSnoc(s[1..], r, name);
    }
  }

  lemma InsertCons(r: Row, a: Row, s: Table)
    requires NotAfter(a, r)
    ensures Insert(r, [a] + s) == [a] + Insert(r, s)
  {
    assert ([a] + s)[1..] == s;
  }

  lemma InsertFirst(r: Row, s: Table, name: string)
    requires Sorted(s) && (s == [] || !NotAfter(s[0], r))
    ensures Insert(r, Without(s, name)) == [r] + Without(s, name)
  {
    var u := Without(s, name);
    WithoutMembers(s, name);
    if u != [] {
      assert u[0] in s;
      var i :| 0 <= i < |s| && s[i] == u[0];
      NotAfterOrder(s[0], u[0], r);
    }
  }

  lemma {:induction false} InsertWithout(r: Row, s: Table, name: string)
    requires Sorted(s)
    ensures Without(Insert(r, s), name) == if r.name == name then Without(s, name) else Insert(r, Without(s, name))
  {
    if s != [] && NotAfter(s[0], r) {
      InsertWithout(r, s[1..], name);
      WithoutCons(s[0], Insert(r, s[1..]), name);
      InsertCons(r, s[0], Without(s[1..], name));
    } else {
      WithoutCons(r, s, name);
      InsertFirst(r, s, name);
    }
  }

  /** Deleting a row and listing commute. */
  lemma {:induction false} ListingWithout(t: Table, name: string)
    ensures Listing(Without(t, name)) == Without(Listing(t), name)
  {
    if t != [] {
      var u, r := t[..|t| - 1], t[|t| - 1];
      assert t == u + [r];
      ListingWithout(u, name);
      ListingSorted(u);
      InsertWithout(r, Listing(u), name);
      WithoutSnoc(u, r, name);
      ListingSnoc(Without(u, name), r);
    }
  }

  lemma ListingSnoc(u: Table, r: Row)
    ensures Listing(u + [r]) == Insert(r, Listing(u))
  {
    assert (u + [r])[..|u|] == u;
  }

  lemma {:induction false} InsertUnique(r: Row, s: Table)
    requires UniqueNames(s) && !HasName(s, r.name)
    ensures UniqueNames(Insert(r, s))
  {
    if s != [] && NotAfter(s[0], r) {
      assert s == [s[0]] + s[1..];
      InsertUnique(r, s[1..]);
      InsertMembers(r, s[1..]);
      UniqueCons(s[0], Insert(r, s[1..]));
    } else {
      UniqueCons(r, s);
    }
  }

  lemma {:induction false} ListingUnique(t: Table)
    requires UniqueNames(t)
    ensures UniqueNames(Listing(t))
  {
    if t != [] {
      var u, r := t[..|t| - 1], t[|t| - 1];
      ListingUnique(u);
      ListingMultiset(u);
      assert forall q :: q in Listing(u) ==> q in multiset(u);
      InsertUnique(r, Listing(u));
    }
  }

  /** After a dequeue the listing is the old one without its first entry. */
  lemma DequeueAdvancesListing(t: Table)
    requires t != [] && UniqueNames(t)
    ensures var first := Listing(t)[0]; Listing(Without(t, first.name)) == Listing(t)[1..]
    ensures UniqueNames(Without(t, Listing(t)[0].name))
  {
    var s := Listing(t);
    ListingWithout(t, s[0].name);
    WithoutIsUnique(t, s[0].name);
    ListingUnique(t);
    assert !HasName(s[1..], s[0].name);
    WithoutShrinks(s[1..], s[0].name);
  }

  lemma HeadIsQueued(t: Table)
    requires t != []
    ensures HasName(t, Listing(t)[0].name)
  {
    ListingMultiset(t);
    assert Listing(t)[0] in multiset(t);
  }

  /** The rows repeated dequeues return, until the queue is empty. */
  function Drained(t: Table): seq<Row>
    decreases |t|
  {
    if t == [] then []
    else
      var first := Listing(t)[0];
      HeadIsQueued(t);
      WithoutShrinks(t, first.name);
      [first] + Drained(Without(t, first.name))
  }

  /** Draining the queue returns exactly what List shows, in that order, nothing lost or repeated. */
  lemma {:induction false} DrainingIsListing(t: Table)
    requires UniqueNames(t)
    ensures Drained(t) == Listing(t)
    decreases |t|
  {
    if t != [] {
      var first := Listing(t)[0];
      HeadIsQueued(t);
      WithoutShrinks(t, first.name);
      DequeueAdvancesListing(t);
      DrainingIsListing(Without(t, first.name));
      assert Listing(t) == [first] + Listing(t)[1..];
    }
  }

  // ---------------------------------------------------------------- first in, first out

  /** A row's creation time, as its column gives it. */
  function CreatedAt(r: Row): Time {
    ParseSQLiteTime(r.createdText)
  }

  /** A row created in the zone `offset`, no later than `now`. */
  predicate CreatedBy(r: Row, offset: int, now: int) {
    var t := CreatedAt(r);
    FourDigitYear(t) && t.offset == offset && t.nanos <= now && r.createdText == StoredText(t)
  }

  /** Rows in the order of their creation, by a clock that stays in one zone and has reached `now`. */
  predicate InOrder(t: Table, offset: int, now: int) {
    && (forall i :: 0 <= i < |t| ==> CreatedBy(t[i], offset, now))
    && (forall i, j :: 0 <= i < j < |t| ==> CreatedAt(t[i]).nanos <= CreatedAt(t[j]).nanos)
  }

  /** Rows in the order of their creation are listed in that order. */
  lemma {:induction false} OrderedRowsAreListedInOrder(t: Table, offset: int, now: int)
    requires InOrder(t, offset, now)
    ensures Listing(t) == t
  {
    hide ParseSQLiteTime, StoredText, FourDigitYear, Less, Listing, Insert;
    if t == [] {
      NothingListed();
    } else {
      var u, r := t[..|t| - 1], t[|t| - 1];
      OrderedRowsAreListedInOrder(u, offset, now);
      assert CreatedBy(r, offset, now);
      forall i | 0 <= i < |u|
        ensures NotAfter(u[i], r)
      {
        assert CreatedBy(t[i], offset, now);
        StoredTextIsChronological(CreatedAt(r), CreatedAt(u[i]));
      }
      InsertLast(r, u);
      ListingSnoc(u, r);
      assert t == u + [r];
    }
  }

  lemma NothingListed()
    ensures Listing([]) == []
  {
  }

  lemma {:induction false} InsertLast(r: Row, s: Table)
    requires forall i :: 0 <= i < |s| ==> NotAfter(s[i], r)
    ensures Insert(r, s) == s + [r]
  {
    if s != [] {
      InsertLast(r, s[1..]);
      assert s == [s[0]] + s[1..];
    }
  }

  lemma {:induction false} WithoutStaysInOrder(t: Table, name: string, offset: int, now: int)
    requires InOrder(t, offset, now)
    ensures InOrder(Without(t, name), offset, now)
  {
    hide CreatedBy, CreatedAt;
    if t != [] {
      WithoutStaysInOrder(t[1..], name, offset, now);
      WithoutMembers(t[1..], name);
      var u := Without(t[1..], name);
      assert forall j :: 0 <= j < |u| ==> u[j] in t[1..];
    }
  }

  lemma NewRowCreatedBy(b: BackupFile)
    requires FourDigitYear(b.createdAt) && OffsetInRange(b.createdAt.offset)
    ensures CreatedAt(NewRow(b)) == b.createdAt && CreatedBy(NewRow(b), b.createdAt.offset, b.createdAt.nanos)
  {
    hide StoredText, ParseSQLiteTime, FourDigitYear, OffsetInRange;
    TimestampTextsAreExact(b.createdAt);
  }

  lemma ReplacedStaysInOrder(t: Table, b: BackupFile, offset: int, now: int)
    requires InOrder(t, offset, now)
    requires FourDigitYear(b.createdAt) && OffsetInRange(offset) && b.createdAt.offset == offset && now <= b.createdAt.nanos
    ensures InOrder(Replaced(t, b), offset, b.createdAt.nanos)
  {
    hide FourDigitYear, OffsetInRange, NewRow, Without, ParseSQLiteTime, StoredText;
    var u := Without(t, b.name);
    WithoutStaysInOrder(t, b.name, offset, now);
    NewRowCreatedBy(b);
    forall i | 0 <= i < |u|
      ensures CreatedBy(u[i], offset, b.createdAt.nanos) && CreatedAt(u[i]).nanos <= b.createdAt.nanos
    {
      assert CreatedBy(u[i], offset, now);
    }
  }

  lemma IncrementedStaysInOrder(t: Table, name: string, message: string, at: Time, offset: int, now: int)
    requires InOrder(t, offset, now)
    ensures InOrder(Incremented(t, name, message, at), offset, now)
  {
    hide StoredText, ParseSQLiteTime, FourDigitYear;
    var u := Incremented(t, name, message, at);
    assert forall i :: 0 <= i < |t| ==> u[i].createdText == t[i].createdText;
  }

  /** A statement on the table; a dequeue deletes the first listed name. */
  datatype Operation =
    | Enqueuing(backup: BackupFile)
    | Removing(name: string)
    | Counting(name: string, message: string, at: Time)
    | Clearing

  function After(t: Table, op: Operation): Table {
    match op
    case Enqueuing(b) => Replaced(t, b)
    case Removing(name) => Without(t, name)
    case Counting(name, message, at) => Incremented(t, name, message, at)
    case Clearing => []
  }

  function AfterAll(t: Table, ops: seq<Operation>): Table
    decreases |ops|
  {
    if ops == [] then t else AfterAll(After(t, ops[0]), ops[1..])
  }

  /** Enqueues by a clock in the zone `offset` that shows at least `now` and never goes back. */
  predicate Forward(ops: seq<Operation>, offset: int, now: int)
    decreases |ops|
  {
    ops == [] || (
      match ops[0]
      case Enqueuing(b) =>
        FourDigitYear(b.createdAt) && b.createdAt.offset == offset && now <= b.createdAt.nanos
        && Forward(ops[1..], offset, b.createdAt.nanos)
      case _ => Forward(ops[1..], offset, now))
  }

  lemma OperationStaysInOrder(t: Table, op: Operation, offset: int, now: int)
    requires InOrder(t, offset, now) && OffsetInRange(offset)
    requires op.Enqueuing? ==>
               FourDigitYear(op.backup.createdAt) && op.backup.createdAt.offset == offset && now <= op.backup.createdAt.nanos
    ensures InOrder(After(t, op), offset, if op.Enqueuing? then op.backup.createdAt.nanos else now)
  {
    hide CreatedBy, CreatedAt, FourDigitYear, OffsetInRange, Replaced, Without, Incremented;
    match op
    case Enqueuing(b) => ReplacedStaysInOrder(t, b, offset, now);
    case Removing(name) => WithoutStaysInOrder(t, name, offset, now);
    case Counting(name, message, at) => IncrementedStaysInOrder(t, name, message, at, offset, now);
    case Clearing =>
  }

  /**
   First in, first out: whatever is enqueued, retried, removed and replaced, as long as the enqueuing clock
   stays in one zone and never goes back, the queue is listed and drained in the order of its enqueues.
   */
  lemma {:induction false} FirstInFirstOut(t: Table, ops: seq<Operation>, offset: int, now: int)
    requires InOrder(t, offset, now) && Forward(ops, offset, now) && OffsetInRange(offset)
    ensures Listing(AfterAll(t, ops)) == AfterAll(t, ops)
    decreases |ops|
  {
    hide InOrder, After, Listing, FourDigitYear, OffsetInRange;
    if ops == [] {
      OrderedRowsAreListedInOrder(t, offset, now);
    } else {
      OperationStaysInOrder(t, ops[0], offset, now);
      FirstInFirstOut(After(t, ops[0]), ops[1..], offset, if ops[0].Enqueuing? then ops[0].backup.createdAt.nanos else now);
    }
  }

  /** A backup enqueued by a representable clock is listed with exactly the creation time it was given. */
  lemma EnqueuedTimeIsExact(b: BackupFile)
    requires FourDigitYear(b.createdAt) && OffsetInRange(b.createdAt.offset)
    ensures FileOf(NewRow(b)).createdAt == b.createdAt
  {
    TimestampTextsAreExact(b.createdAt);
  }

  /** A backup is listed as it was enqueued, with nothing tried yet; Peek and Dequeue return it likewise. */
  lemma EnqueuedFileIsListed(b: BackupFile)
    requires FourDigitYear(b.createdAt) && OffsetInRange(b.createdAt.offset)
    ensures FileOf(NewRow(b)) == b.(retryCount := 0, lastRetryAt := Time(-62_135_596_800_000_000_000, 0))
    ensures HeadOf(NewRow(b)) == FileOf(NewRow(b))
  {
    hide StoredText, ParseSQLiteTime;
    TimestampTextsAreExact(b.createdAt);
  }

  /** A counted failure shows in the listing as one more retry at that time, and changes nothing else there. */
  lemma RetriedFileIsListed(r: Row, message: string, now: Time)
    requires FourDigitYear(now) && OffsetInRange(now.offset)
    ensures FileOf(Retried(r, message, now)) == FileOf(r).(retryCount := r.retryCount + 1, lastRetryAt := now)
    ensures HeadOf(Retried(r, message, now)) == HeadOf(r) && Retried(r, message, now).lastError == Some(message)
  {
    hide StoredText, ParseSQLiteTime;
    TimestampTextsAreExact(now);
    StoredTextIsNotEmpty(now);
  }
}
