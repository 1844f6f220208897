/** The SQL dump scanner: tables and rows counted line by line. */
module SqlDump {
  import opened Text
  import opened Positions

  /** A line, and what the two patterns find in it: the table a CREATE names and the table an INSERT names. */
  datatype Line = Line(text: string, create: Option<string>, insert: Option<string>)

  datatype CollectionInfo = CollectionInfo(name: string, rowCount: nat)

  datatype SampleEntry = SampleEntry(collection: string, data: string)

  datatype Report = Report(structureCount: nat, totalRows: nat, collections: seq<CollectionInfo>, sampleData: seq<SampleEntry>)

  const EMPTY := Report(0, 0, [], [])

  function TruncateString(s: string, maxLen: nat): (r: string)
    requires 3 <= maxLen
    ensures |r| <= maxLen
    ensures |s| <= maxLen ==> r == s
    ensures |s| > maxLen ==> |r| == maxLen && r[..maxLen - 3] == s[..maxLen - 3] && r[maxLen - 3..] == "..."
  {
    if |s| <= maxLen then s else s[..maxLen - 3] + "..."
  }

  // ---------------------------------------------------------------- one line

  /** The first entry of that name, or the end. */
  function FirstEntry(cs: seq<CollectionInfo>, name: string): (i: nat)
    ensures i <= |cs|
    ensures forall k :: 0 <= k < i ==> cs[k].name != name
    ensures i < |cs| ==> cs[i].name == name
  {
    if cs == [] || cs[0].name == name then 0 else 1 + FirstEntry(cs[1..], name)
  }

  function CountedInto(cs: seq<CollectionInfo>, name: string): (r: seq<CollectionInfo>)
    ensures |r| == |cs|
  {
    var i := FirstEntry(cs, name);
    if i == |cs| then cs else cs[i := cs[i].(rowCount := cs[i].rowCount + 1)]
  }

  function AfterCreate(r: Report, create: Option<string>): Report {
    match create
    case None => r
    case Some(name) => r.(structureCount := r.structureCount + 1, collections := r.collections + [CollectionInfo(name, 0)])
  }

  function AfterInsert(r: Report, line: Line): Report {
    match line.insert
    case None => r
    case Some(name) =>
      Report(r.structureCount, r.totalRows + 1, CountedInto(r.collections, name),
             if |r.sampleData| < 3 * r.structureCount
             then r.sampleData + [SampleEntry(name, TruncateString(line.text, 200))] else r.sampleData)
  }

  /** The report on a sequence of lines. */
  function ReportOf(lines: seq<Line>): Report {
    if lines == [] then EMPTY
    else
      var last := lines[|lines| - 1];
      AfterInsert(AfterCreate(ReportOf(lines[..|lines| - 1]), last.create), last)
  }

  // ---------------------------------------------------------------- the scanner

  lemma FirstEntryIs(cs: seq<CollectionInfo>, name: string, i: nat)
    requires i <= |cs| && (forall k :: 0 <= k < i ==> cs[k].name != name) && (i < |cs| ==> cs[i].name == name)
    ensures FirstEntry(cs, name) == i
  {
  }

  /** The inner loop: count the row for the first entry of its table, if there is one. */
  method CountRow(collections: seq<CollectionInfo>, tableName: string) returns (r: seq<CollectionInfo>)
    ensures r == CountedInto(collections, tableName)
  {
    r := collections;
    for i := 0 to |collections|
      invariant r == collections
      invariant forall k :: 0 <= k < i ==> collections[k].name != tableName
    {
      if collections[i].name == tableName {
        FirstEntryIs(collections, tableName, i);
        r := collections[i := collections[i].(rowCount := collections[i].rowCount + 1)];
        return;
      }
    }
    FirstEntryIs(collections, tableName, |collections|);
  }

  /** verifySQLDump on the lines the scanner yields; a read error discards the report. */
  method VerifySQLDump(lines: seq<Line>, failed: bool) returns (r: Option<Report>)
    ensures r == if failed then None else Some(ReportOf(lines))
  {
    hide CountedInto;
    var report := EMPTY;
    var sampleCount := 0;
    for k := 0 to |lines|
      invariant report == ReportOf(lines[..k])
      invariant sampleCount == |report.sampleData|
    {
      var line := lines[k];
      assert lines[..k + 1][..k] == lines[..k];
      if line.create.Some? {
        report := report.(structureCount := report.structureCount + 1,
                          collections := report.collections + [CollectionInfo(line.create.value, 0)]);
      }
      if line.insert.Some? {
        var tableName := line.insert.value;
        report := report.(totalRows := report.totalRows + 1);
        var counted := CountRow(report.collections, tableName);
        report := report.(collections := counted);
        if sampleCount < 3 * report.structureCount {
          report := report.(sampleData := report.sampleData + [SampleEntry(tableName, TruncateString(line.text, 200))]);
          sampleCount := sampleCount + 1;
        }
      }
    }
    assert lines[..|lines|] == lines;
    return if failed then None else Some(report);
  }

  // ---------------------------------------------------------------- what the report says

  /** The tables created, in the order of their CREATE lines. */
  function Creates(lines: seq<Line>): seq<string> {
    if lines == [] then []
    else
      var last := lines[|lines| - 1];
      Creates(lines[..|lines| - 1]) + if last.create.Some? then [last.create.value] else []
  }

  predicate InsertsInto(line: Line, name: string) {
    line.insert == Some(name)
  }

  predicate AnyInsert(line: Line) {
    line.insert.Some?
  }

  /** How many lines satisfy `p`. */
  function Count(lines: seq<Line>, p: Line -> bool): nat {
    if lines == [] then 0 else Count(lines[..|lines| - 1], p) + if p(lines[|lines| - 1]) then 1 else 0
  }

  function Into(name: string): Line -> bool {
    line => InsertsInto(line, name)
  }

  /** The line of the first CREATE of a table, or the end. */
  function FirstCreate(lines: seq<Line>, name: string): (i: nat)
    ensures i <= |lines|
    ensures forall k :: 0 <= k < i ==> lines[k].create != Some(name)
    ensures i < |lines| ==> lines[i].create == Some(name)
  {
    if lines == [] || lines[0].create == Some(name) then 0 else 1 + FirstCreate(lines[1..], name)
  }

  /** The rows a table should have: the INSERT lines naming it, from its first CREATE line on, that line included. */
  function RowsSinceCreate(lines: seq<Line>, name: string): nat {
    Count(lines[FirstCreate(lines, name)..], Into(name))
  }

  lemma {:induction false} CreatesMember(lines: seq<Line>, name: string)
    ensures name in Creates(lines) <==> FirstCreate(lines, name) < |lines|
  {
    if lines != [] {
      CreatesMember(lines[..|lines| - 1], name);
      FirstCreateSnoc(lines, name);
    }
  }

  lemma FirstCreateIs(lines: seq<Line>, name: string, i: nat)
    requires i <= |lines| && (forall k :: 0 <= k < i ==> lines[k].create != Some(name)) && (i < |lines| ==> lines[i].create == Some(name))
    ensures FirstCreate(lines, name) == i
  {
  }

  lemma FirstCreateSnoc(lines: seq<Line>, name: string)
    requires lines != []
    ensures var init := lines[..|lines| - 1];
            FirstCreate(lines, name) == if FirstCreate(init, name) < |init| || lines[|lines| - 1].create == Some(name)
                                        then FirstCreate(init, name) else |lines|
  {
    hide FirstCreate;
    var init := lines[..|lines| - 1];
    var i := FirstCreate(init, name);
    assert forall k :: 0 <= k < |init| ==> init[k] == lines[k];
    if i < |init| || lines[|lines| - 1].create == Some(name) {
      FirstCreateIs(lines, name, i);
    } else {
      FirstCreateIs(lines, name, |lines|);
    }
  }

  /** One more line adds at most one row, and none to a table not created yet. */
  lemma RowsSnoc(lines: seq<Line>, name: string)
    requires lines != []
    ensures var init, last := lines[..|lines| - 1], lines[|lines| - 1];
            RowsSinceCreate(lines, name)
            == RowsSinceCreate(init, name) + if name in Creates(lines) && InsertsInto(last, name) then 1 else 0
  {
    hide FirstCreate, Creates;
    var init := lines[..|lines| - 1];
    var i, j := FirstCreate(init, name), FirstCreate(lines, name);
    FirstCreateSnoc(lines, name);
    CreatesMember(lines, name);
    if j < |lines| {
      assert i == j;
      assert lines[j..][..|lines[j..]| - 1] == init[i..];
    } else {
      assert i == |init|;
      assert lines[j..] == init[i..] == [];
    }
  }

  /** Each entry is named by its CREATE; the first of a name has that table's rows, and any later one has none. */
  predicate Exact(cs: seq<CollectionInfo>, lines: seq<Line>) {
    && |cs| == |Creates(lines)|
    && (forall k :: 0 <= k < |cs| ==> cs[k].name == Creates(lines)[k])
    && (forall k :: 0 <= k < |cs| ==>
          cs[k].rowCount == if cs[k].name in Creates(lines)[..k] then 0 else RowsSinceCreate(lines, cs[k].name))
  }

  lemma NoRowsBeforeCreate(lines: seq<Line>, name: string)
    requires name !in Creates(lines)
    ensures RowsSinceCreate(lines, name) == 0
  {
    CreatesMember(lines, name);
    assert lines[FirstCreate(lines, name)..] == [];
  }

  /** The entries behind a line's CREATE, before its INSERT. */
  lemma CreateIsExact(cs: seq<CollectionInfo>, lines: seq<Line>)
    requires lines != [] && Exact(cs, lines[..|lines| - 1])
    ensures var init, create := lines[..|lines| - 1], lines[|lines| - 1].create;
            var ds := AfterCreate(Report(0, 0, cs, []), create).collections;
            && |ds| == |Creates(lines)|
            && (forall k :: 0 <= k < |ds| ==> ds[k].name == Creates(lines)[k])
            && (forall k :: 0 <= k < |ds| ==>
                  ds[k].rowCount == if ds[k].name in Creates(lines)[..k] then 0 else RowsSinceCreate(init, ds[k].name))
  {
    hide RowsSinceCreate;
    var init, create := lines[..|lines| - 1], lines[|lines| - 1].create;
    assert forall k :: 0 <= k <= |Creates(init)| ==> Creates(lines)[..k] == Creates(init)[..k];
    if create.Some? && create.value !in Creates(init) {
      NoRowsBeforeCreate(init, create.value);
    }
  }

  /** The first entry of a name is the one before which the name does not occur. */
  lemma FirstEntryAmong(ds: seq<CollectionInfo>, names: seq<string>, k: nat)
    requires |ds| == |names| && k < |ds| && forall j :: 0 <= j < |ds| ==> ds[j].name == names[j]
    ensures FirstEntry(ds, ds[k].name) == k <==> ds[k].name !in names[..k]
  {
    var i := FirstEntry(ds, ds[k].name);
    if i < k {
      assert names[..k][i] == ds[k].name;
    } else {
      assert forall j :: 0 <= j < k ==> names[..k][j] == ds[j].name;
    }
  }

  lemma EntryIsExact(ds: seq<CollectionInfo>, lines: seq<Line>, k: nat)
    requires lines != [] && |ds| == |Creates(lines)| && k < |ds|
    requires forall j :: 0 <= j < |ds| ==> ds[j].name == Creates(lines)[j]
    requires ds[k].rowCount == if ds[k].name in Creates(lines)[..k] then 0 else RowsSinceCreate(lines[..|lines| - 1], ds[k].name)
    ensures var last := lines[|lines| - 1];
            var es := if last.insert.Some? then CountedInto(ds, last.insert.value) else ds;
            && es[k].name == ds[k].name
            && es[k].rowCount == if ds[k].name in Creates(lines)[..k] then 0 else RowsSinceCreate(lines, ds[k].name)
  {
    hide RowsSinceCreate, Creates, FirstEntry;
    RowsSnoc(lines, ds[k].name);
    FirstEntryAmong(ds, Creates(lines), k);
    assert ds[k].name in Creates(lines);
  }

  lemma InsertIsExact(ds: seq<CollectionInfo>, lines: seq<Line>)
    requires lines != [] && |ds| == |Creates(lines)|
    requires forall k :: 0 <= k < |ds| ==> ds[k].name == Creates(lines)[k]
    requires forall k :: 0 <= k < |ds| ==>
               ds[k].rowCount == if ds[k].name in Creates(lines)[..k] then 0 else RowsSinceCreate(lines[..|lines| - 1], ds[k].name)
    ensures var last := lines[|lines| - 1];
            Exact(if last.insert.Some? then CountedInto(ds, last.insert.value) else ds, lines)
  {
    hide RowsSinceCreate, Creates, CountedInto;
    forall k | 0 <= k < |ds|
      ensures var last := lines[|lines| - 1];
              var es := if last.insert.Some? then CountedInto(ds, last.insert.value) else ds;
              && es[k].name == ds[k].name
              && es[k].rowCount == if ds[k].name in Creates(lines)[..k] then 0 else RowsSinceCreate(lines, ds[k].name)
    {
      EntryIsExact(ds, lines, k);
    }
  }

  lemma {:induction false} EntriesAreExact(lines: seq<Line>)
    ensures Exact(ReportOf(lines).collections, lines)
  {
    hide CountedInto, Exact;
    if lines != [] {
      var init, last := lines[..|lines| - 1], lines[|lines| - 1];
      EntriesAreExact(init);
      var cs := ReportOf(init).collections;
      CreateIsExact(cs, lines);
      InsertIsExact(AfterCreate(Report(0, 0, cs, []), last.create).collections, lines);
    } else {
      NothingIsExact();
    }
  }

  lemma NothingIsExact()
    ensures Exact([], [])
  {
  }

  lemma {:induction false} Totals(lines: seq<Line>)
    ensures var r := ReportOf(lines);
            && r.totalRows == Count(lines, AnyInsert)
            && r.structureCount == |r.collections|
            && |r.sampleData| <= 3 * r.structureCount && |r.sampleData| <= r.totalRows
  {
    hide CountedInto;
    if lines != [] {
      Totals(lines[..|lines| - 1]);
    }
  }

  /** The sample an INSERT line gives. */
  predicate SampleOf(line: Line, sample: SampleEntry) {
    line.insert == Some(sample.collection) && sample.data == TruncateString(line.text, 200)
  }

  /**
   The samples are those of the INSERT lines at the positions `at`, in their order, and an INSERT line is
   sampled exactly as long as fewer than three for each CREATE line so far have been.
   */
  predicate SampledAt(lines: seq<Line>, samples: seq<SampleEntry>, at: seq<nat>) {
    && |at| == |samples| && Increasing(at)
    && (forall j :: 0 <= j < |at| ==> at[j] < |lines| && SampleOf(lines[at[j]], samples[j]))
    && (forall i :: 0 <= i < |lines| ==>
          (i in at <==> lines[i].insert.Some? && CountBelow(at, i) < 3 * |Creates(lines[..i + 1])|))
  }

  ghost predicate SampledExactly(lines: seq<Line>, samples: seq<SampleEntry>) {
    exists at :: SampledAt(lines, samples, at)
  }

  /** Line by line, whether there is a row to sample, and how many samples there may be by then. */
  function Wanted(lines: seq<Line>): (w: seq<bool>)
    ensures |w| == |lines|
  {
    if lines == [] then [] else Wanted(lines[..|lines| - 1]) + [lines[|lines| - 1].insert.Some?]
  }

  function Caps(lines: seq<Line>): (c: seq<nat>)
    ensures |c| == |lines|
  {
    if lines == [] then [] else Caps(lines[..|lines| - 1]) + [3 * |Creates(lines)|]
  }

  lemma {:induction false} WantedAt(lines: seq<Line>, i: nat)
    requires i < |lines|
    ensures Wanted(lines)[i] == lines[i].insert.Some? && Caps(lines)[i] == 3 * |Creates(lines[..i + 1])|
  {
    if i < |lines| - 1 {
      WantedAt(lines[..|lines| - 1], i);
      assert lines[..|lines| - 1][..i + 1] == lines[..i + 1];
    } else {
      assert lines[..i + 1] == lines;
    }
  }

  predicate SamplesMatch(lines: seq<Line>, samples: seq<SampleEntry>, at: seq<nat>) {
    && |at| == |samples|
    && forall j :: 0 <= j < |at| ==> at[j] < |lines| && SampleOf(lines[at[j]], samples[j])
  }

  lemma SampleStep(lines: seq<Line>, samples: seq<SampleEntry>, at: seq<nat>)
    requires lines != [] && SamplesMatch(lines[..|lines| - 1], samples, at)
    requires Takes(at, Wanted(lines[..|lines| - 1]), Caps(lines[..|lines| - 1]))
    ensures var last := lines[|lines| - 1];
            var take := last.insert.Some? && |samples| < 3 * |Creates(lines)|;
            && Takes(Taking(at, |lines| - 1, take), Wanted(lines), Caps(lines))
            && SamplesMatch(lines, if take then samples + [SampleEntry(last.insert.value, TruncateString(last.text, 200))] else samples,
                            Taking(at, |lines| - 1, take))
  {
    hide TruncateString, Creates, Takes;
    var init, last := lines[..|lines| - 1], lines[|lines| - 1];
    TakeStep(at, Wanted(init), Caps(init), last.insert.Some?, 3 * |Creates(lines)|);
  }

  lemma TakenIsSampled(lines: seq<Line>, samples: seq<SampleEntry>, at: seq<nat>)
    requires Takes(at, Wanted(lines), Caps(lines)) && SamplesMatch(lines, samples, at)
    ensures SampledAt(lines, samples, at)
  {
    hide CountBelow, Creates, Wanted, Caps, SampleOf;
    forall i | 0 <= i < |lines|
      ensures i in at <==> lines[i].insert.Some? && CountBelow(at, i) < 3 * |Creates(lines[..i + 1])|
    {
      WantedAt(lines, i);
    }
  }

  lemma {:induction false} StructuresAreCreates(lines: seq<Line>)
    ensures ReportOf(lines).structureCount == |Creates(lines)|
  {
    hide CountedInto;
    if lines != [] {
      StructuresAreCreates(lines[..|lines| - 1]);
    }
  }

  lemma {:induction false} SamplesAreTaken(lines: seq<Line>) returns (at: seq<nat>)
    ensures Takes(at, Wanted(lines), Caps(lines)) && SamplesMatch(lines, ReportOf(lines).sampleData, at)
  {
    hide CountedInto, SampleOf, Creates, TruncateString;
    if lines == [] {
      at := [];
    } else {
      var init := lines[..|lines| - 1];
      at := SamplesAreTaken(init);
      StructuresAreCreates(init);
      StructuresAreCreates(lines);
      SampleStep(lines, ReportOf(init).sampleData, at);
      var last := lines[|lines| - 1];
      at := Taking(at, |init|, last.insert.Some? && |ReportOf(init).sampleData| < 3 * |Creates(lines)|);
    }
  }

  /** Which samples a dump gives, of every dump. */
  lemma SamplesAreInserts(lines: seq<Line>)
    ensures SampledExactly(lines, ReportOf(lines).sampleData)
  {
    hide ReportOf, SampledAt;
    var at := SamplesAreTaken(lines);
    TakenIsSampled(lines, ReportOf(lines).sampleData, at);
  }

  /** INSERT lines naming a table with no CREATE line so far. */
  function Orphans(lines: seq<Line>): nat {
    if lines == [] then 0
    else
      var last := lines[|lines| - 1];
      Orphans(lines[..|lines| - 1]) + if last.insert.Some? && last.insert.value !in Creates(lines) then 1 else 0
  }

  function SumRows(cs: seq<CollectionInfo>): nat {
    if cs == [] then 0 else cs[0].rowCount + SumRows(cs[1..])
  }

  lemma {:induction false} SumCounted(cs: seq<CollectionInfo>, name: string)
    ensures SumRows(CountedInto(cs, name)) == SumRows(cs) + if FirstEntry(cs, name) < |cs| then 1 else 0
  {
    if cs != [] && cs[0].name != name {
      SumCounted(cs[1..], name);
      assert CountedInto(cs, name) == [cs[0]] + CountedInto(cs[1..], name);
    } else if cs != [] {
      assert CountedInto(cs, name)[1..] == cs[1..];
    }
  }

  lemma {:induction false} SumAppended(cs: seq<CollectionInfo>, name: string)
    ensures SumRows(cs + [CollectionInfo(name, 0)]) == SumRows(cs)
  {
    if cs != [] {
      SumAppended(cs[1..], name);
      assert (cs + [CollectionInfo(name, 0)])[1..] == cs[1..] + [CollectionInfo(name, 0)];
    }
  }

  lemma EntryExists(cs: seq<CollectionInfo>, lines: seq<Line>, name: string)
    requires |cs| == |Creates(lines)| && forall k :: 0 <= k < |cs| ==> cs[k].name == Creates(lines)[k]
    ensures FirstEntry(cs, name) < |cs| <==> name in Creates(lines)
  {
    hide Creates;
    if name in Creates(lines) {
      var k :| 0 <= k < |cs| && Creates(lines)[k] == name;
    }
  }

  /** No row is lost or counted twice: the entries' counts and the orphans add up to all the INSERT lines. */
  lemma {:induction false} RowsAddUp(lines: seq<Line>)
    ensures SumRows(ReportOf(lines).collections) + Orphans(lines) == ReportOf(lines).totalRows
  {
    hide CountedInto, Creates, Exact;
    if lines != [] {
      var init, last := lines[..|lines| - 1], lines[|lines| - 1];
      RowsAddUp(init);
      EntriesAreExact(init);
      var cs := ReportOf(init).collections;
      CreateIsExact(cs, lines);
      var ds := AfterCreate(Report(0, 0, cs, []), last.create).collections;
      if last.create.Some? {
        SumAppended(cs, last.create.value);
      }
      if last.insert.Some? {
        SumCounted(ds, last.insert.value);
        EntryExists(ds, lines, last.insert.value);
      }
    }
  }
}
