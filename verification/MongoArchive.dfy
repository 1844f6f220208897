/** The archive scanner: frames found in untrusted bytes, and the report counted from them. */
module MongoArchive {
  import opened Text
  import opened Timestamps
  import opened Bson
  import opened Positions

  const MAX_DOCUMENT := 16 * 1024 * 1024
  const DOT: Byte := 46
  /** "ns" and "_id". */
  const NS: Bytes := [110, 115]
  const ID: Bytes := [95, 105, 100]

  // ---------------------------------------------------------------- what the scanner sees in a document

  /** A text of our own making as bytes. */
  function Ascii(s: string): (b: Bytes)
    ensures |b| == |s| && (DOT in b ==> '.' in s)
  {
    seq(|s|, i requires 0 <= i < |s| => if s[i] as int < 256 then s[i] as int else 0)
  }

  function HexDigit(n: nat): char
    requires n < 16
  {
    "0123456789abcdef"[n]
  }

  function Hex(id: Bytes): (s: string)
    ensures '.' !in s
  {
    if id == [] then "" else [HexDigit(id[0] / 16), HexDigit(id[0] % 16)] + Hex(id[1..])
  }

  /** The values the reader keeps as Go strings: not only strings, but printed object IDs and datetimes. */
  function GoString(v: Value, zone: int -> int): Option<Bytes> {
    match v
    case Str(s) => Some(s)
    case ObjectId(id) => Some(Ascii("ObjectId(\"" + Hex(id) + "\")"))
    case DateTime(second) => Some(Ascii(Rfc3339Text(Time(second * NANOS_PER_SECOND, zone(second)))))
    case _ => None
  }

  /** strings.SplitN(s, ".", 2)[1]: what follows the first dot. */
  function AfterDot(s: Bytes): (r: Option<Bytes>)
    ensures r.Some? <==> DOT in s
    ensures r.Some? ==>
              var d := |s| - |r.value| - 1;
              0 <= d && s[d] == DOT && DOT !in s[..d] && s[d + 1..] == r.value
  {
    if s == [] then None else if s[0] == DOT then Some(s[1..]) else AfterDot(s[1..])
  }

  /** The collection a document announces, if it is a metadata document. */
  function CollectionName(doc: Document, zone: int -> int): Option<Bytes> {
    if NS !in doc then None
    else
      match GoString(doc[NS], zone)
      case None => None
      case Some(s) => AfterDot(s)
  }

  /** All of a parsed document that counts: the collection it announces, and whether it has an `_id`. */
  datatype Event = Event(name: Option<Bytes>, hasID: bool)

  function EventOf(doc: Document, zone: int -> int): Event {
    Event(CollectionName(doc, zone), ID in doc)
  }

  lemma HexDotFree(id: Bytes)
    ensures '.' !in "ObjectId(\"" + Hex(id) + "\")"
  {
    var open, close := "ObjectId(\"", "\")";
    assert '.' !in open && '.' !in close;
  }

  lemma NoDot(s: string)
    requires AllDigits(s)
    ensures '.' !in s
  {
  }

  lemma DateDotFree(d: Calendar.Date)
    ensures '.' !in DateText(d, '-')
  {
    NoDot(PadMin(if d.year < 0 then -d.year else d.year, 4));
    NoDot(Pad(d.month, 2));
    NoDot(Pad(d.day, 2));
  }

  lemma ClockDotFree(second: nat)
    ensures '.' !in ClockText(second)
  {
    NoDot(Pad(second / 3600, 2));
    NoDot(Pad(second / 60 % 60, 2));
    NoDot(Pad(second % 60, 2));
  }

  lemma OffsetDotFree(offset: int)
    ensures '.' !in OffsetText(offset)
  {
    var minutes := if offset < 0 then -offset else offset;
    NoDot(PadMin(minutes / 60, 2));
    NoDot(Pad(minutes % 60, 2));
  }

  lemma WholeSecondDotFree(second: int, offset: int)
    ensures '.' !in Rfc3339Text(Time(second * NANOS_PER_SECOND, offset))
  {
    hide DateText, ClockText, OffsetText, LocalDate, SecondOfDay;
    var t := Time(second * NANOS_PER_SECOND, offset);
    DateDotFree(LocalDate(t));
    ClockDotFree(SecondOfDay(t));
    OffsetDotFree(offset);
    assert Nanosecond(t) == 0;
  }

  /** Only a string field can announce a collection, though other types are kept as strings too. */
  lemma OnlyStringsAnnounce(doc: Document, zone: int -> int)
    ensures CollectionName(doc, zone) == if NS in doc && doc[NS].Str? then AfterDot(doc[NS].bytes) else None
  {
    hide Rfc3339Text, Hex;
    if NS in doc {
      match doc[NS]
      case ObjectId(id) => HexDotFree(id);
      case DateTime(second) => WholeSecondDotFree(second, zone(second));
      case _ =>
    }
  }

  // ---------------------------------------------------------------- the report

  datatype CollectionInfo = CollectionInfo(name: Bytes, rowCount: nat)

  /** Of each sample only its collection: its text depends on Go's map order. */
  datatype Report = Report(structureCount: nat, totalRows: nat, collections: seq<CollectionInfo>, samples: seq<Bytes>)

  const EMPTY := Report(0, 0, [], [])

  predicate Listed(cs: seq<CollectionInfo>, name: Bytes) {
    exists i :: 0 <= i < |cs| && cs[i].name == name
  }

  function Announce(r: Report, name: Option<Bytes>): Report {
    if name.None? || Listed(r.collections, name.value) then r
    else r.(structureCount := r.structureCount + 1, collections := r.collections + [CollectionInfo(name.value, 0)])
  }

  function Bump(cs: seq<CollectionInfo>): (b: seq<CollectionInfo>)
    ensures |b| == |cs|
  {
    if cs == [] then [] else cs[|cs| - 1 := cs[|cs| - 1].(rowCount := cs[|cs| - 1].rowCount + 1)]
  }

  function CountRow(r: Report): Report {
    var cs := Bump(r.collections);
    Report(r.structureCount, r.totalRows + 1, cs,
           if |r.samples| < 3 * |cs| then r.samples + [cs[|cs| - 1].name] else r.samples)
  }

  function Observe(r: Report, e: Event): Report {
    var s := Announce(r, e.name);
    if e.hasID then CountRow(s) else s
  }

  function ReportOf(events: seq<Event>): Report {
    if events == [] then EMPTY else Observe(ReportOf(events[..|events| - 1]), events[|events| - 1])
  }

  // ---------------------------------------------------------------- frames

  datatype Frame = Frame(start: nat, length: nat)

  /** The scanner's frames from `off` on: a length it cannot believe moves it on by one byte. */
  function Frames(data: Bytes, off: nat): seq<Frame>
    requires off <= |data|
    decreases |data| - off
  {
    if off + 4 >= |data| then []
    else
      var n := U32At(data, off);
      if n == 0 || n > MAX_DOCUMENT || off + n > |data| then Frames(data, off + 1)
      else [Frame(off, n)] + Frames(data, off + n)
  }

  /** A length as the scanner accepts it. */
  predicate Believable(data: Bytes, off: nat, n: nat) {
    0 < n <= MAX_DOCUMENT && off + n <= |data|
  }

  predicate Inside(data: Bytes, frames: seq<Frame>) {
    forall f :: f in frames ==> 0 < f.length <= 16777216 && f.start + f.length <= |data|
  }

  /** Every accepted frame lies in the data, and they follow one another without overlapping. */
  lemma {:induction false} FramesAreDisjoint(data: Bytes, off: nat)
    requires off <= |data|
    ensures var fs := Frames(data, off);
            && Inside(data, fs)
            && (forall i :: 0 <= i < |fs| ==> off <= fs[i].start && fs[i].start + 4 < |data| && fs[i].length == U32At(data, fs[i].start))
            && (forall i, j :: 0 <= i < j < |fs| ==> fs[i].start + fs[i].length <= fs[j].start)
    decreases |data| - off
  {
    hide U32At;
    if off + 4 < |data| {
      var n := U32At(data, off);
      if n == 0 || n > MAX_DOCUMENT || off + n > |data| {
        FramesAreDisjoint(data, off + 1);
      } else {
        FramesAreDisjoint(data, off + n);
      }
    }
  }

  predicate Covered(frames: seq<Frame>, i: nat) {
    exists f :: f in frames && f.start <= i < f.start + f.length
  }

  /** No frame is missed: wherever the data could start a document, a frame does start or is not yet over. */
  lemma {:induction false} FramesMissNothing(data: Bytes, off: nat, i: nat)
    requires off <= i && i + 4 < |data| && 0 < U32At(data, i) <= 16777216 && i + U32At(data, i) <= |data|
    ensures Covered(Frames(data, off), i)
    decreases |data| - off
  {
    hide U32At;
    var n := U32At(data, off);
    if !Believable(data, off, n) {
      FramesMissNothing(data, off + 1, i);
    } else {
      assert Frames(data, off)[0] == Frame(off, n);
      if off + n <= i {
        FramesMissNothing(data, off + n, i);
        var f :| f in Frames(data, off + n) && f.start <= i < f.start + f.length;
        assert f in Frames(data, off);
      } else {
        assert Frame(off, n) in Frames(data, off);
      }
    }
  }

  function Slice(data: Bytes, f: Frame): Bytes {
    if f.start + f.length <= |data| then data[f.start..f.start + f.length] else []
  }

  function Slices(data: Bytes, frames: seq<Frame>): (s: seq<Bytes>)
    ensures |s| == |frames|
  {
    if frames == [] then [] else Slices(data, frames[..|frames| - 1]) + [Slice(data, frames[|frames| - 1])]
  }

  /** The documents among the framed bytes, as events; frames too short to parse are passed over. */
  function Events(docs: seq<Bytes>, zone: int -> int): seq<Event> {
    if docs == [] then []
    else
      Events(docs[..|docs| - 1], zone)
      + match Parse(docs[|docs| - 1])
        case None => []
        case Some(doc) => [EventOf(doc, zone)]
  }

  lemma {:induction false} ParsableAreEvents(docs: seq<Bytes>, zone: int -> int)
    ensures |Events(docs, zone)| == Parsable(docs)
  {
    hide ParseFrom, EventOf;
    if docs != [] {
      ParsableAreEvents(docs[..|docs| - 1], zone);
      ParseFailsExactly(docs[|docs| - 1]);
    }
  }

  /** Framed bytes that are long enough to be a document; the others count for nothing. */
  function Parsable(docs: seq<Bytes>): nat {
    if docs == [] then 0 else Parsable(docs[..|docs| - 1]) + if |docs[|docs| - 1]| >= 5 then 1 else 0
  }

  // ---------------------------------------------------------------- the scanner

  /** The map beside the slice: the same names, each with the same count. */
  predicate Agree(cs: seq<CollectionInfo>, index: map<Bytes, nat>) {
    && (forall i, j :: 0 <= i < j < |cs| ==> cs[i].name != cs[j].name)
    && (forall i :: 0 <= i < |cs| ==> cs[i].name in index && index[cs[i].name] == cs[i].rowCount)
    && (forall n :: n in index ==> Listed(cs, n))
  }

  lemma AnnounceAgrees(r: Report, name: Bytes, index: map<Bytes, nat>)
    requires Agree(r.collections, index)
    ensures Listed(r.collections, name) <==> name in index
    ensures name !in index ==> Agree(Announce(r, Some(name)).collections, index[name := 0])
  {
    if name !in index {
      var cs := Announce(r, Some(name)).collections;
      forall n | n in index[name := 0]
        ensures Listed(cs, n)
      {
        if n == name {
          assert cs[|cs| - 1].name == n;
        } else {
          var i :| 0 <= i < |r.collections| && r.collections[i].name == n;
          assert cs[i].name == n;
        }
      }
    }
  }

  lemma BumpAgrees(cs: seq<CollectionInfo>, index: map<Bytes, nat>)
    requires Agree(cs, index) && cs != []
    ensures var last := cs[|cs| - 1].name;
            last in index && Agree(Bump(cs), index[last := index[last] + 1])
  {
    var b, last := Bump(cs), cs[|cs| - 1].name;
    forall n | n in index[last := index[last] + 1]
      ensures Listed(b, n)
    {
      var i :| 0 <= i < |cs| && cs[i].name == n;
      assert b[i].name == n;
    }
  }

  lemma SlicesSnoc(data: Bytes, frames: seq<Frame>, f: Frame)
    ensures Slices(data, frames + [f]) == Slices(data, frames) + [Slice(data, f)]
  {
    assert (frames + [f])[..|frames|] == frames;
  }

  lemma EventsSnoc(docs: seq<Bytes>, d: Bytes, zone: int -> int)
    ensures Parse(d).None? ==> Events(docs + [d], zone) == Events(docs, zone)
    ensures Parse(d).Some? ==> Events(docs + [d], zone) == Events(docs, zone) + [EventOf(Parse(d).value, zone)]
  {
    assert (docs + [d])[..|docs|] == docs;
  }

  lemma ReportSnoc(events: seq<Event>, e: Event)
    ensures ReportOf(events + [e]) == Observe(ReportOf(events), e)
  {
    assert (events + [e])[..|events|] == events;
  }

  /** One more framed document. */
  lemma FrameCounts(data: Bytes, frames: seq<Frame>, f: Frame, zone: int -> int)
    ensures var before, d := Events(Slices(data, frames), zone), Slice(data, f);
            ReportOf(Events(Slices(data, frames + [f]), zone))
            == match Parse(d)
               case None => ReportOf(before)
               case Some(doc) => Observe(ReportOf(before), EventOf(doc, zone))
  {
    hide Parse, EventOf, Observe, Slice;
    SlicesSnoc(data, frames, f);
    EventsSnoc(Slices(data, frames), Slice(data, f), zone);
    if Parse(Slice(data, f)).Some? {
      ReportSnoc(Events(Slices(data, frames), zone), EventOf(Parse(Slice(data, f)).value, zone));
    }
  }

  /** The body of the scan loop for one parsed document: the report, and the map that must follow it. */
  method ObserveDocument(doc: Document, zone: int -> int, before: Report, index: map<Bytes, nat>)
    returns (report: Report, collections: map<Bytes, nat>)
    requires Agree(before.collections, index)
    ensures report == Observe(before, EventOf(doc, zone))
    ensures Agree(report.collections, collections)
  {
    hide GoString, AfterDot;
    report, collections := before, index;
    if NS in doc {
      var ns := GoString(doc[NS], zone);
      if ns.Some? {
        var collName := AfterDot(ns.value);
        if collName.Some? {
          AnnounceAgrees(report, collName.value, collections);
          if collName.value !in collections {
            collections := collections[collName.value := 0];
            report := report.(structureCount := report.structureCount + 1,
                              collections := report.collections + [CollectionInfo(collName.value, 0)]);
          }
        }
      }
    }
    assert report == Announce(before, CollectionName(doc, zone));
    if ID in doc {
      report, collections := CountDocument(report, collections);
    }
  }

  /** A document with an `_id`: the lookup in the map never misses. */
  method CountDocument(before: Report, index: map<Bytes, nat>) returns (report: Report, collections: map<Bytes, nat>)
    requires Agree(before.collections, index)
    ensures report == CountRow(before)
    ensures Agree(report.collections, collections)
  {
    report, collections := before.(totalRows := before.totalRows + 1), index;
    if |report.collections| > 0 {
      var last := |report.collections| - 1;
      BumpAgrees(report.collections, collections);
      var info := report.collections[last];
      report := report.(collections := report.collections[last := info.(rowCount := info.rowCount + 1)]);
      collections := collections[info.name := collections[info.name] + 1];
    }
    if |report.samples| < 3 * |report.collections| {
      if |report.collections| > 0 {
        report := report.(samples := report.samples + [report.collections[|report.collections| - 1].name]);
      }
    }
  }

  /** The scan so far, and what is left of it. */
  predicate Scanned(data: Bytes, seen: seq<Frame>, off: nat)
    requires off <= |data|
  {
    seen + Frames(data, off) == Frames(data, 0)
  }

  lemma FrameTaken(data: Bytes, seen: seq<Frame>, off: nat, n: nat)
    requires off + 4 < |data| && n == U32At(data, off) && Believable(data, off, n) && Scanned(data, seen, off)
    ensures Scanned(data, seen + [Frame(off, n)], off + n)
  {
    hide U32At;
    var rest := Frames(data, off + n);
    assert Frames(data, off) == [Frame(off, n)] + rest;
    assert seen + ([Frame(off, n)] + rest) == (seen + [Frame(off, n)]) + rest;
  }

  lemma ByteSkipped(data: Bytes, seen: seq<Frame>, off: nat)
    requires off + 4 < |data| && !Believable(data, off, U32At(data, off)) && Scanned(data, seen, off)
    ensures Scanned(data, seen, off + 1)
  {
    hide U32At;
    assert Frames(data, off) == Frames(data, off + 1);
  }

  lemma ScanEnds(data: Bytes, seen: seq<Frame>, off: nat)
    requires off <= |data| <= off + 4 && Scanned(data, seen, off)
    ensures seen == Frames(data, 0)
  {
    hide U32At;
    assert Frames(data, off) == [];
  }

  lemma SliceIs(data: Bytes, f: Frame)
    requires f.start + f.length <= |data|
    ensures Slice(data, f) == data[f.start..f.start + f.length]
  {
  }

  lemma ScanStep(data: Bytes, seen: seq<Frame>, off: nat)
    requires off <= |data| && Scanned(data, seen, off)
    ensures off + 4 >= |data| ==> seen == Frames(data, 0)
    ensures off + 4 < |data| && !Believable(data, off, U32At(data, off)) ==> Scanned(data, seen, off + 1)
    ensures off + 4 < |data| && Believable(data, off, U32At(data, off)) ==>
              var n := U32At(data, off);
              Scanned(data, seen + [Frame(off, n)], off + n) && Slice(data, Frame(off, n)) == data[off..off + n]
  {
    hide U32At, Slice, Frames, Scanned;
    if off + 4 >= |data| {
      ScanEnds(data, seen, off);
    } else if Believable(data, off, U32At(data, off)) {
      FrameTaken(data, seen, off, U32At(data, off));
      SliceIs(data, Frame(off, U32At(data, off)));
    } else {
      ByteSkipped(data, seen, off);
    }
  }

  /** verifyMongoArchive, on all the bytes there are. */
  method VerifyMongoArchive(data: Bytes, readable: bool, zone: int -> int) returns (r: Option<Report>)
    ensures r == if readable then Some(ReportOf(Events(Slices(data, Frames(data, 0)), zone))) else None
  {
    hide Parse, ReportOf, Events, Slices, Slice, U32At, EventOf, Observe, Agree, Scanned, Frames;
    if !readable {
      return None;
    }
    var report := EMPTY;
    var collections: map<Bytes, nat> := map[];
    var offset := 0;
    ghost var seen: seq<Frame> := [];
    NothingSeen(data, zone);
    while offset < |data| - 4
      invariant 0 <= offset <= |data|
      invariant Scanned(data, seen, offset)
      invariant report == ReportOf(Events(Slices(data, seen), zone))
      invariant Agree(report.collections, collections)
    {
      ScanStep(data, seen, offset);
      var docLen := U32At(data, offset);
      if docLen <= 0 || docLen > MAX_DOCUMENT || offset + docLen > |data| {
        offset := offset + 1;
        continue;
      }
      var docData := data[offset..offset + docLen];
      FrameCounts(data, seen, Frame(offset, docLen), zone);
      var doc := ParseBSONDocument(docData);
      if doc.Some? {
        report, collections := ObserveDocument(doc.value, zone, report, collections);
      }
      seen := seen + [Frame(offset, docLen)];
      offset := offset + docLen;
    }
    ScanStep(data, seen, offset);
    return Some(report);
  }

  lemma NothingSeen(data: Bytes, zone: int -> int)
    ensures ReportOf(Events(Slices(data, []), zone)) == EMPTY && Agree([], map[]) && Scanned(data, [], 0)
  {
    assert [] + Frames(data, 0) == Frames(data, 0);
  }

  // ---------------------------------------------------------------- what the report says

  /** The collections announced, each once, in the order of their first announcement. */
  function Names(events: seq<Event>): seq<Bytes> {
    if events == [] then []
    else
      var names, name := Names(events[..|events| - 1]), events[|events| - 1].name;
      if name.Some? && name.value !in names then names + [name.value] else names
  }

  function CountIDs(events: seq<Event>): nat {
    if events == [] then 0
    else CountIDs(events[..|events| - 1]) + if events[|events| - 1].hasID then 1 else 0
  }

  /** The collection announced last of all the new ones. */
  predicate IsCurrent(names: seq<Bytes>, name: Bytes) {
    names != [] && names[|names| - 1] == name
  }

  /** The `_id` documents seen while `name` was the newest collection. */
  function RowsWithin(events: seq<Event>, name: Bytes): nat {
    if events == [] then 0
    else RowsWithin(events[..|events| - 1], name) + if events[|events| - 1].hasID && IsCurrent(Names(events), name) then 1 else 0
  }

  /** The `_id` documents seen before any collection. */
  function EarlyRows(events: seq<Event>): nat {
    if events == [] then 0
    else EarlyRows(events[..|events| - 1]) + if events[|events| - 1].hasID && Names(events) == [] then 1 else 0
  }

  function SumRows(cs: seq<CollectionInfo>): nat {
    if cs == [] then 0 else SumRows(cs[..|cs| - 1]) + cs[|cs| - 1].rowCount
  }

  /** The report's collections are exactly these names. */
  predicate NamedBy(cs: seq<CollectionInfo>, names: seq<Bytes>) {
    |cs| == |names| && forall i :: 0 <= i < |cs| ==> cs[i].name == names[i]
  }

  lemma ListedIsMember(cs: seq<CollectionInfo>, names: seq<Bytes>, name: Bytes)
    requires NamedBy(cs, names)
    ensures Listed(cs, name) <==> name in names
  {
    if name in names {
      var i :| 0 <= i < |names| && names[i] == name;
      assert cs[i].name == name;
    }
  }

  lemma {:induction false} ReportTotals(events: seq<Event>)
    ensures var r := ReportOf(events);
            && r.totalRows == CountIDs(events)
            && r.structureCount == |r.collections|
            && NamedBy(r.collections, Names(events))
  {
    hide Listed;
    if events != [] {
      var init, e := events[..|events| - 1], events[|events| - 1];
      ReportTotals(init);
      if e.name.Some? {
        ListedIsMember(ReportOf(init).collections, Names(init), e.name.value);
      }
    }
  }

  /** Every announced name once, and no other: the structure count is the number of distinct collections. */
  lemma {:induction false} NamesAreDistinct(events: seq<Event>)
    ensures var names := Names(events);
            && (forall i, j :: 0 <= i < j < |names| ==> names[i] != names[j])
            && (forall n :: n in names <==> exists e :: e in events && e.name == Some(n))
  {
    if events != [] {
      var init, e := events[..|events| - 1], events[|events| - 1];
      NamesAreDistinct(init);
      assert events == init + [e];
    }
  }

  lemma {:induction false} DistinctCount(names: seq<Bytes>)
    requires forall i, j :: 0 <= i < j < |names| ==> names[i] != names[j]
    ensures |set n | n in names| == |names|
  {
    if names != [] {
      var init, last := names[..|names| - 1], names[|names| - 1];
      DistinctCount(init);
      assert names == init + [last];
      assert (set n | n in names) == (set n | n in init) + {last};
    }
  }

  lemma {:induction false} NoRowsElsewhere(events: seq<Event>, name: Bytes)
    requires name !in Names(events)
    ensures RowsWithin(events, name) == 0
  {
    if events != [] {
      NoRowsElsewhere(events[..|events| - 1], name);
    }
  }

  /** Each collection's row count is the number of `_id` documents seen while it was the newest one. */
  lemma {:induction false} RowCounts(events: seq<Event>)
    ensures var r := ReportOf(events);
            && NamedBy(r.collections, Names(events))
            && forall i :: 0 <= i < |r.collections| ==> r.collections[i].rowCount == RowsWithin(events, r.collections[i].name)
  {
    hide Listed, CountIDs;
    ReportTotals(events);
    if events != [] {
      var init, e := events[..|events| - 1], events[|events| - 1];
      RowCounts(init);
      var s := Announce(ReportOf(init), e.name);
      assert NamedBy(s.collections, Names(events)) by {
        if e.name.Some? {
          ListedIsMember(ReportOf(init).collections, Names(init), e.name.value);
        }
      }
      NamesAreDistinct(events);
      forall i | 0 <= i < |s.collections|
        ensures s.collections[i].rowCount == RowsWithin(init, s.collections[i].name)
      {
        if s.collections[i].name !in Names(init) {
          NoRowsElsewhere(init, s.collections[i].name);
        }
      }
    }
  }

  lemma SumBump(cs: seq<CollectionInfo>)
    requires cs != []
    ensures SumRows(Bump(cs)) == SumRows(cs) + 1
  {
    assert Bump(cs)[..|cs| - 1] == cs[..|cs| - 1];
  }

  lemma SumSnoc(cs: seq<CollectionInfo>, c: CollectionInfo)
    ensures SumRows(cs + [c]) == SumRows(cs) + c.rowCount
  {
    assert (cs + [c])[..|cs|] == cs;
  }

  /** The row counts add up to all the rows but those seen before the first collection. */
  lemma {:induction false} RowsAddUp(events: seq<Event>)
    ensures SumRows(ReportOf(events).collections) + EarlyRows(events) == ReportOf(events).totalRows
  {
    hide Listed, CountIDs;
    if events != [] {
      var init, e := events[..|events| - 1], events[|events| - 1];
      RowsAddUp(init);
      ReportTotals(events);
      var r := ReportOf(init);
      var s := Announce(r, e.name);
      if s != r {
        SumSnoc(r.collections, CollectionInfo(e.name.value, 0));
      }
      if s.collections != [] {
        SumBump(s.collections);
      }
    }
  }

  /** At most three samples a collection, and none without a row. */
  lemma {:induction false} SamplesAreBounded(events: seq<Event>)
    ensures var r := ReportOf(events); |r.samples| <= 3 * r.structureCount && |r.samples| <= r.totalRows
  {
    hide Listed, CountIDs, Names;
    ReportTotals(events);
    if events != [] {
      SamplesAreBounded(events[..|events| - 1]);
      ReportTotals(events[..|events| - 1]);
    }
  }

  /** Each sample is filed under a collection that is listed. */
  lemma {:induction false} SamplesAreListed(events: seq<Event>)
    ensures forall n :: n in ReportOf(events).samples ==> n in Names(events)
  {
    hide Listed;
    ReportTotals(events);
    if events != [] {
      var init := events[..|events| - 1];
      SamplesAreListed(init);
      NamesAreDistinct(init);
      NamesAreDistinct(events);
      var s := Announce(ReportOf(init), events[|events| - 1].name);
      assert s.samples == ReportOf(init).samples;
      assert forall n :: n in Names(init) ==> n in Names(events);
    }
  }

  /** The newest collection. */
  function Current(events: seq<Event>): Option<Bytes> {
    var names := Names(events);
    if names == [] then None else Some(names[|names| - 1])
  }

  /**
   The samples are those of the `_id` documents at the positions `at`, in their order, each filed under the
   collection that was newest then; and such a document is sampled exactly as long as fewer than three for
   each collection so far have been.
   */
  predicate SampledAt(events: seq<Event>, samples: seq<Bytes>, at: seq<nat>) {
    && |at| == |samples| && Increasing(at)
    && (forall j :: 0 <= j < |at| ==> at[j] < |events| && Current(events[..at[j] + 1]) == Some(samples[j]))
    && (forall i :: 0 <= i < |events| ==> (i in at <==> events[i].hasID && CountBelow(at, i) < 3 * |Names(events[..i + 1])|))
  }

  ghost predicate SampledExactly(events: seq<Event>, samples: seq<Bytes>) {
    exists at :: SampledAt(events, samples, at)
  }

  /** Document by document, whether there is a row to sample, and how many samples there may be by then. */
  function WantedRows(events: seq<Event>): (w: seq<bool>)
    ensures |w| == |events|
  {
    if events == [] then [] else WantedRows(events[..|events| - 1]) + [events[|events| - 1].hasID]
  }

  function SampleCaps(events: seq<Event>): (c: seq<nat>)
    ensures |c| == |events|
  {
    if events == [] then [] else SampleCaps(events[..|events| - 1]) + [3 * |Names(events)|]
  }

  lemma {:induction false} WantedAt(events: seq<Event>, i: nat)
    requires i < |events|
    ensures WantedRows(events)[i] == events[i].hasID && SampleCaps(events)[i] == 3 * |Names(events[..i + 1])|
  {
    if i < |events| - 1 {
      WantedAt(events[..|events| - 1], i);
      assert events[..|events| - 1][..i + 1] == events[..i + 1];
    } else {
      assert events[..i + 1] == events;
    }
  }

  predicate SamplesMatch(events: seq<Event>, samples: seq<Bytes>, at: seq<nat>) {
    && |at| == |samples|
    && forall j :: 0 <= j < |at| ==> at[j] < |events| && Current(events[..at[j] + 1]) == Some(samples[j])
  }

  lemma MatchesLonger(events: seq<Event>, samples: seq<Bytes>, at: seq<nat>)
    requires events != [] && SamplesMatch(events[..|events| - 1], samples, at)
    ensures SamplesMatch(events, samples, at)
  {
    hide Current;
    var init := events[..|events| - 1];
    forall j | 0 <= j < |at|
      ensures Current(events[..at[j] + 1]) == Some(samples[j])
    {
      assert events[..at[j] + 1] == init[..at[j] + 1];
    }
  }

  lemma MatchesSnoc(events: seq<Event>, samples: seq<Bytes>, at: seq<nat>, name: Bytes)
    requires events != [] && SamplesMatch(events, samples, at) && Current(events) == Some(name)
    ensures SamplesMatch(events, samples + [name], at + [|events| - 1])
  {
    hide Current;
    assert events[..|events|] == events;
  }

  lemma CurrentIsNamed(events: seq<Event>)
    ensures Current(events).Some? <==> |Names(events)| > 0
  {
  }

  lemma SampleStep(events: seq<Event>, samples: seq<Bytes>, at: seq<nat>)
    requires events != [] && SamplesMatch(events[..|events| - 1], samples, at)
    requires Takes(at, WantedRows(events[..|events| - 1]), SampleCaps(events[..|events| - 1]))
    ensures var take := events[|events| - 1].hasID && |samples| < 3 * |Names(events)|;
            && Takes(Taking(at, |events| - 1, take), WantedRows(events), SampleCaps(events))
            && (take ==> Current(events).Some?)
            && SamplesMatch(events, if take then samples + [Current(events).value] else samples, Taking(at, |events| - 1, take))
  {
    hide Names, Takes, SamplesMatch, Current;
    var init := events[..|events| - 1];
    TakeStep(at, WantedRows(init), SampleCaps(init), events[|events| - 1].hasID, 3 * |Names(events)|);
    MatchesLonger(events, samples, at);
    CurrentIsNamed(events);
    SampleCount(events, samples, at);
    if |Names(events)| > 0 {
      MatchesSnoc(events, samples, at, Current(events).value);
    }
  }

  lemma SampleCount(events: seq<Event>, samples: seq<Bytes>, at: seq<nat>)
    requires SamplesMatch(events, samples, at)
    ensures |at| == |samples|
  {
    hide Current;
  }

  lemma TakenIsSampled(events: seq<Event>, samples: seq<Bytes>, at: seq<nat>)
    requires Takes(at, WantedRows(events), SampleCaps(events)) && SamplesMatch(events, samples, at)
    ensures SampledAt(events, samples, at)
  {
    hide CountBelow, Names, Current, WantedRows, SampleCaps;
    forall i | 0 <= i < |events|
      ensures i in at <==> events[i].hasID && CountBelow(at, i) < 3 * |Names(events[..i + 1])|
    {
      WantedAt(events, i);
    }
  }

  lemma {:induction false} SamplesAreTaken(events: seq<Event>) returns (at: seq<nat>)
    ensures Takes(at, WantedRows(events), SampleCaps(events)) && SamplesMatch(events, ReportOf(events).samples, at)
  {
    hide Names, Listed;
    if events == [] {
      at := [];
    } else {
      var init, e := events[..|events| - 1], events[|events| - 1];
      at := SamplesAreTaken(init);
      ReportTotals(events);
      var r := ReportOf(init);
      SampleStep(events, r.samples, at);
      assert Announce(r, e.name).samples == r.samples;
      at := Taking(at, |init|, e.hasID && |r.samples| < 3 * |Names(events)|);
    }
  }

  /** Which samples an archive gives, and whose they are. */
  lemma SamplesAreExact(events: seq<Event>)
    ensures SampledExactly(events, ReportOf(events).samples)
  {
    hide ReportOf, SampledAt;
    var at := SamplesAreTaken(events);
    TakenIsSampled(events, ReportOf(events).samples, at);
  }

  /** All of the above, of any bytes at all. */
  lemma ArchiveReport(data: Bytes, zone: int -> int)
    ensures var events := Events(Slices(data, Frames(data, 0)), zone);
            var r := ReportOf(events);
            && r.totalRows == CountIDs(events)
            && r.structureCount == |r.collections| == |set n | n in Names(events)|
            && (forall n :: n in Names(events) <==> exists e :: e in events && e.name == Some(n))
            && NamedBy(r.collections, Names(events))
            && (forall i :: 0 <= i < |r.collections| ==> r.collections[i].rowCount == RowsWithin(events, r.collections[i].name))
            && SumRows(r.collections) == r.totalRows - EarlyRows(events)
            && |r.samples| <= 3 * r.structureCount && SampledExactly(events, r.samples)
  {
    hide Events, Slices, Frames, ReportOf, Names, RowsWithin, CountIDs;
    var events := Events(Slices(data, Frames(data, 0)), zone);
    ReportTotals(events);
    NamesAreDistinct(events);
    DistinctCount(Names(events));
    RowCounts(events);
    RowsAddUp(events);
    SamplesAreBounded(events);
    SamplesAreExact(events);
  }

  // ---------------------------------------------------------------- whose rows

  /** The collection the last metadata document named, new or not. */
  function Section(events: seq<Event>): Option<Bytes> {
    if events == [] then None
    else if events[|events| - 1].name.Some? then events[|events| - 1].name
    else Section(events[..|events| - 1])
  }

  /** A metadata document that goes back to a collection announced before the newest. */
  predicate Reopens(events: seq<Event>, i: nat)
    requires i < |events|
  {
    events[i].name.Some? && events[i].name.value in Names(events[..i]) && events[i].name != Current(events[..i])
  }

  /** The newest collection is the one whose section it is throughout exactly when no section goes back. */
  lemma {:induction false} SectionsFollowNames(events: seq<Event>)
    ensures (forall k :: 0 <= k <= |events| ==> Current(events[..k]) == Section(events[..k]))
       <==> (forall i :: 0 <= i < |events| ==> !Reopens(events, i))
  {
    if events != [] {
      var init := events[..|events| - 1];
      SectionsFollowNames(init);
      assert forall k :: 0 <= k < |events| ==> init[..k] == events[..k];
      assert events[..|events|] == events;
      assert forall i :: 0 <= i < |init| ==> (Reopens(events, i) <==> Reopens(init, i));
      LastSection(events);
    } else {
      assert events[..0] == [];
    }
  }

  lemma LastSection(events: seq<Event>)
    requires events != []
    ensures var init := events[..|events| - 1];
            Current(init) == Section(init) ==> (Current(events) == Section(events) <==> !Reopens(events, |events| - 1))
  {
  }

  /** The `_id` documents in the sections of `name`: the rows that collection really has. */
  function RowsInSection(events: seq<Event>, name: Bytes): nat {
    if events == [] then 0
    else RowsInSection(events[..|events| - 1], name) + if events[|events| - 1].hasID && Section(events) == Some(name) then 1 else 0
  }

  /** An `_id` document in the section of another collection than the newest. */
  predicate Miscredited(events: seq<Event>, i: nat)
    requires i < |events|
  {
    events[i].hasID && Section(events[..i + 1]) != Current(events[..i + 1])
  }

  predicate MiscreditedTo(events: seq<Event>, i: nat, name: Bytes)
    requires i < |events|
  {
    Miscredited(events, i) && Current(events[..i + 1]) == Some(name)
  }

  predicate MiscreditedFrom(events: seq<Event>, i: nat, name: Bytes)
    requires i < |events|
  {
    Miscredited(events, i) && Section(events[..i + 1]) == Some(name)
  }

  lemma PrefixOfInit(events: seq<Event>)
    requires events != []
    ensures forall k :: 0 <= k < |events| ==> events[..|events| - 1][..k] == events[..k]
    ensures events[..|events|] == events
  {
  }

  lemma MiscreditsOfInit(events: seq<Event>, name: Bytes)
    requires events != []
    ensures var init := events[..|events| - 1];
            forall i :: 0 <= i < |init| ==>
              && (Miscredited(init, i) <==> Miscredited(events, i))
              && (MiscreditedTo(init, i, name) <==> MiscreditedTo(events, i, name))
              && (MiscreditedFrom(init, i, name) <==> MiscreditedFrom(events, i, name))
  {
    PrefixOfInit(events);
  }

  /** A collection that is credited with no other's rows has at most its own, and fewer if it loses one. */
  lemma {:induction false} CreditsOfOne(events: seq<Event>, name: Bytes)
    requires forall i :: 0 <= i < |events| ==> !MiscreditedTo(events, i, name)
    ensures RowsWithin(events, name) <= RowsInSection(events, name)
    ensures (exists i :: 0 <= i < |events| && MiscreditedFrom(events, i, name)) ==> RowsWithin(events, name) < RowsInSection(events, name)
    ensures (forall i :: 0 <= i < |events| ==> !MiscreditedFrom(events, i, name)) ==> RowsWithin(events, name) == RowsInSection(events, name)
  {
    hide Names, Section;
    if events != [] {
      var init, last := events[..|events| - 1], |events| - 1;
      PrefixOfInit(events);
      MiscreditsOfInit(events, name);
      CreditsOfOne(init, name);
      assert !MiscreditedTo(events, last, name);
      if i :| 0 <= i < |events| && MiscreditedFrom(events, i, name) {
        assert i < last ==> MiscreditedFrom(init, i, name);
      } else {
        assert !MiscreditedFrom(events, last, name);
        assert forall i :: 0 <= i < |init| ==> !MiscreditedFrom(init, i, name);
      }
    }
  }

  /** A section's collection has been announced. */
  lemma {:induction false} SectionIsNamed(events: seq<Event>)
    ensures Section(events).Some? <==> Names(events) != []
    ensures Section(events).Some? ==> Section(events).value in Names(events)
  {
    if events != [] {
      SectionIsNamed(events[..|events| - 1]);
    }
  }

  lemma {:induction false} NamesGrow(events: seq<Event>, k: nat)
    requires k <= |events|
    ensures |Names(events[..k])| <= |Names(events)| && Names(events)[..|Names(events[..k])|] == Names(events[..k])
    decreases |events|
  {
    if k == |events| {
      assert events[..k] == events;
    } else {
      var init := events[..|events| - 1];
      NamesGrow(init, k);
      assert init[..k] == events[..k];
    }
  }

  /** Rows only go astray from an earlier collection to a later one. */
  lemma MiscreditsGoForward(events: seq<Event>, i: nat, c: nat) returns (p: nat)
    requires i < |events| && c < |Names(events)| && MiscreditedTo(events, i, Names(events)[c])
    ensures p < c && MiscreditedFrom(events, i, Names(events)[p])
  {
    hide Names, Section;
    var names := Names(events[..i + 1]);
    NamesGrow(events, i + 1);
    NamesAreDistinct(events);
    SectionIsNamed(events[..i + 1]);
    assert forall q :: 0 <= q < |names| ==> names[q] == Names(events)[q];
    p :| 0 <= p < |names| && names[p] == Section(events[..i + 1]).value;
  }

  /** So they cannot cancel out: some collection is left short. */
  lemma {:induction false} SomeCollectionLoses(events: seq<Event>, i: nat, p: nat) returns (name: Bytes)
    requires i < |events| && p < |Names(events)| && MiscreditedFrom(events, i, Names(events)[p])
    ensures RowsWithin(events, name) < RowsInSection(events, name)
    decreases p
  {
    hide Names, MiscreditedFrom, MiscreditedTo, RowsWithin, RowsInSection;
    name := Names(events)[p];
    if j :| 0 <= j < |events| && MiscreditedTo(events, j, name) {
      var q := MiscreditsGoForward(events, j, p);
      name := SomeCollectionLoses(events, j, q);
    } else {
      CreditsOfOne(events, name);
    }
  }

  /**
   Rows are credited to the newest collection, not to the one whose section they are in: every count is
   right exactly when no `_id` document lies in the section of another collection than the newest.
   */
  lemma RowsGoToTheirSection(events: seq<Event>)
    ensures (forall n :: RowsWithin(events, n) == RowsInSection(events, n))
       <==> (forall i :: 0 <= i < |events| ==> !Miscredited(events, i))
  {
    hide Names, Section, RowsWithin, RowsInSection;
    if i :| 0 <= i < |events| && Miscredited(events, i) {
      SectionIsNamed(events[..i + 1]);
      NamesGrow(events, i + 1);
      var name := Section(events[..i + 1]).value;
      assert name in Names(events);
      var p :| 0 <= p < |Names(events)| && Names(events)[p] == name;
      var short := SomeCollectionLoses(events, i, p);
    } else {
      forall n
        ensures RowsWithin(events, n) == RowsInSection(events, n)
      {
        CreditsOfOne(events, n);
      }
    }
  }

  // ---------------------------------------------------------------- well-formed archives

  function Concat(docs: seq<Bytes>): Bytes {
    if docs == [] then [] else docs[0] + Concat(docs[1..])
  }

  function Layout(docs: seq<Bytes>, off: nat): (fs: seq<Frame>)
    ensures |fs| == |docs|
  {
    if docs == [] then [] else [Frame(off, |docs[0]|)] + Layout(docs[1..], off + |docs[0]|)
  }

  /** A document that says its own length. */
  predicate Framed(d: Bytes) {
    5 <= |d| <= MAX_DOCUMENT && d[..4] == LE(|d|, 4)
  }

  lemma LengthFound(pre: Bytes, d: Bytes, rest: Bytes)
    requires Framed(d)
    ensures U32At(pre + d + rest, |pre|) == |d|
  {
    hide LE, U32At;
    assert pre + d + rest == pre + LE(|d|, 4) + (d[4..] + rest);
    U32Inside(pre, |d|, d[4..] + rest);
  }

  /** On a concatenation of documents the frames are exactly the documents. */
  lemma {:induction false} FramesOfConcat(pre: Bytes, docs: seq<Bytes>)
    requires forall d :: d in docs ==> Framed(d)
    ensures Frames(pre + Concat(docs), |pre|) == Layout(docs, |pre|)
    decreases |docs|
  {
    hide U32At;
    if docs != [] {
      var d, rest := docs[0], Concat(docs[1..]);
      LengthFound(pre, d, rest);
      assert pre + Concat(docs) == pre + d + rest == (pre + d) + rest;
      FramesOfConcat(pre + d, docs[1..]);
    }
  }

  lemma {:induction false} SlicesElements(data: Bytes, frames: seq<Frame>)
    ensures forall i :: 0 <= i < |frames| ==> Slices(data, frames)[i] == Slice(data, frames[i])
  {
    if frames != [] {
      SlicesElements(data, frames[..|frames| - 1]);
    }
  }

  lemma {:induction false} LayoutSlice(pre: Bytes, docs: seq<Bytes>, i: nat)
    requires i < |docs|
    ensures Slice(pre + Concat(docs), Layout(docs, |pre|)[i]) == docs[i]
    decreases |docs|
  {
    assert pre + Concat(docs) == (pre + docs[0]) + Concat(docs[1..]);
    if i > 0 {
      LayoutSlice(pre + docs[0], docs[1..], i - 1);
    }
  }

  lemma SlicesOfConcat(docs: seq<Bytes>)
    requires forall d :: d in docs ==> Framed(d)
    ensures Slices(Concat(docs), Frames(Concat(docs), 0)) == docs
  {
    hide Slices, Slice, Frames, Concat;
    var data := Concat(docs);
    assert [] + data == data;
    FramesOfConcat([], docs);
    SlicesElements(data, Layout(docs, 0));
    forall i | 0 <= i < |docs|
      ensures Slices(data, Layout(docs, 0))[i] == docs[i]
    {
      LayoutSlice([], docs, i);
    }
  }

  /** What a document of fields should count for, read off the fields themselves. */
  function FieldsEvent(fields: seq<Field>): Event {
    Event(Announced(fields), exists f :: f in fields && f.name == ID && !f.element.NullE?)
  }

  function Announced(fields: seq<Field>): Option<Bytes> {
    if fields == [] then None
    else if fields[0].name == NS then
      (if fields[0].element.StringE? then AfterDot(fields[0].element.bytes) else None)
    else Announced(fields[1..])
  }

  function FieldsEvents(archive: seq<seq<Field>>): seq<Event> {
    if archive == [] then [] else FieldsEvents(archive[..|archive| - 1]) + [FieldsEvent(archive[|archive| - 1])]
  }

  predicate Archivable(fields: seq<Field>) {
    ValidFields(fields) && DistinctNames(fields) && |Encode(fields)| <= MAX_DOCUMENT
  }

  function Encodings(archive: seq<seq<Field>>): (docs: seq<Bytes>)
    requires forall fields :: fields in archive ==> Archivable(fields)
    ensures |docs| == |archive|
  {
    if archive == [] then []
    else
      var last := archive[|archive| - 1];
      assert Archivable(last);
      Encodings(archive[..|archive| - 1]) + [Encode(last)]
  }

  lemma {:induction false} AnnouncedIs(fields: seq<Field>)
    requires DistinctNames(fields)
    ensures forall f :: f in fields && f.name == NS ==> Announced(fields) == if f.element.StringE? then AfterDot(f.element.bytes) else None
    ensures (forall f :: f in fields ==> f.name != NS) ==> Announced(fields) == None
    decreases |fields|
  {
    hide AfterDot;
    if fields != [] {
      AnnouncedIs(fields[1..]);
      assert fields == [fields[0]] + fields[1..];
      assert forall g :: g in fields[1..] ==> g.name != fields[0].name;
    }
  }

  /** Reading an encoded document sees what its fields say. */
  lemma EncodedEvent(fields: seq<Field>, zone: int -> int)
    requires ValidFields(fields) && DistinctNames(fields)
    ensures Parse(Encode(fields)).Some? && EventOf(Parse(Encode(fields)).value, zone) == FieldsEvent(fields)
  {
    hide Parse, Encode, AfterDot, CollectionName, GoString, Announced;
    RoundTrip(fields);
    AnnouncedIs(fields);
    var doc := Parse(Encode(fields)).value;
    OnlyStringsAnnounce(doc, zone);
    if f :| f in fields && f.name == NS && !f.element.NullE? {
      assert Some(doc[NS]) == ValueOf(f.element);
    } else {
      assert NS !in doc;
    }
  }

  lemma EncodingIsFramed(fields: seq<Field>)
    requires Archivable(fields)
    ensures Framed(Encode(fields))
  {
    hide LE;
  }

  lemma {:induction false} EncodingsAre(archive: seq<seq<Field>>, zone: int -> int)
    requires forall fields :: fields in archive ==> Archivable(fields)
    ensures forall d :: d in Encodings(archive) ==> Framed(d)
    ensures Events(Encodings(archive), zone) == FieldsEvents(archive)
  {
    hide Framed, EventOf, FieldsEvent, Archivable, Encode, Parse;
    if archive != [] {
      var init, fields := archive[..|archive| - 1], archive[|archive| - 1];
      EncodingsAre(init, zone);
      Unhidden(fields, zone);
      EventsSnoc(Encodings(init), Encode(fields), zone);
    }
  }

  lemma Unhidden(fields: seq<Field>, zone: int -> int)
    requires Archivable(fields)
    ensures ValidFields(fields) && Framed(Encode(fields))
    ensures Parse(Encode(fields)).Some? && EventOf(Parse(Encode(fields)).value, zone) == FieldsEvent(fields)
  {
    EncodingIsFramed(fields);
    EncodedEvent(fields, zone);
  }

  /**
   On any archive of well-formed documents of at most 16 MiB the scanner visits exactly those documents,
   and its report is the one their fields call for: the rows are the documents with a non-null `_id`, and
   the structures the distinct collections named after the first dot of their `ns` strings.
   */
  lemma ArchiveIsCountedExactly(archive: seq<seq<Field>>, zone: int -> int)
    requires forall fields :: fields in archive ==> Archivable(fields)
    ensures var data := Concat(Encodings(archive));
            && Frames(data, 0) == Layout(Encodings(archive), 0)
            && ReportOf(Events(Slices(data, Frames(data, 0)), zone)) == ReportOf(FieldsEvents(archive))
            && ReportOf(FieldsEvents(archive)).totalRows == CountIDs(FieldsEvents(archive))
            && ReportOf(FieldsEvents(archive)).structureCount == |set n | n in Names(FieldsEvents(archive))|
  {
    hide Concat, Encodings, Frames, Layout, Slices, ReportOf, Events, FieldsEvents, Names, CountIDs;
    var docs := Encodings(archive);
    EncodingsAre(archive, zone);
    assert [] + Concat(docs) == Concat(docs);
    FramesOfConcat([], docs);
    SlicesOfConcat(docs);
    ReportTotals(FieldsEvents(archive));
    NamesAreDistinct(FieldsEvents(archive));
    DistinctCount(Names(FieldsEvents(archive)));
  }

  // ---------------------------------------------------------------- and in plain bytes

  /** A document with a non-null `_id`. */
  predicate IsRow(fields: seq<Field>) {
    exists f :: f in fields && f.name == [95, 105, 100] && !f.element.NullE?
  }

  /** A document whose `ns` string names `name` after its first dot. */
  predicate Announces(fields: seq<Field>, name: Bytes) {
    exists f :: f in fields && f.name == [110, 115] && f.element.StringE? && AfterDot(f.element.bytes) == Some(name)
  }

  function RowsIn(archive: seq<seq<Field>>): nat {
    if archive == [] then 0 else RowsIn(archive[..|archive| - 1]) + if IsRow(archive[|archive| - 1]) then 1 else 0
  }

  lemma FieldsEventIs(fields: seq<Field>, name: Bytes)
    requires DistinctNames(fields)
    ensures FieldsEvent(fields).hasID <==> IsRow(fields)
    ensures FieldsEvent(fields).name == Some(name) <==> Announces(fields, name)
  {
    hide AfterDot, Announced;
    AnnouncedIs(fields);
    if FieldsEvent(fields).name == Some(name) && forall f :: f in fields ==> f.name != NS {
      assert false;
    }
  }

  lemma {:induction false} RowsOfFields(archive: seq<seq<Field>>)
    requires forall fields :: fields in archive ==> DistinctNames(fields)
    ensures CountIDs(FieldsEvents(archive)) == RowsIn(archive)
  {
    hide FieldsEvent, IsRow, DistinctNames;
    if archive != [] {
      var init, fields := archive[..|archive| - 1], archive[|archive| - 1];
      RowsOfFields(init);
      FieldsEventIs(fields, []);
      assert FieldsEvents(archive)[..|FieldsEvents(archive)| - 1] == FieldsEvents(init);
    }
  }

  lemma {:induction false} FieldsEventsAt(archive: seq<seq<Field>>)
    ensures |FieldsEvents(archive)| == |archive|
    ensures forall i :: 0 <= i < |archive| ==> FieldsEvents(archive)[i] == FieldsEvent(archive[i])
  {
    hide FieldsEvent;
    if archive != [] {
      FieldsEventsAt(archive[..|archive| - 1]);
    }
  }

  lemma NamesOfFields(archive: seq<seq<Field>>, name: Bytes)
    requires forall fields :: fields in archive ==> DistinctNames(fields)
    ensures (exists e :: e in FieldsEvents(archive) && e.name == Some(name)) <==> (exists fields :: fields in archive && Announces(fields, name))
  {
    hide FieldsEvent, FieldsEvents, Announces, DistinctNames;
    FieldsEventsAt(archive);
    if e :| e in FieldsEvents(archive) && e.name == Some(name) {
      var i :| 0 <= i < |archive| && FieldsEvents(archive)[i] == e;
      FieldsEventIs(archive[i], name);
      assert archive[i] in archive;
    }
    if fields :| fields in archive && Announces(fields, name) {
      var i :| 0 <= i < |archive| && archive[i] == fields;
      FieldsEventIs(fields, name);
      assert FieldsEvents(archive)[i] in FieldsEvents(archive);
    }
  }

  /** The counts of an archive of well-formed documents of at most 16 MiB, said of its bytes and fields alone. */
  lemma ArchiveCounts(archive: seq<seq<Field>>, zone: int -> int, name: Bytes)
    requires forall fields :: fields in archive ==> ValidFields(fields) && DistinctNames(fields) && |Encode(fields)| <= 16777216
    ensures forall fields :: fields in archive ==> Archivable(fields)
    ensures var data := Concat(Encodings(archive));
            var r := ReportOf(Events(Slices(data, Frames(data, 0)), zone));
            && r.totalRows == RowsIn(archive)
            && (Listed(r.collections, name) <==> exists fields :: fields in archive && Announces(fields, name))
  {
    hide Concat, Encodings, Frames, Slices, ReportOf, Events, FieldsEvents, Names, CountIDs, Announces, Encode, ValidFields, DistinctNames, Listed;
    assert forall fields :: fields in archive ==> Archivable(fields);
    ArchiveIsCountedExactly(archive, zone);
    var events := FieldsEvents(archive);
    ReportTotals(events);
    NamesAreDistinct(events);
    ListedIsMember(ReportOf(events).collections, Names(events), name);
    RowsOfFields(archive);
    NamesOfFields(archive, name);
  }
}
