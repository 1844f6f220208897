/** Where backups are kept: the local directory, and the remote bucket. */
module Storage {
  import opened Text
  import opened Timestamps
  import opened ObjectKeys

  datatype Result<+T> = Ok(value: T) | Err

  class LocalStorage {
    var files: map<string, string>

    constructor ()
      ensures files == map[]
    {
      files := map[];
    }

    /**
     Creates or truncates the file, and removes it again if copying the data fails; if that fails too, the part
     copied so far stays.
     */
    method Save(name: string, data: string, created: bool, copied: bool, removed: bool, part: string) returns (ok: bool)
      modifies this
      ensures ok == (created && copied)
      ensures files == if !created then old(files)
                       else if copied then old(files)[name := data]
                       else if removed then old(files) - {name}
                       else old(files)[name := part]
    {
      if !created {
        return false;
      }
      files := files[name := ""];
      if !copied {
        files := files[name := part];
        if removed {
          files := files - {name};
        }
        return false;
      }
      files := files[name := data];
      return true;
    }

    method Load(name: string, readable: bool) returns (r: Result<string>)
      ensures r == if name in files && readable then Ok(files[name]) else Err
    {
      return if name in files && readable then Ok(files[name]) else Err;
    }
  }

  datatype BackupMetadata = BackupMetadata(backupID: string, serverID: string, databaseName: string, size: int, createdAt: Time)

  /** One entry of a listing page. */
  datatype Object = Object(key: string, size: int, lastModified: Time)

  function BackupID(bucket: string, key: string): string {
    "s3://" + bucket + "/" + key
  }

  /** parseBackupID: an s3:// ID carries its bucket, anything else is a key of the provider's own. */
  function ParseBackupID(ownBucket: string, id: string): Result<(string, string)> {
    if |id| >= 5 && id[..5] == "s3://" then
      var path := id[5..];
      var k := SlashIndex(path);
      if k < |path| then Ok((path[..k], path[k + 1..])) else Err
    else Ok((ownBucket, id))
  }

  type Objects = map<(string, string), string>

  /** The object an ID names, as Download reads it. */
  function ObjectOf(objects: Objects, ownBucket: string, id: string): Result<string> {
    match ParseBackupID(ownBucket, id)
    case Ok(place) => if place in objects then Ok(objects[place]) else Err
    case Err => Err
  }

  class S3Provider {
    const bucket: string
    const prefix: string
    const serverID: string
    var objects: Objects

    constructor (bucket: string, prefix: string, serverID: string)
      ensures this.bucket == bucket && this.prefix == prefix && this.serverID == serverID && objects == map[]
    {
      this.bucket := bucket;
      this.prefix := prefix;
      this.serverID := serverID;
      objects := map[];
    }

    function ServerFor(given: string): string {
      if given == "" then serverID else given
    }

    /** A put is atomic, but may be stored without the caller learning of it. */
    method Upload(givenServer: string, databaseName: string, body: string, t: Time, stored: bool, acknowledged: bool)
      returns (r: Result<BackupMetadata>)
      requires acknowledged ==> stored
      modifies this
      ensures var server := if givenServer == "" then serverID else givenServer;
              var key := GenerateObjectKey(prefix, server, databaseName, t);
              && objects == (if server != "" && stored then old(objects)[(bucket, key) := body] else old(objects))
              && r == (if server != "" && acknowledged
                       then Ok(BackupMetadata(BackupID(bucket, key), server, databaseName, |body|, t)) else Err)
    {
      var server := givenServer;
      if server == "" {
        server := serverID;
      }
      if server == "" {
        return Err;
      }
      var key := GenerateObjectKey(prefix, server, databaseName, t);
      if stored {
        objects := objects[(bucket, key) := body];
      }
      if !acknowledged {
        return Err;
      }
      return Ok(BackupMetadata(BackupID(bucket, key), server, databaseName, |body|, t));
    }

    method Download(id: string, reachable: bool) returns (r: Result<string>)
      ensures r == if reachable then ObjectOf(objects, bucket, id) else Err
    {
      var place := ParseBackupID(bucket, id);
      if place.Err? || !reachable || place.value !in objects {
        return Err;
      }
      return Ok(objects[place.value]);
    }

    /** ListBackups as written, on one page of objects. */
    method ListBackups(page: seq<Object>, databaseName: string) returns (backups: seq<BackupMetadata>)
      ensures backups == Selected(bucket, serverID, page, databaseName, ExtractMetadataFromKey)
      ensures databaseName != "" ==> backups == []
    {
      backups := [];
      for i := 0 to |page|
        invariant backups == Selected(bucket, serverID, page[..i], databaseName, ExtractMetadataFromKey)
      {
        assert page[..i + 1][..i] == page[..i];
        var entry := EntryOf(bucket, serverID, page[i], ExtractMetadataFromKey(page[i].key));
        if databaseName != "" && entry.databaseName != databaseName {
          continue;
        }
        backups := backups + [entry];
      }
      assert page[..|page|] == page;
      NothingIsSelected(bucket, serverID, page, databaseName);
    }
  }

  /** Metadata comes from the key if the key gives any, and else from the object. */
  function EntryOf(bucket: string, serverID: string, o: Object, m: Option<Metadata>): BackupMetadata {
    match m
    case None => BackupMetadata(BackupID(bucket, o.key), serverID, "", o.size, o.lastModified)
    case Some(Metadata(server, database, second)) =>
      BackupMetadata(BackupID(bucket, o.key), server, database, o.size,
                     if second.Some? then Time(second.value * NANOS_PER_SECOND, 0) else ZERO_TIME)
  }

  /** The filter loop of a listing, for any way of reading keys. */
  function Selected(bucket: string, serverID: string, page: seq<Object>, databaseName: string,
                    extract: string -> Option<Metadata>): seq<BackupMetadata>
  {
    if page == [] then []
    else
      var last := page[|page| - 1];
      var entry := EntryOf(bucket, serverID, last, extract(last.key));
      Selected(bucket, serverID, page[..|page| - 1], databaseName, extract)
      + (if databaseName == "" || entry.databaseName == databaseName then [entry] else [])
  }

  /** As written the extraction rejects every key: seven entries come back where it wants six. */
  lemma ExtractionNeverSucceeds(key: string)
    ensures ExtractMetadataFromKey(key) == None
  {
    match MatchKey(key)
    case None =>
    case Some((p, g)) => assert |FindStringSubmatch(key)| == 7;
  }

  /** So as written a listing for a named database is empty, and restoring "the latest" finds no backup. */
  lemma {:induction false} NothingIsSelected(bucket: string, serverID: string, page: seq<Object>, databaseName: string)
    ensures databaseName != "" ==> Selected(bucket, serverID, page, databaseName, ExtractMetadataFromKey) == []
  {
    if page != [] {
      ExtractionNeverSucceeds(page[|page| - 1].key);
      NothingIsSelected(bucket, serverID, page[..|page| - 1], databaseName);
    }
  }

  /** As written a listing for no database in particular has an entry for every object, with nothing but its own data. */
  lemma {:induction false} UnnamedListing(bucket: string, serverID: string, page: seq<Object>)
    ensures var entries := Selected(bucket, serverID, page, "", ExtractMetadataFromKey);
            && |entries| == |page|
            && forall i :: 0 <= i < |page| ==>
                 entries[i] == BackupMetadata("s3://" + bucket + "/" + page[i].key, serverID, "", page[i].size, page[i].lastModified)
  {
    hide ExtractMetadataFromKey;
    if page != [] {
      ExtractionNeverSucceeds(page[|page| - 1].key);
      UnnamedListing(bucket, serverID, page[..|page| - 1]);
    }
  }

  /** A backup as it was uploaded. */
  datatype Printed = Printed(serverID: string, databaseName: string, time: Time, size: int, lastModified: Time)

  predicate ReadablyPrinted(prefix: string, b: Printed) {
    && PlainNames(b.serverID, b.databaseName) && Segments(PrefixText(prefix))
    && FourDigitYear(b.time) && 0 <= Unix(b.time) < INT64_LIMIT
  }

  function PageOf(backups: seq<Printed>, keyOf: Printed -> string): seq<Object> {
    if backups == [] then []
    else
      var b := backups[|backups| - 1];
      PageOf(backups[..|backups| - 1], keyOf) + [Object(keyOf(b), b.size, b.lastModified)]
  }

  function Uploaded(bucket: string, b: Printed, key: string): BackupMetadata {
    BackupMetadata(BackupID(bucket, key), b.serverID, b.databaseName, b.size, Time(Unix(b.time) * NANOS_PER_SECOND, 0))
  }

  /** What a listing should return: the backups of the asked database, in page order, as uploaded. */
  function Wanted(bucket: string, backups: seq<Printed>, keyOf: Printed -> string, databaseName: string): seq<BackupMetadata> {
    if backups == [] then []
    else
      var b := backups[|backups| - 1];
      Wanted(bucket, backups[..|backups| - 1], keyOf, databaseName)
      + (if databaseName == "" || b.databaseName == databaseName then [Uploaded(bucket, b, keyOf(b))] else [])
  }

  lemma {:induction false} ExactReadingListsExactly(bucket: string, serverID: string, backups: seq<Printed>, keyOf: Printed -> string,
                                                    databaseName: string, extract: string -> Option<Metadata>)
    requires forall b :: b in backups ==>
               EntryOf(bucket, serverID, Object(keyOf(b), b.size, b.lastModified), extract(keyOf(b))) == Uploaded(bucket, b, keyOf(b))
    ensures Selected(bucket, serverID, PageOf(backups, keyOf), databaseName, extract) == Wanted(bucket, backups, keyOf, databaseName)
  {
    if backups != [] {
      var rest, b := backups[..|backups| - 1], backups[|backups| - 1];
      ExactReadingListsExactly(bucket, serverID, rest, keyOf, databaseName, extract);
      var page := PageOf(backups, keyOf);
      assert page[..|page| - 1] == PageOf(rest, keyOf);
    }
  }

  /** With the documented extraction a listing returns exactly the backups of the asked database. */
  lemma IntendedListingIsExact(bucket: string, serverID: string, prefix: string, backups: seq<Printed>, databaseName: string)
    requires forall b :: b in backups ==> ReadablyPrinted(prefix, b)
    ensures var keyOf := (b: Printed) => GenerateObjectKey(prefix, b.serverID, b.databaseName, b.time);
            Selected(bucket, serverID, PageOf(backups, keyOf), databaseName, ExtractIntended) == Wanted(bucket, backups, keyOf, databaseName)
  {
    var keyOf := (b: Printed) => GenerateObjectKey(prefix, b.serverID, b.databaseName, b.time);
    forall b | b in backups
      ensures EntryOf(bucket, serverID, Object(keyOf(b), b.size, b.lastModified), ExtractIntended(keyOf(b))) == Uploaded(bucket, b, keyOf(b))
    {
      WellPrintedReadsBack(prefix, b.serverID, b.databaseName, b.time);
    }
    ExactReadingListsExactly(bucket, serverID, backups, keyOf, databaseName, ExtractIntended);
  }

  /** An upload's ID parses back to the bucket and key it was built from exactly when the bucket holds no slash. */
  lemma BackupIDResolves(ownBucket: string, bucket: string, key: string)
    ensures BackupID(bucket, key) == "s3://" + bucket + "/" + key
    ensures ParseBackupID(ownBucket, BackupID(bucket, key)) == Ok((bucket, key)) <==> '/' !in bucket
  {
    var id := BackupID(bucket, key);
    assert id[5..] == bucket + "/" + key;
    if '/' !in bucket {
      SlashIndexOf(bucket, key);
      var path := bucket + "/" + key;
      assert path[..|bucket|] == bucket && path[|bucket| + 1..] == key;
    }
  }

  /** So a download by that ID, through any provider, reads the object the upload wrote. */
  lemma UploadedObjectIsFound(objects: Objects, ownBucket: string, bucket: string, key: string, body: string)
    requires '/' !in bucket
    ensures ObjectOf(objects[(bucket, key) := body], ownBucket, BackupID(bucket, key)) == Ok(body)
  {
    BackupIDResolves(ownBucket, bucket, key);
  }

  /** An ID without s3:// is a key of the provider's own bucket. */
  lemma PlainKeyReadsOwnObject(objects: Objects, ownBucket: string, key: string)
    requires |key| < 5 || key[..5] != "s3://"
    ensures ObjectOf(objects, ownBucket, key) == if (ownBucket, key) in objects then Ok(objects[(ownBucket, key)]) else Err
  {
  }

  /** An s3:// ID without a slash behind its bucket names nothing. */
  lemma BareBucketNamesNothing(objects: Objects, ownBucket: string, bucket: string)
    requires '/' !in bucket
    ensures ObjectOf(objects, ownBucket, "s3://" + bucket) == Err
  {
    assert ("s3://" + bucket)[5..] == bucket && ("s3://" + bucket)[..5] == "s3://";
    NoSlashInside(bucket);
  }

  lemma {:induction false} NoSlashInside(s: string)
    requires '/' !in s
    ensures SlashIndex(s) == |s|
  {
    if s != "" {
      NoSlashInside(s[1..]);
    }
  }

  /** A retry, which has its creation time from the queue's text, uploads under the very same key. */
  lemma RetryUsesSameKey(prefix: string, serverID: string, databaseName: string, t: Time)
    requires FourDigitYear(t) && OffsetInRange(t.offset)
    ensures GenerateObjectKey(prefix, serverID, databaseName, ParseSQLiteTime(StoredText(t)))
         == GenerateObjectKey(prefix, serverID, databaseName, t)
  {
    TimestampTextsAreExact(t);
  }

  /** The keys of a page of one server and database, in ascending order, with equally wide seconds. */
  predicate AscendingPage(prefix: string, serverID: string, databaseName: string, times: seq<Time>) {
    && (forall i :: 0 <= i < |times| ==> FourDigitYear(times[i]) && 0 <= Unix(times[i]))
    && (forall i :: 0 <= i < |times| ==> |IntText(Unix(times[i]))| == |IntText(Unix(times[0]))|)
    && (forall i, j :: 0 <= i < j < |times| ==>
          Less(GenerateObjectKey(prefix, serverID, databaseName, times[i]), GenerateObjectKey(prefix, serverID, databaseName, times[j])))
  }

  /** The first entry of a page is the oldest backup exactly if no backup was made no later yet on a later local date. */
  lemma FirstListedIsOldest(prefix: string, serverID: string, databaseName: string, times: seq<Time>)
    requires AscendingPage(prefix, serverID, databaseName, times)
    ensures (forall i :: 0 < i < |times| ==> Unix(times[0]) < Unix(times[i]))
       <==> (forall i :: 0 < i < |times| ==> !DateGoesBack(times[i], times[0]))
  {
    hide GenerateObjectKey, LocalDate, FourDigitYear, Itoa;
    forall i | 0 < i < |times|
      ensures Unix(times[0]) < Unix(times[i]) <==> !DateGoesBack(times[i], times[0])
    {
      KeyOrder(prefix, serverID, databaseName, times[0], times[i]);
      SecondOrder(Unix(times[0]), Unix(times[i]));
    }
  }

  /** So on a page of one zone it is the oldest, and never the latest. */
  lemma FirstListedInOneZone(prefix: string, serverID: string, databaseName: string, times: seq<Time>)
    requires AscendingPage(prefix, serverID, databaseName, times) && forall i :: 0 <= i < |times| ==> times[i].offset == times[0].offset
    ensures forall i :: 0 < i < |times| ==> Unix(times[0]) < Unix(times[i])
  {
    hide GenerateObjectKey, LocalDate, FourDigitYear, IntText, DateGoesBack;
    FirstListedIsOldest(prefix, serverID, databaseName, times);
    forall i | 0 < i < |times|
      ensures !DateGoesBack(times[i], times[0])
    {
      OneZoneGoesForward(times[i], times[0]);
    }
  }
}
