/**
 Object keys: how they are printed, what the key pattern makes of a key under Go's leftmost-first
 matching, and the order a listing returns them in.
 */
module ObjectKeys {
  import opened Text
  import opened Calendar
  import opened Timestamps

  function FileText(database: string, second: string): string {
    database + "-" + second + ".enc"
  }

  function GenerateObjectKey(prefix: string, serverID: string, databaseName: string, t: Time): string {
    (if prefix != "" then prefix + "/" else "")
    + serverID + "/" + DateText(LocalDate(t), '/') + "/" + FileText(databaseName, IntText(Unix(t)))
  }

  // ---------------------------------------------------------------- the key pattern

  /** The pattern's six capture groups. */
  datatype Groups = Groups(server: string, year: string, month: string, day: string, database: string, second: string)

  /** The text of a key by its groups, after `p`, what the repeated segment group consumed. */
  function Render(p: string, g: Groups): string {
    p + g.server + "/" + g.year + "/" + g.month + "/" + g.day + "/" + FileText(g.database, g.second)
  }

  /** [^/]+/ */
  function TakeSegment(s: string): (r: Option<(string, string)>)
    ensures r.Some? ==> |r.value.1| < |s|
  {
    var k := SlashIndex(s);
    if 0 < k < |s| then Some((s[..k], s[k + 1..])) else None
  }

  function SlashIndex(s: string): (k: nat)
    ensures k <= |s| && (k < |s| ==> s[k] == '/') && '/' !in s[..k]
  {
    if s == "" || s[0] == '/' then 0 else 1 + SlashIndex(s[1..])
  }

  /** (?:[^/]+/)* as a whole */
  predicate Segments(p: string)
    decreases |p|
  {
    p == "" || (TakeSegment(p).Some? && Segments(TakeSegment(p).value.1))
  }

  predicate WellFormed(g: Groups) {
    && g.server != "" && '/' !in g.server
    && |g.year| == 4 && |g.month| == 2 && |g.day| == 2
    && AllDigits(g.year) && AllDigits(g.month) && AllDigits(g.day)
    && g.database != "" && '\n' !in g.database
    && g.second != "" && AllDigits(g.second)
  }

  /** What the pattern says, with no preference: `key` splits into segments `p` and groups `g`. */
  predicate Matches(key: string, p: string, g: Groups) {
    key == Render(p, g) && Segments(p) && WellFormed(g)
  }

  /** (\d{k})/ */
  function TakeDigits(s: string, k: nat): Option<(string, string)> {
    if |s| > k && AllDigits(s[..k]) && s[k] == '/' then Some((s[..k], s[k + 1..])) else None
  }

  /** (\d+)\.enc$ */
  function MatchSecond(s: string): Option<string> {
    var k := DigitRun(s);
    if k > 0 && s[k..] == ".enc" then Some(s[..k]) else None
  }

  /** (.+)-(\d+)\.enc$ with the first group at most `k` long, longest first */
  function MatchFile(s: string, k: nat): Option<(string, string)>
    requires k <= |s|
  {
    if k == 0 then None
    else if k < |s| && s[k] == '-' && '\n' !in s[..k] && MatchSecond(s[k + 1..]).Some? then
      Some((s[..k], MatchSecond(s[k + 1..]).value))
    else MatchFile(s, k - 1)
  }

  /** The pattern after its repeated group */
  function MatchServer(s: string): Option<Groups> {
    var (server, s1) :- TakeSegment(s);
    var (year, s2) :- TakeDigits(s1, 4);
    var (month, s3) :- TakeDigits(s2, 2);
    var (day, s4) :- TakeDigits(s3, 2);
    var (database, second) :- MatchFile(s4, |s4|);
    Some(Groups(server, year, month, day, database, second))
  }

  /** The whole pattern, backtracking as Go does: one more segment is tried before going on. */
  function MatchKey(s: string): Option<(string, Groups)>
    decreases |s|
  {
    var segment := TakeSegment(s);
    var deeper := if segment.Some? then MatchKey(segment.value.1) else None;
    if deeper.Some? then Some((segment.value.0 + "/" + deeper.value.0, deeper.value.1))
    else
      var g :- MatchServer(s);
      Some(("", g))
  }

  // ---------------------------------------------------------------- the matcher against the pattern

  lemma {:induction false} SlashIndexOf(a: string, b: string)
    requires '/' !in a
    ensures SlashIndex(a + "/" + b) == |a|
  {
    if a == "" {
      assert a + "/" + b == "/" + b;
    } else {
      assert (a + "/" + b)[1..] == a[1..] + "/" + b;
      SlashIndexOf(a[1..], b);
    }
  }

  lemma TakeSegmentOf(a: string, b: string)
    requires a != "" && '/' !in a
    ensures TakeSegment(a + "/" + b) == Some((a, b))
  {
    SlashIndexOf(a, b);
    var s := a + "/" + b;
    assert s[..|a|] == a && s[|a| + 1..] == b;
  }

  lemma SegmentSplit(s: string)
    requires TakeSegment(s).Some?
    ensures var (a, b) := TakeSegment(s).value; s == a + "/" + b && a != "" && '/' !in a
  {
  }

  lemma TakeDigitsOf(d: string, rest: string, k: nat)
    requires |d| == k && AllDigits(d)
    ensures TakeDigits(d + "/" + rest, k) == Some((d, rest))
  {
    var s := d + "/" + rest;
    assert s[..k] == d && s[k + 1..] == rest;
  }

  lemma MatchSecondOf(second: string)
    requires second != "" && AllDigits(second)
    ensures MatchSecond(second + ".enc") == Some(second)
  {
    DigitRunConcat(second, ".enc");
    assert (second + ".enc")[|second|..] == ".enc" && (second + ".enc")[..|second|] == second;
  }

  lemma {:induction false} MatchFileSound(s: string, k: nat)
    requires k <= |s| && MatchFile(s, k).Some?
    ensures var (d, z) := MatchFile(s, k).value;
            s == FileText(d, z) && d != "" && '\n' !in d && z != "" && AllDigits(z)
  {
    if k < |s| && s[k] == '-' && '\n' !in s[..k] && MatchSecond(s[k + 1..]).Some? {
      var r := s[k + 1..];
      assert r == r[..DigitRun(r)] + ".enc";
      assert s == s[..k] + "-" + r;
    } else {
      MatchFileSound(s, k - 1);
    }
  }

  lemma {:induction false} MatchFileComplete(s: string, k: nat, database: string, second: string)
    requires |database| <= k <= |s| && s == FileText(database, second)
    requires database != "" && '\n' !in database && second != "" && AllDigits(second)
    ensures MatchFile(s, k).Some? && |MatchFile(s, k).value.0| >= |database|
  {
    if k == |database| {
      assert s[..k] == database && s[k] == '-' && s[k + 1..] == second + ".enc";
      MatchSecondOf(second);
    } else {
      MatchFileComplete(s, k - 1, database, second);
    }
  }

  /** A key read from the front: each part and what is left after it. */
  lemma RenderFront(p: string, g: Groups)
    ensures var s4 := FileText(g.database, g.second);
            var s3 := g.day + "/" + s4;
            var s2 := g.month + "/" + s3;
            var s1 := g.year + "/" + s2;
            Render(p, g) == p + (g.server + "/" + s1)
  {
  }

  lemma MatchServerComplete(s: string, g: Groups)
    requires Matches(s, "", g)
    ensures MatchServer(s).Some?
    ensures var h := MatchServer(s).value;
            h.server == g.server && h.year == g.year && h.month == g.month && h.day == g.day
            && |h.database| >= |g.database|
  {
    RenderFront("", g);
    var s4 := FileText(g.database, g.second);
    var s3 := g.day + "/" + s4;
    var s2 := g.month + "/" + s3;
    var s1 := g.year + "/" + s2;
    assert s == g.server + "/" + s1;
    TakeSegmentOf(g.server, s1);
    TakeDigitsOf(g.year, s2, 4);
    TakeDigitsOf(g.month, s3, 2);
    TakeDigitsOf(g.day, s4, 2);
    MatchFileComplete(s4, |s4|, g.database, g.second);
  }

  lemma MatchServerSound(s: string)
    requires MatchServer(s).Some?
    ensures Matches(s, "", MatchServer(s).value)
  {
    var (server, s1) := TakeSegment(s).value;
    var (year, s2) := TakeDigits(s1, 4).value;
    var (month, s3) := TakeDigits(s2, 2).value;
    var (day, s4) := TakeDigits(s3, 2).value;
    SegmentSplit(s);
    assert s1 == year + "/" + s2;
    assert s2 == month + "/" + s3;
    assert s3 == day + "/" + s4;
    MatchFileSound(s4, |s4|);
    RenderFront("", MatchServer(s).value);
  }

  lemma RenderSegment(a: string, p: string, g: Groups)
    ensures Render(a + "/" + p, g) == a + "/" + Render(p, g)
  {
    RenderFront(p, g);
    RenderFront(a + "/" + p, g);
  }

  /** Whatever the matcher returns, the pattern allows. */
  lemma {:induction false} MatchKeySound(s: string)
    requires MatchKey(s).Some?
    ensures var (p, g) := MatchKey(s).value; Matches(s, p, g)
    decreases |s|
  {
    var segment := TakeSegment(s);
    if segment.Some? && MatchKey(segment.value.1).Some? {
      var (a, b) := segment.value;
      var (p, g) := MatchKey(b).value;
      MatchKeySound(b);
      SegmentSplit(s);
      TakeSegmentOf(a, p);
      RenderSegment(a, p, g);
    } else {
      MatchServerSound(s);
    }
  }

  /**
   Whenever the pattern allows any split at all the matcher returns one, and it returns a preferred
   one: no allowed split gives more text to the segments or, at equal segments, to the database.
   */
  lemma {:induction false} MatchKeyPrefers(s: string, p: string, g: Groups)
    requires Matches(s, p, g)
    ensures MatchKey(s).Some?
    ensures var (q, h) := MatchKey(s).value;
            |q| > |p| || (|q| == |p| && |h.database| >= |g.database|)
    decreases |s|
  {
    if p == "" {
      MatchServerComplete(s, g);
    } else {
      var (a, b) := TakeSegment(p).value;
      SegmentSplit(p);
      RenderSegment(a, b, g);
      TakeSegmentOf(a, Render(b, g));
      MatchKeyPrefers(Render(b, g), b, g);
    }
  }

  // ---------------------------------------------------------------- printing against the pattern

  /** What extractMetadataFromKey is meant to return; the second is absent when it does not fit an int64. */
  datatype Metadata = Metadata(server: string, database: string, second: Option<nat>)

  /** The documented reading of a key: server, database and second from the groups that hold them. */
  function ExtractIntended(key: string): Option<Metadata> {
    var (p, g) :- MatchKey(key);
    MatchKeySound(key);
    var second := Value(g.second);
    Some(Metadata(g.server, g.database, if second < INT64_LIMIT then Some(second) else None))
  }

  /** Go's FindStringSubmatch: the whole match and one entry per group, or nothing. */
  function FindStringSubmatch(key: string): seq<string> {
    match MatchKey(key)
    case None => []
    case Some((p, g)) => [key, g.server, g.year, g.month, g.day, g.database, g.second]
  }

  /** extractMetadataFromKey as written: it wants six entries and takes the day for the database. */
  function MetadataFromMatches(matches: seq<string>): Option<Metadata> {
    if |matches| != 6 then None
    else
      var second := matches[5];
      Some(Metadata(matches[1], matches[4],
                    if second != "" && AllDigits(second) && Value(second) < INT64_LIMIT then Some(Value(second)) else None))
  }

  function ExtractMetadataFromKey(key: string): Option<Metadata> {
    MetadataFromMatches(FindStringSubmatch(key))
  }

  /** Splitting at the last slash is unique. */
  lemma {:induction false} LastSlash(x: string, a: string, y: string, b: string)
    requires '/' !in a && '/' !in b && x + "/" + a == y + "/" + b
    ensures x == y && a == b
  {
    var s, t := x + "/" + a, y + "/" + b;
    assert a == "" <==> s[|s| - 1] == '/';
    assert b == "" <==> t[|t| - 1] == '/';
    if a == "" {
      assert x == s[..|s| - 1] && y == t[..|t| - 1];
    } else {
      assert a[|a| - 1] == s[|s| - 1] == b[|b| - 1];
      assert x + "/" + a[..|a| - 1] == s[..|s| - 1] == t[..|t| - 1] == y + "/" + b[..|b| - 1];
      LastSlash(x, a[..|a| - 1], y, b[..|b| - 1]);
      assert a == a[..|a| - 1] + [a[|a| - 1]] && b == b[..|b| - 1] + [b[|b| - 1]];
    }
  }

  /** Two readings of a file name that end in digits agree, whatever dashes the names hold. */
  lemma FileTextUnique(d: string, z: string, d': string, z': string)
    requires FileText(d, z) == FileText(d', z') && '-' !in z && '-' !in z'
    ensures d == d' && z == z'
  {
    var s := FileText(d, z);
    FileTextDashes(d, z, |d'|);
    FileTextDashes(d', z', |d|);
    assert |d| == |d'|;
    assert s[..|d|] == d && s[..|d|] == d' && s[|d| + 1..|s| - 4] == z && s[|d| + 1..|s| - 4] == z';
  }

  /** No dash of a file name comes after the one before the second. */
  lemma FileTextDashes(d: string, z: string, k: nat)
    requires '-' !in z && k < |FileText(d, z)| && FileText(d, z)[k] == '-'
    ensures k <= |d|
  {
    var s := FileText(d, z);
    assert s == d + "-" + (z + ".enc");
    assert forall i :: |d| < i < |s| ==> s[i] != '-';
  }

  lemma DigitsHaveNoDash(z: string)
    requires AllDigits(z)
    ensures '-' !in z && '/' !in z && '\n' !in z
  {
  }

  lemma YearTextIsFourDigits(y: int)
    ensures '/' !in YearText(y)
    ensures 0 <= y < 10000 <==> |YearText(y)| == 4 && AllDigits(YearText(y))
  {
    Pow10Two();
    if y >= 10000 {
      ItoaIsPad(y);
      if |Itoa(y)| <= 4 {
        Pow10Monotone(|Itoa(y)|, 4);
      }
    } else if y < 0 {
      assert !IsDigit(YearText(y)[0]);
    }
  }

  lemma {:induction false} Pow10Monotone(m: nat, n: nat)
    requires m <= n
    ensures Pow10(m) <= Pow10(n)
  {
    if m < n {
      Pow10Monotone(m, n - 1);
    }
  }

  function PrefixText(prefix: string): string {
    if prefix != "" then prefix + "/" else ""
  }

  function GroupsOf(serverID: string, databaseName: string, t: Time): Groups {
    var d := LocalDate(t);
    Groups(serverID, YearText(d.year), Pad(d.month, 2), Pad(d.day, 2), databaseName, IntText(Unix(t)))
  }

  lemma KeyIsRendered(prefix: string, serverID: string, databaseName: string, t: Time)
    ensures GenerateObjectKey(prefix, serverID, databaseName, t) == Render(PrefixText(prefix), GroupsOf(serverID, databaseName, t))
  {
    var g := GroupsOf(serverID, databaseName, t);
    assert DateText(LocalDate(t), '/') == g.year + "/" + g.month + "/" + g.day;
  }

  /** A key read from the back, part by part, has one reading if no part but the first holds a slash. */
  lemma RenderUnique(p: string, g: Groups, q: string, h: Groups)
    requires Render(p, g) == Render(q, h)
    requires forall s :: s in [g.year, g.month, g.day, FileText(g.database, g.second)] ==> '/' !in s
    requires forall s :: s in [h.year, h.month, h.day, FileText(h.database, h.second)] ==> '/' !in s
    ensures p + g.server == q + h.server
    ensures g.year == h.year && g.month == h.month && g.day == h.day
    ensures FileText(g.database, g.second) == FileText(h.database, h.second)
  {
    var x1, y1 := p + g.server, q + h.server;
    var x2, y2 := x1 + "/" + g.year, y1 + "/" + h.year;
    var x3, y3 := x2 + "/" + g.month, y2 + "/" + h.month;
    var x4, y4 := x3 + "/" + g.day, y3 + "/" + h.day;
    LastSlash(x4, FileText(g.database, g.second), y4, FileText(h.database, h.second));
    LastSlash(x3, g.day, y3, h.day);
    LastSlash(x2, g.month, y2, h.month);
    LastSlash(x1, g.year, y1, h.year);
  }

  function SlashCount(s: string): nat {
    if s == "" then 0 else (if s[0] == '/' then 1 else 0) + SlashCount(s[1..])
  }

  lemma {:induction false} SlashCountConcat(a: string, b: string)
    ensures SlashCount(a + b) == SlashCount(a) + SlashCount(b)
  {
    if a == "" {
      assert a + b == b;
    } else {
      assert (a + b)[1..] == a[1..] + b;
      SlashCountConcat(a[1..], b);
    }
  }

  lemma {:induction false} NoSlash(s: string)
    requires '/' !in s
    ensures SlashCount(s) == 0
  {
    if s != "" {
      NoSlash(s[1..]);
    }
  }

  /** Every well-formed rendering has at least four slashes after its segments; exactly four when its file has none. */
  lemma RenderSlashes(g: Groups)
    requires WellFormed(g)
    ensures SlashCount(Render("", g)) >= 4
    ensures '/' !in g.database ==> SlashCount(Render("", g)) == 4
  {
    var f := FileText(g.database, g.second);
    SlashCountConcat(g.server + "/" + g.year + "/" + g.month + "/" + g.day + "/", f);
    SlashCountConcat(g.server + "/" + g.year + "/" + g.month + "/", g.day + "/");
    SlashCountConcat(g.server + "/" + g.year + "/", g.month + "/");
    SlashCountConcat(g.server + "/", g.year + "/");
    OneSlash(g.server);
    OneSlash(g.year);
    OneSlash(g.month);
    OneSlash(g.day);
    RenderPieces(g);
    if '/' !in g.database {
      NoSlash(f);
    }
  }

  lemma RenderPieces(g: Groups)
    ensures var r1 := g.server + "/" + (g.year + "/");
            var r2 := g.server + "/" + g.year + "/" + (g.month + "/");
            var r3 := g.server + "/" + g.year + "/" + g.month + "/" + (g.day + "/");
            r1 == g.server + "/" + g.year + "/"
            && r2 == g.server + "/" + g.year + "/" + g.month + "/"
            && r3 == g.server + "/" + g.year + "/" + g.month + "/" + g.day + "/"
            && Render("", g) == g.server + "/" + g.year + "/" + g.month + "/" + g.day + "/" + FileText(g.database, g.second)
  {
  }

  lemma OneSlash(s: string)
    requires '/' !in s
    ensures SlashCount(s + "/") == 1
  {
    SlashCountConcat(s, "/");
    NoSlash(s);
    assert "/"[1..] == "";
  }

  lemma {:induction false} SegmentsEnd(p: string)
    requires Segments(p) && p != ""
    ensures p[|p| - 1] == '/'
    decreases |p|
  {
    var (a, b) := TakeSegment(p).value;
    SegmentSplit(p);
    if b != "" {
      SegmentsEnd(b);
    }
  }

  lemma RenderSplit(p: string, g: Groups)
    ensures Render(p, g) == p + Render("", g)
  {
    RenderFront(p, g);
    RenderFront("", g);
  }

  lemma SuffixSlashes(p: string, x: string, q: string, y: string)
    requires p + x == q + y && |p| < |q| && q[|q| - 1] == '/'
    ensures SlashCount(y) < SlashCount(x)
  {
    var middle := q[|p|..|q| - 1];
    assert x == (p + x)[|p|..] == (q + y)[|p|..] == middle + ("/" + y);
    SlashCountConcat(middle, "/" + y);
    assert ("/" + y)[1..] == y;
  }

  /** A split whose database holds no slash has the longest segments of all. */
  lemma SlashFreeFileIsDeepest(key: string, p: string, g: Groups, q: string, h: Groups)
    requires Matches(key, p, g) && Matches(key, q, h) && '/' !in g.database
    ensures |q| <= |p|
  {
    RenderSplit(p, g);
    RenderSplit(q, h);
    RenderSlashes(g);
    RenderSlashes(h);
    if |q| > |p| {
      SegmentsEnd(q);
      SuffixSlashes(p, Render("", g), q, Render("", h));
    }
  }

  /** Two splits with the same segments have the same server and date, and the same text for the file. */
  lemma SameSegments(p: string, g: Groups, h: Groups)
    requires WellFormed(g) && WellFormed(h) && Render(p, g) == Render(p, h)
    ensures g.server == h.server && g.year == h.year && g.month == h.month && g.day == h.day
    ensures FileText(g.database, g.second) == FileText(h.database, h.second)
  {
    RenderFront(p, g);
    RenderFront(p, h);
    var g3, h3 := g.day + "/" + FileText(g.database, g.second), h.day + "/" + FileText(h.database, h.second);
    var g2, h2 := g.month + "/" + g3, h.month + "/" + h3;
    var g1, h1 := g.year + "/" + g2, h.year + "/" + h2;
    assert g.server + "/" + g1 == Render(p, g)[|p|..] == Render(p, h)[|p|..] == h.server + "/" + h1;
    TakeSegmentOf(g.server, g1);
    TakeSegmentOf(h.server, h1);
    TakeDigitsOf(g.year, g2, 4);
    TakeDigitsOf(h.year, h2, 4);
    TakeDigitsOf(g.month, g3, 2);
    TakeDigitsOf(h.month, h3, 2);
    TakeDigitsOf(g.day, FileText(g.database, g.second), 2);
    TakeDigitsOf(h.day, FileText(h.database, h.second), 2);
  }

  /** If the pattern allows a split with a slash-free database, Go's matching finds exactly that split. */
  lemma SlashFreeSplitIsFound(key: string, p: string, g: Groups)
    requires Matches(key, p, g) && '/' !in g.database
    ensures MatchKey(key) == Some((p, g))
  {
    MatchKeyPrefers(key, p, g);
    MatchKeySound(key);
    var (q, h) := MatchKey(key).value;
    SlashFreeFileIsDeepest(key, p, g, q, h);
    RenderSplit(p, g);
    RenderSplit(q, h);
    assert q == key[..|q|] == key[..|p|] == p;
    SameSegments(p, g, h);
    DigitsHaveNoDash(g.second);
    DigitsHaveNoDash(h.second);
    FileTextUnique(g.database, g.second, h.database, h.second);
  }

  /** A server and database name the key format can carry. */
  predicate PlainNames(serverID: string, databaseName: string) {
    && serverID != "" && '/' !in serverID
    && databaseName != "" && '/' !in databaseName && '\n' !in databaseName
  }

  lemma GroupsWellFormed(serverID: string, databaseName: string, t: Time)
    requires PlainNames(serverID, databaseName)
    ensures WellFormed(GroupsOf(serverID, databaseName, t)) <==> FourDigitYear(t) && 0 <= Unix(t)
  {
    YearTextIsFourDigits(LocalDate(t).year);
    if Unix(t) < 0 {
      assert !IsDigit(IntText(Unix(t))[0]);
    }
  }

  /** The documented extraction gives back what the key was printed from. */
  predicate ReadsBack(prefix: string, serverID: string, databaseName: string, t: Time) {
    var r := ExtractIntended(GenerateObjectKey(prefix, serverID, databaseName, t));
    r.Some? && r.value.server == serverID && r.value.database == databaseName
    && r.value.second.Some? && r.value.second.value == Unix(t)
  }

  /** A key that reads back to its own names reads back to all the parts it was printed from. */
  lemma SplitsAlike(key: string, p: string, g: Groups)
    requires key == Render(p, g) && MatchKey(key).Some?
    requires var h := MatchKey(key).value.1; h.server == g.server && h.database == g.database && '/' !in g.database
    requires '/' !in g.year && '/' !in g.month && '/' !in g.day && '/' !in g.second
    ensures MatchKey(key) == Some((p, g))
  {
    hide MatchKey, Segments, Render, AllDigits;
    var (q, h) := MatchKey(key).value;
    MatchKeySound(key);
    DigitsHaveNoDash(h.second);
    DigitsHaveNoDash(h.year);
    DigitsHaveNoDash(h.month);
    DigitsHaveNoDash(h.day);
    RenderUnique(p, g, q, h);
    SameEnds(p, q, g.server);
    SameMiddles(g.database + "-", g.second, h.second, ".enc");
  }

  lemma SameEnds(p: string, q: string, end: string)
    requires p + end == q + end
    ensures p == q
  {
    assert p == (p + end)[..|p|] && q == (q + end)[..|q|];
  }

  lemma SameMiddles(start: string, p: string, q: string, end: string)
    requires start + p + end == start + q + end
    ensures p == q
  {
    SameEnds(start + p, start + q, end);
    assert p == (start + p)[|start|..] && q == (start + q)[|start|..];
  }

  lemma KeyPartsHaveNoSlash(g: Groups, serverID: string, databaseName: string, t: Time)
    requires g == GroupsOf(serverID, databaseName, t)
    ensures '/' !in g.year && '/' !in g.month && '/' !in g.day && '/' !in g.second
  {
    YearTextIsFourDigits(LocalDate(t).year);
    DigitsHaveNoDash(Itoa(if Unix(t) < 0 then -Unix(t) else Unix(t)));
  }

  lemma WellPrintedReadsBack(prefix: string, serverID: string, databaseName: string, t: Time)
    requires PlainNames(serverID, databaseName)
    requires Segments(PrefixText(prefix)) && FourDigitYear(t) && 0 <= Unix(t) < INT64_LIMIT
    ensures ReadsBack(prefix, serverID, databaseName, t)
  {
    KeyIsRendered(prefix, serverID, databaseName, t);
    GroupsWellFormed(serverID, databaseName, t);
    SlashFreeSplitIsFound(GenerateObjectKey(prefix, serverID, databaseName, t), PrefixText(prefix), GroupsOf(serverID, databaseName, t));
    ItoaValue(Unix(t));
  }

  lemma ReadBackIsWellPrinted(prefix: string, serverID: string, databaseName: string, t: Time)
    requires PlainNames(serverID, databaseName) && ReadsBack(prefix, serverID, databaseName, t)
    ensures Segments(PrefixText(prefix)) && FourDigitYear(t) && 0 <= Unix(t) < INT64_LIMIT
  {
    var key := GenerateObjectKey(prefix, serverID, databaseName, t);
    var g := GroupsOf(serverID, databaseName, t);
    KeyIsRendered(prefix, serverID, databaseName, t);
    KeyPartsHaveNoSlash(g, serverID, databaseName, t);
    SplitsAlike(key, PrefixText(prefix), g);
    MatchKeySound(key);
    GroupsWellFormed(serverID, databaseName, t);
  }

  /**
   A key reads back to its server, database and second exactly when the prefix has no empty segment,
   the year has four digits and the second is not negative and fits an int64. Dashes in the names and
   date-like segments in the prefix do not matter.
   */
  lemma KeyRoundTrip(prefix: string, serverID: string, databaseName: string, t: Time)
    requires PlainNames(serverID, databaseName)
    ensures ReadsBack(prefix, serverID, databaseName, t)
       <==> (Segments(PrefixText(prefix)) && FourDigitYear(t) && 0 <= Unix(t) < 0x8000_0000_0000_0000)
  {
    if ReadsBack(prefix, serverID, databaseName, t) {
      ReadBackIsWellPrinted(prefix, serverID, databaseName, t);
    }
    if Segments(PrefixText(prefix)) && FourDigitYear(t) && 0 <= Unix(t) < INT64_LIMIT {
      WellPrintedReadsBack(prefix, serverID, databaseName, t);
    }
  }

  /** One key spelled out. */
  lemma KeyExample(t: Time)
    requires t == Time(86_401_500_000_000, 0)
    ensures GenerateObjectKey("prefix", "server", "db", t) == "prefix/server/1970/01/02/db-86401.enc"
    ensures GenerateObjectKey("", "server", "db", t) == "server/1970/01/02/db-86401.enc"
  {
    hide LocalDate, Pad, YearText, IntText;
    ExampleParts(t);
    TwoDigits();
    ExampleSecond(Unix(t));
    assert DateText(Date(1970, 1, 2), '/') == "1970/01/02";
  }

  lemma ExampleSecond(n: int)
    requires n == 86_401
    ensures IntText(n) == "86401"
  {
    assert Itoa(8) == "8" && Itoa(86) == "8" + "6" && Itoa(864) == "86" + "4" && Itoa(8640) == "864" + "0";
    assert Itoa(n) == Itoa(8640) + "1";
  }

  /** Under one prefix, two backups share a key only if server, database and second all agree. */
  lemma KeyInjective(prefix: string, s1: string, d1: string, t1: Time, s2: string, d2: string, t2: Time)
    requires PlainNames(s1, d1) && PlainNames(s2, d2) && 0 <= Unix(t1) && 0 <= Unix(t2)
    requires GenerateObjectKey(prefix, s1, d1, t1) == GenerateObjectKey(prefix, s2, d2, t2)
    ensures s1 == s2 && d1 == d2 && Unix(t1) == Unix(t2) && DateText(LocalDate(t1), '/') == DateText(LocalDate(t2), '/')
  {
    var p, g, h := PrefixText(prefix), GroupsOf(s1, d1, t1), GroupsOf(s2, d2, t2);
    KeyIsRendered(prefix, s1, d1, t1);
    KeyIsRendered(prefix, s2, d2, t2);
    KeyPartsHaveNoSlash(g, s1, d1, t1);
    KeyPartsHaveNoSlash(h, s2, d2, t2);
    RenderUnique(p, g, p, h);
    assert s1 == (p + s1)[|p|..] == (p + s2)[|p|..] == s2;
    DigitsHaveNoDash(g.second);
    DigitsHaveNoDash(h.second);
    FileTextUnique(d1, g.second, d2, h.second);
    IntTextInjective(Unix(t1), Unix(t2));
  }

  /** With four-digit years keys agree exactly if server, database, second and local date do. */
  lemma KeysAgree(prefix: string, s1: string, d1: string, t1: Time, s2: string, d2: string, t2: Time)
    requires PlainNames(s1, d1) && PlainNames(s2, d2) && 0 <= Unix(t1) && 0 <= Unix(t2) && FourDigitYear(t1) && FourDigitYear(t2)
    ensures GenerateObjectKey(prefix, s1, d1, t1) == GenerateObjectKey(prefix, s2, d2, t2)
       <==> (s1 == s2 && d1 == d2 && Unix(t1) == Unix(t2) && LocalDate(t1) == LocalDate(t2))
  {
    hide DateText, LocalDate, PlainNames;
    if GenerateObjectKey(prefix, s1, d1, t1) == GenerateObjectKey(prefix, s2, d2, t2) {
      KeyInjective(prefix, s1, d1, t1, s2, d2, t2);
      LocalDatesByText(t1, t2);
    }
  }

  lemma LocalDatesByText(a: Time, b: Time)
    requires FourDigitYear(a) && FourDigitYear(b)
    ensures Less(DateText(LocalDate(a), '/'), DateText(LocalDate(b), '/')) <==> Before(LocalDate(a), LocalDate(b))
    ensures DateText(LocalDate(a), '/') == DateText(LocalDate(b), '/') <==> LocalDate(a) == LocalDate(b)
    ensures |DateText(LocalDate(a), '/')| == 10
  {
    DateTextOrder(LocalDate(a), LocalDate(b), '/');
  }

  /** Before 1970 a name ending in a dash takes over the sign of another backup's second. */
  lemma NegativeSecondsCollide(prefix: string, serverID: string, databaseName: string, t1: Time, t2: Time)
    requires Unix(t2) == -Unix(t1) > 0 && LocalDate(t1) == LocalDate(t2)
    ensures GenerateObjectKey(prefix, serverID, databaseName, t1) == GenerateObjectKey(prefix, serverID, databaseName + "-", t2)
  {
    assert FileText(databaseName, IntText(Unix(t1))) == FileText(databaseName + "-", IntText(Unix(t2)));
  }

  // ---------------------------------------------------------------- key order

  lemma CommonStart(start: string, a: string, b: string)
    ensures Less(start + a, start + b) <==> Less(a, b)
  {
    LessConcat(start, a, start, b);
    LessTotal(start, start);
  }

  lemma SecondOrder(m: nat, n: nat)
    requires |Itoa(m)| == |Itoa(n)|
    ensures Less(Itoa(m) + ".enc", Itoa(n) + ".enc") <==> m < n
  {
    LessConcat(Itoa(m), ".enc", Itoa(n), ".enc");
    LessTotal(".enc", ".enc");
    ItoaOrder(m, n);
  }

  /** For one prefix, server and database, keys sort bytewise by local date and then by the text of the second. */
  lemma KeyOrder(prefix: string, serverID: string, databaseName: string, a: Time, b: Time)
    requires FourDigitYear(a) && FourDigitYear(b) && 0 <= Unix(a) && 0 <= Unix(b)
    ensures Less(GenerateObjectKey(prefix, serverID, databaseName, a), GenerateObjectKey(prefix, serverID, databaseName, b))
       <==> Before(LocalDate(a), LocalDate(b))
            || (LocalDate(a) == LocalDate(b) && Less(Itoa(Unix(a)) + ".enc", Itoa(Unix(b)) + ".enc"))
  {
    hide GenerateObjectKey, DateText, LocalDate, FourDigitYear, Itoa;
    var start := PrefixText(prefix) + serverID + "/";
    var ad, bd := DateText(LocalDate(a), '/'), DateText(LocalDate(b), '/');
    var middle := "/" + databaseName + "-";
    var az, bz := Itoa(Unix(a)) + ".enc", Itoa(Unix(b)) + ".enc";
    KeyInOrderedParts(prefix, serverID, databaseName, a);
    KeyInOrderedParts(prefix, serverID, databaseName, b);
    CommonStart(start, ad + (middle + az), bd + (middle + bz));
    LocalDatesByText(a, b);
    LocalDatesByText(b, a);
    LessConcat(ad, middle + az, bd, middle + bz);
    CommonStart(middle, az, bz);
  }

  /** A backup made no later than another, yet by the clocks of their zones on a later date. */
  predicate DateGoesBack(a: Time, b: Time) {
    Unix(a) <= Unix(b) && Before(LocalDate(b), LocalDate(a))
  }

  /** In one zone no date goes back. */
  lemma OneZoneGoesForward(a: Time, b: Time)
    requires FourDigitYear(a) && FourDigitYear(b) && a.offset == b.offset
    ensures !DateGoesBack(a, b)
  {
    LocalDateOrder(b, a);
  }

  lemma DatesCompare(a: Time, b: Time)
    requires FourDigitYear(a) && FourDigitYear(b)
    ensures Before(LocalDate(a), LocalDate(b)) || LocalDate(a) == LocalDate(b) || Before(LocalDate(b), LocalDate(a))
    ensures !(Before(LocalDate(a), LocalDate(b)) && Before(LocalDate(b), LocalDate(a)))
  {
    LocalDateOrder(a, b);
    LocalDateOrder(b, a);
  }

  /** With equally wide seconds an earlier backup's key sorts first exactly if the local date does not go back. */
  lemma KeyOrderFailsExactly(prefix: string, serverID: string, databaseName: string, a: Time, b: Time)
    requires FourDigitYear(a) && FourDigitYear(b)
    requires 0 <= Unix(a) < Unix(b) && |Itoa(Unix(a))| == |Itoa(Unix(b))|
    ensures Less(GenerateObjectKey(prefix, serverID, databaseName, a), GenerateObjectKey(prefix, serverID, databaseName, b))
       <==> !DateGoesBack(a, b)
  {
    hide GenerateObjectKey, LocalDate, FourDigitYear, Itoa;
    KeyOrder(prefix, serverID, databaseName, a, b);
    SecondOrder(Unix(a), Unix(b));
    DatesCompare(a, b);
  }

  /** So in one zone keys sort in the order of their seconds. */
  lemma KeyOrderIsTimeOrder(prefix: string, serverID: string, databaseName: string, a: Time, b: Time)
    requires FourDigitYear(a) && FourDigitYear(b) && a.offset == b.offset
    requires 0 <= Unix(a) && 0 <= Unix(b) && |Itoa(Unix(a))| == |Itoa(Unix(b))|
    ensures Less(GenerateObjectKey(prefix, serverID, databaseName, a), GenerateObjectKey(prefix, serverID, databaseName, b))
       <==> Unix(a) < Unix(b)
  {
    hide GenerateObjectKey, LocalDate, FourDigitYear, Itoa;
    KeyOrder(prefix, serverID, databaseName, a, b);
    SecondOrder(Unix(a), Unix(b));
    DatesCompare(a, b);
    OneZoneGoesForward(a, b);
    OneZoneGoesForward(b, a);
  }

  lemma KeyInOrderedParts(prefix: string, serverID: string, databaseName: string, t: Time)
    requires 0 <= Unix(t)
    ensures GenerateObjectKey(prefix, serverID, databaseName, t)
         == (PrefixText(prefix) + serverID + "/") + (DateText(LocalDate(t), '/') + (("/" + databaseName + "-") + (Itoa(Unix(t)) + ".enc")))
  {
  }

  lemma SameDateKeyOrder(prefix: string, serverID: string, databaseName: string, a: Time, b: Time)
    requires LocalDate(a) == LocalDate(b) && 0 <= Unix(a) && 0 <= Unix(b)
    ensures Less(GenerateObjectKey(prefix, serverID, databaseName, a), GenerateObjectKey(prefix, serverID, databaseName, b))
       <==> Less(Itoa(Unix(a)) + ".enc", Itoa(Unix(b)) + ".enc")
  {
    var start := PrefixText(prefix) + serverID + "/";
    var d := DateText(LocalDate(a), '/');
    var middle := "/" + databaseName + "-";
    var az, bz := Itoa(Unix(a)) + ".enc", Itoa(Unix(b)) + ".enc";
    KeyInOrderedParts(prefix, serverID, databaseName, a);
    KeyInOrderedParts(prefix, serverID, databaseName, b);
    CommonStart(start, d + (middle + az), d + (middle + bz));
    CommonStart(d, middle + az, middle + bz);
    CommonStart(middle, az, bz);
  }

  lemma SameDay(a: Time, b: Time)
    requires a.offset == b.offset == 0 && Unix(a) == 999_999_999 && Unix(b) == 1_000_000_000
    ensures LocalDate(a) == LocalDate(b)
  {
    hide DateOf;
  }

  /** Without equal widths it fails: the key of second 10^9 sorts before that of the second before it. */
  lemma WidthBreaksKeyOrder(prefix: string, serverID: string, databaseName: string, a: Time, b: Time)
    requires a.offset == b.offset == 0 && Unix(a) == 999_999_999 && Unix(b) == 1_000_000_000
    ensures Less(GenerateObjectKey(prefix, serverID, databaseName, b), GenerateObjectKey(prefix, serverID, databaseName, a))
  {
    hide GenerateObjectKey, LocalDate;
    SameDay(a, b);
    SameDateKeyOrder(prefix, serverID, databaseName, b, a);
    assert Itoa(999_999_999)[0] == '9' && Itoa(1_000_000_000)[0] == '1';
  }
}
