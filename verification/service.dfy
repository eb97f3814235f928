/**
  The request handlers of node/movies-service.js (lines 150-207) and the
  request callback that routes a path to one of them (lines 212-241).

  A request is answered with one of three outcomes: 200 with a payload,
  404 when no route matches or the entry does not exist, and 500 when a
  handler throws, which for these handlers happens only when
  `decodeURIComponent` rejects the key segment. The bytes of the JSON
  body and the root page's file stream are not modelled; the payload
  says what the body carries.
 */
module Service {
  import opened Wrappers
  import opened Movies
  import opened CategoryKey
  import opened Indexer
  import opened UriComponent
  import opened Router

  /** What a 200 response carries. */
  datatype Payload =
    | RootPage
    | MovieList(movies: seq<Movie>)
    | KeyList(keys: seq<string>)
    | Summary(totalRevenue: int, totalTickets: int, numMovies: nat)

  datatype Outcome = Ok(payload: Payload) | NotFound | Fault

  /** The status `sendJSON`, `sendNotFound` and `sendError` write (lines 117-130). */
  function StatusCode(o: Outcome): (r: int) {
    match o
    case Ok(_) => 200
    case NotFound => 404
    case Fault => 500
  }

  /** `indexes[captures[1]]`. */
  function IndexOf(s: Snapshot, n: IndexName): (r: Index) {
    match n
    case Genres => s.genres
    case Studios => s.studios
    case Ratings => s.ratings
  }

  lemma IndexOfLoad(ms: seq<Movie>, n: IndexName)
    ensures IndexOf(Load(ms), n) == BuildIndex(ms, CategoryOf(n))
  {
  }

  /** `sendAllMovies` (lines 155-157). */
  function SendAllMovies(s: Snapshot): (r: Outcome) {
    Ok(MovieList(s.movies))
  }

  /** `sendIndexEntries` (lines 159-169): the keys of the index in creation order. */
  function SendIndexEntries(s: Snapshot, n: IndexName): (r: Outcome) {
    Ok(KeyList(IndexOf(s, n).order))
  }

  /**
    The entry both entry handlers look up (lines 176 and 200): `None` when
    the key segment does not decode, which the dispatch loop turns into a
    500. The decoded key is used as it is, without normalising it again.
   */
  function LookupEntry(s: Snapshot, n: IndexName, segment: string): (r: Option<Option<Entry>>) {
    match Decode(segment)
    case None => None
    case Some(k) => Some(if k in IndexOf(s, n).entries then Some(IndexOf(s, n).entries[k]) else None)
  }

  /** `sendIndexEntry` (lines 171-193): the totals and the number of movies, never the movies. */
  function SendIndexEntry(s: Snapshot, n: IndexName, segment: string): (r: Outcome) {
    match LookupEntry(s, n, segment)
    case None => Fault
    case Some(None) => NotFound
    case Some(Some(e)) => Ok(Summary(e.totalRevenue, e.totalTickets, |e.movies|))
  }

  /** `sendMoviesForEntry` (lines 195-207). */
  function SendMoviesForEntry(s: Snapshot, n: IndexName, segment: string): (r: Outcome) {
    match LookupEntry(s, n, segment)
    case None => Fault
    case Some(None) => NotFound
    case Some(Some(e)) => Ok(MovieList(e.movies))
  }

  /** The request callback: route the path, call the handler, 404 when nothing matches. */
  function Handle(s: Snapshot, path: string): (r: Outcome) {
    match Match(path)
    case None => NotFound
    case Some(RootRoute) => Ok(RootPage)
    case Some(MoviesRoute) => SendAllMovies(s)
    case Some(ListingRoute(n)) => SendIndexEntries(s, n)
    case Some(EntryRoute(n, k)) => SendIndexEntry(s, n, k)
    case Some(EntryMoviesRoute(n, k)) => SendMoviesForEntry(s, n, k)
  }

  /** A path no pattern accepts is answered 404 (line 239). */
  lemma UnroutedNotFound(s: Snapshot, path: string)
    requires forall r: Route :: !Shape(path, r)
    ensures Handle(s, path) == NotFound
    ensures StatusCode(Handle(s, path)) == 404
  {
    if Match(path).Some? {
      MatchShape(path, Match(path).value);
    }
  }

  /** The key segment of an entry route, if the path resolves to one. */
  function EntrySegment(path: string): (r: Option<string>) {
    match Match(path)
    case Some(EntryRoute(_, k)) => Some(k)
    case Some(EntryMoviesRoute(_, k)) => Some(k)
    case _ => None
  }

  /**
    A request fails with 500 exactly when it reaches an entry handler whose
    key segment `decodeURIComponent` rejects; no other request throws.
   */
  lemma FaultIff(s: Snapshot, path: string)
    ensures Handle(s, path) == Fault <==> EntrySegment(path).Some? && Decode(EntrySegment(path).value).None?
    ensures StatusCode(Handle(s, path)) == 500 <==> Handle(s, path) == Fault
  {
  }

  /**
    The movies of `ms` whose key in the index `n` is `k`: the reference the
    handlers are checked against.
   */
  function Filed(ms: seq<Movie>, n: IndexName, k: string): (r: seq<Movie>) {
    Members(ms, CategoryOf(n), k)
  }

  lemma {:induction false} MembersNonEmpty(ms: seq<Movie>, c: Category, k: string)
    ensures Members(ms, c, k) != [] <==> exists m :: m in ms && CategoryKeyOf(m, c) == Some(k)
  {
    if Members(ms, c, k) != [] {
      var m := Members(ms, c, k)[0];
      MembersCount(ms, c, k, m);
      assert m in multiset(Members(ms, c, k));
    }
    if exists m :: m in ms && CategoryKeyOf(m, c) == Some(k) {
      var m :| m in ms && CategoryKeyOf(m, c) == Some(k);
      MembersCount(ms, c, k, m);
      assert m in multiset(ms);
    }
  }

  /**
    `/genres/`, `/studios/` and `/ratings/` list every key some movie is
    filed under, each exactly once (lines 159-169).
   */
  lemma ListingKeys(ms: seq<Movie>, n: IndexName, k: string)
    ensures Handle(Load(ms), "/" + NameText(n)).Ok? && Handle(Load(ms), "/" + NameText(n)).payload.KeyList?
    ensures var keys := Handle(Load(ms), "/" + NameText(n)).payload.keys;
      && Distinct(keys)
      && (k in keys <==> exists m :: m in ms && CategoryKeyOf(m, CategoryOf(n)) == Some(k))
  {
    var p := "/" + NameText(n);
    MatchShape(p, ListingRoute(n));
    var idx := BuildIndex(ms, CategoryOf(n));
    BuildIndexContents(ms, CategoryOf(n), k);
    MembersNonEmpty(ms, CategoryOf(n), k);
  }

  /** The path of an entry whose key segment is `segment`, as it stands in the request. */
  function SegmentPath(n: IndexName, segment: string): (p: string) {
    "/" + NameText(n) + "/" + segment
  }

  /** Any `[^/]+` segment after an index name reaches the two entry handlers, whatever the snapshot. */
  lemma SegmentHandled(s: Snapshot, n: IndexName, segment: string)
    requires IsSegment(segment)
    ensures Handle(s, SegmentPath(n, segment)) == SendIndexEntry(s, n, segment)
    ensures Handle(s, SegmentPath(n, segment) + "/movies") == SendMoviesForEntry(s, n, segment)
  {
    MatchShape(SegmentPath(n, segment), EntryRoute(n, segment));
    MatchShape(SegmentPath(n, segment) + "/movies", EntryMoviesRoute(n, segment));
    HandleEntryRoutes(s, SegmentPath(n, segment), n, segment);
    HandleEntryRoutes(s, SegmentPath(n, segment) + "/movies", n, segment);
  }

  lemma HandleEntryRoutes(s: Snapshot, path: string, n: IndexName, segment: string)
    ensures Match(path) == Some(EntryRoute(n, segment)) ==> Handle(s, path) == SendIndexEntry(s, n, segment)
    ensures Match(path) == Some(EntryMoviesRoute(n, segment)) ==> Handle(s, path) == SendMoviesForEntry(s, n, segment)
  {
  }

  /**
    Looking up a segment that decodes to `k` finds the entry of exactly the
    movies filed under `k`, with their totals, and finds nothing when there
    are none.
   */
  lemma LookupDecoded(ms: seq<Movie>, n: IndexName, segment: string, k: string)
    requires Decode(segment) == Some(k)
    ensures LookupEntry(Load(ms), n, segment).Some?
    ensures var found := LookupEntry(Load(ms), n, segment).value;
      && (found.Some? <==> Filed(ms, n, k) != [])
      && (found.Some? ==>
            && found.value.movies == Filed(ms, n, k)
            && found.value.totalRevenue == SumRevenue(Filed(ms, n, k))
            && found.value.totalTickets == SumTickets(Filed(ms, n, k)))
  {
    IndexOfLoad(ms, n);
    BuildIndexContents(ms, CategoryOf(n), k);
    if Filed(ms, n, k) != [] {
      BuildIndexTotals(ms, CategoryOf(n), k);
    }
  }

  /**
    The summary for any key segment that decodes to `k` (`%61ction`,
    `%c3%a9` and `action` alike) reports the totals and the count of
    exactly the movies filed under `k`, or 404 when there are none.
   */
  lemma EntrySummary(ms: seq<Movie>, n: IndexName, segment: string, k: string)
    requires IsSegment(segment) && Decode(segment) == Some(k)
    ensures var ks := Filed(ms, n, k);
      Handle(Load(ms), SegmentPath(n, segment)) ==
        if ks == [] then NotFound else Ok(Summary(SumRevenue(ks), SumTickets(ks), |ks|))
  {
    SegmentHandled(Load(ms), n, segment);
    LookupDecoded(ms, n, segment, k);
  }

  /** The movies for any key segment that decodes to `k` are exactly the movies filed under `k`, in dataset order. */
  lemma EntryMovies(ms: seq<Movie>, n: IndexName, segment: string, k: string)
    requires IsSegment(segment) && Decode(segment) == Some(k)
    ensures var ks := Filed(ms, n, k);
      Handle(Load(ms), SegmentPath(n, segment) + "/movies") == if ks == [] then NotFound else Ok(MovieList(ks))
  {
    SegmentHandled(Load(ms), n, segment);
    LookupDecoded(ms, n, segment, k);
  }

  /** The path a client builds for an entry: the index name and the encoded key. */
  function EntryPath(n: IndexName, k: string): (p: string) {
    SegmentPath(n, Encode(k))
  }

  /** A client-built entry path is answered with the summary of its key. */
  lemma EntryPathSummary(ms: seq<Movie>, n: IndexName, k: string)
    requires k != []
    ensures var ks := Filed(ms, n, k);
      Handle(Load(ms), EntryPath(n, k)) ==
        if ks == [] then NotFound else Ok(Summary(SumRevenue(ks), SumTickets(ks), |ks|))
  {
    EncodeHasNoSlash(k);
    DecodeEncode(k);
    EntrySummary(ms, n, Encode(k), k);
  }

  /** A client-built entry path with `/movies` is answered with the movies of its key. */
  lemma EntryPathMovies(ms: seq<Movie>, n: IndexName, k: string)
    requires k != []
    ensures var ks := Filed(ms, n, k);
      Handle(Load(ms), EntryPath(n, k) + "/movies") == if ks == [] then NotFound else Ok(MovieList(ks))
  {
    EncodeHasNoSlash(k);
    DecodeEncode(k);
    EntryMovies(ms, n, Encode(k), k);
  }

  /**
    A query string written after the index name's trailing slash is
    captured as the entry key: it is decoded and looked up like any key,
    so it answers 404 unless some movie is filed under it, and 500 when it
    holds a malformed escape.
   */
  lemma QueryAfterSlash(ms: seq<Movie>, n: IndexName, q: string)
    requires '/' !in q
    ensures var p := "/" + NameText(n) + "/?" + q;
      match Decode("?" + q)
      case None => Handle(Load(ms), p) == Fault
      case Some(k) =>
        var ks := Filed(ms, n, k);
        Handle(Load(ms), p) == if ks == [] then NotFound else Ok(Summary(SumRevenue(ks), SumTickets(ks), |ks|))
  {
    var segment := "?" + q;
    assert "/" + NameText(n) + "/?" + q == SegmentPath(n, segment);
    assert IsSegment(segment) by {
      assert forall i :: 0 <= i < |segment| ==> segment[i] == if i == 0 then '?' else q[i - 1];
    }
    SegmentHandled(Load(ms), n, segment);
    if Decode(segment).Some? {
      EntrySummary(ms, n, segment, Decode(segment).value);
    }
  }

  /** `/` serves the root page, and only the exact path `/` does (lines 141 and 150-153). */
  lemma RootServed(s: Snapshot, p: string)
    ensures Handle(s, p) == Ok(RootPage) <==> p == "/"
  {
    MatchShape(p, RootRoute);
    if Match(p).Some? {
      MatchShape(p, Match(p).value);
    }
  }

  /** `/movies` returns the whole dataset. */
  lemma AllMovies(ms: seq<Movie>)
    ensures Handle(Load(ms), "/movies") == Ok(MovieList(ms))
  {
    MatchShape("/movies", MoviesRoute);
  }

  /** Every key a movie is filed under is trimmed and lower-case. */
  lemma UnnormalisedKeyNotFiled(ms: seq<Movie>, n: IndexName, k: string)
    requires !HasNoUpper(k) || !HasNoPadding(k)
    ensures Filed(ms, n, k) == []
  {
    MembersNonEmpty(ms, CategoryOf(n), k);
    if Filed(ms, n, k) != [] {
      var m :| m in ms && CategoryKeyOf(m, CategoryOf(n)) == Some(k);
      KeyOfShape(FieldOf(m, CategoryOf(n)));
    }
  }

  /**
    The handlers do not normalise the decoded key again, so a segment that
    decodes to a key with an upper-case letter or surrounding whitespace
    (`Action`, `%41ction`, `%20action`) is never found, even when its
    normalised form is.
   */
  lemma UnnormalisedKeyNotFound(ms: seq<Movie>, n: IndexName, segment: string, k: string)
    requires IsSegment(segment) && Decode(segment) == Some(k)
    requires !HasNoUpper(k) || !HasNoPadding(k)
    ensures Handle(Load(ms), SegmentPath(n, segment)) == NotFound
    ensures Handle(Load(ms), SegmentPath(n, segment) + "/movies") == NotFound
  {
    UnnormalisedKeyNotFiled(ms, n, k);
    EntrySummary(ms, n, segment, k);
    EntryMovies(ms, n, segment, k);
  }

  /** A key segment with a `%` not followed by two hex digits answers 500, wherever the `%` stands. */
  lemma MalformedEscapeFaults(s: Snapshot, n: IndexName, segment: string, i: int)
    requires '/' !in segment && BadEscapeAt(segment, i)
    ensures Handle(s, "/" + NameText(n) + "/" + segment) == Fault
    ensures Handle(s, "/" + NameText(n) + "/" + segment + "/movies") == Fault
  {
    SegmentHandled(s, n, segment);
    DecodeRejectsBadEscape(segment, i);
  }

  /** `/genres/?q=100%` routes to the summary handler with the key `?q=100%`, whose bare `%` throws. */
  lemma TrailingPercentQueryFaults(s: Snapshot)
    ensures Handle(s, "/genres/?q=100%") == Fault
  {
    var segment := "?q=100%";
    assert '/' !in segment && BadEscapeAt(segment, 6);
    MalformedEscapeFaults(s, Genres, segment, 6);
    assert SegmentPath(Genres, segment) == "/genres/?q=100%";
  }

  /** Two movies whose genre is written `Action` and ` action `. */
  const ActionMovies: seq<Movie> := [
    Movie("First", Absent, Text("Action"), Absent, 100, 10),
    Movie("Second", Absent, Text(" action "), Absent, 50, 5)
  ]

  lemma ActionMoviesFiled()
    ensures Filed(ActionMovies, Genres, "action") == ActionMovies
  {
    FirstActionKey();
    SecondActionKey();
    MembersOfPair(ActionMovies[0], ActionMovies[1], Genre, "action");
    assert ActionMovies == [ActionMovies[0], ActionMovies[1]];
  }

  lemma MembersOfPair(a: Movie, b: Movie, c: Category, k: string)
    requires CategoryKeyOf(a, c) == Some(k) && CategoryKeyOf(b, c) == Some(k)
    ensures Members([a, b], c, k) == [a, b]
    ensures SumRevenue([a, b]) == a.revenue + b.revenue && SumTickets([a, b]) == a.tickets + b.tickets
  {
    MembersSnoc([], a, c, k);
    MembersSnoc([a], b, c, k);
    assert [] + [a] == [a] && [a] + [b] == [a, b];
  }

  lemma FirstActionKey()
    ensures CategoryKeyOf(ActionMovies[0], Genre) == Some("action")
  {
    NormalizeAction();
    NormalizeCapitalAction();
  }

  lemma SecondActionKey()
    ensures CategoryKeyOf(ActionMovies[1], Genre) == Some("action")
  {
    NormalizeAction();
    NormalizePaddedAction();
  }

  /** `%61` is the escape of `a`, so `%61ction` is another spelling of the key `action`. */
  lemma EscapedActionDecoded()
    ensures Decode("%61ction") == Some("action")
  {
    var rest := "ction";
    assert '%' !in rest;
    EscapedLetterA(rest);
    assert "%61" + rest == "%61ction" && "a" + rest == "action";
  }

  lemma EscapedLetterA(rest: string)
    requires '%' !in rest
    ensures Decode("%61" + rest) == Some("a" + rest)
  {
    assert Utf8('a') == [0x61];
    DecodeEscapedSequence([0x61], 'a', rest);
    assert EscapeAll([0x61]) == "%61";
  }

  /**
    Both spellings are filed under one entry, which `/genres/action` and
    `/genres/%61ction` report with the summed totals, while
    `/genres/Action` is not found because the requested key is not
    normalised again.
   */
  lemma ActionSummary()
    ensures Handle(Load(ActionMovies), "/genres/action") == Ok(Summary(150, 15, 2))
    ensures Handle(Load(ActionMovies), "/genres/%61ction") == Ok(Summary(150, 15, 2))
    ensures Handle(Load(ActionMovies), "/genres/Action") == NotFound
  {
    PlainActionFound();
    EscapedActionFound();
    CapitalActionNotFound();
  }

  lemma ActionTotals()
    ensures ActionMovies != [] && Filed(ActionMovies, Genres, "action") == ActionMovies
    ensures SumRevenue(ActionMovies) == 150 && SumTickets(ActionMovies) == 15 && |ActionMovies| == 2
  {
    ActionMoviesFiled();
    PairTotals(ActionMovies);
  }

  lemma PairTotals(ms: seq<Movie>)
    requires |ms| == 2
    ensures SumRevenue(ms) == ms[0].revenue + ms[1].revenue && SumTickets(ms) == ms[0].tickets + ms[1].tickets
  {
    MembersSnoc([ms[0]], ms[1], Genre, "");
    assert [ms[0]] + [ms[1]] == ms;
  }

  lemma PlainActionFound()
    ensures Handle(Load(ActionMovies), "/genres/action") == Ok(Summary(150, 15, 2))
  {
    ActionTotals();
    EntryPathSummary(ActionMovies, Genres, "action");
    ActionPath();
  }

  lemma ActionPath()
    ensures EntryPath(Genres, "action") == "/genres/action"
  {
    assert forall i :: 0 <= i < |"action"| ==> IsUnreserved("action"[i]);
    EncodeUnreserved("action");
  }

  lemma EscapedActionFound()
    ensures Handle(Load(ActionMovies), "/genres/%61ction") == Ok(Summary(150, 15, 2))
  {
    ActionTotals();
    EscapedActionDecoded();
    EscapedActionPath();
    AllFiledFound(ActionMovies, "%61ction");
  }

  lemma EscapedActionPath()
    ensures IsSegment("%61ction")
    ensures SegmentPath(Genres, "%61ction") == "/genres/%61ction"
  {
    var seg := "%61ction";
    assert forall i :: 0 <= i < |seg| ==> seg[i] != '/';
  }

  /** When every movie is filed under `action`, a segment for `action` reports the whole dataset. */
  lemma AllFiledFound(ms: seq<Movie>, segment: string)
    requires ms != [] && Filed(ms, Genres, "action") == ms
    requires IsSegment(segment) && Decode(segment) == Some("action")
    ensures Handle(Load(ms), SegmentPath(Genres, segment)) == Ok(Summary(SumRevenue(ms), SumTickets(ms), |ms|))
  {
    EntrySummary(ms, Genres, segment, "action");
  }

  lemma CapitalActionNotFound()
    ensures Handle(Load(ActionMovies), "/genres/Action") == NotFound
  {
    UnnormalisedSegment(ActionMovies, "Action");
    CapitalActionPath();
  }

  lemma CapitalActionPath()
    ensures SegmentPath(Genres, "Action") == "/genres/Action"
  {
  }

  lemma UnnormalisedSegment(ms: seq<Movie>, k: string)
    requires k == "Action"
    ensures Handle(Load(ms), SegmentPath(Genres, k)) == NotFound
  {
    assert IsUpper(k[0]);
    UnnormalisedKeyNotFound(ms, Genres, k, k);
  }
}
