/**
  The route table of node/movies-service.js (lines 140-146) and the
  dispatch loop that tries its patterns in order (lines 223-236).

  Each regular expression is modelled by a hand-written matcher `Exec`
  over the path split at its slashes. The language each pattern accepts
  is stated independently by `Shape`, written as the string concatenations
  the expression allows, and `ExecShape` proves the two agree in both
  directions.

  The path is `url.parse(request.url).path`, which keeps the query string,
  so a path with a query matches no pattern unless the query sits inside
  the key segment.
 */
module Router {
  import opened Wrappers
  import opened Movies

  /** The index names the capture `(genres|studios|ratings)` accepts. */
  datatype IndexName = Genres | Studios | Ratings

  function NameText(n: IndexName): (r: string) {
    match n
    case Genres => "genres"
    case Studios => "studios"
    case Ratings => "ratings"
  }

  function ParseName(s: string): (r: Option<IndexName>) {
    if s == "genres" then Some(Genres)
    else if s == "studios" then Some(Studios)
    else if s == "ratings" then Some(Ratings)
    else None
  }

  /** `ParseName` accepts exactly the three names and inverts `NameText`. */
  lemma ParseNameText(s: string, n: IndexName)
    ensures ParseName(s) == Some(n) <==> s == NameText(n)
    ensures '/' !in NameText(n) && NameText(n) != []
  {
  }

  /** The category each index of the `indexes` object (lines 52-56) is keyed by. */
  function CategoryOf(n: IndexName): (r: Category) {
    match n
    case Genres => Genre
    case Studios => Studio
    case Ratings => Rating
  }

  /** A matched route with its captures. */
  datatype Route =
    | RootRoute
    | MoviesRoute
    | ListingRoute(index: IndexName)
    | EntryRoute(index: IndexName, key: string)
    | EntryMoviesRoute(index: IndexName, key: string)

  /** The five patterns of the route table. */
  datatype Pattern = RootPattern | MoviesPattern | ListingPattern | EntryPattern | EntryMoviesPattern

  /** The route table, in the order the dispatch loop tries it. */
  const Routes: seq<Pattern> := [RootPattern, MoviesPattern, ListingPattern, EntryPattern, EntryMoviesPattern]

  function PatternOf(r: Route): (pat: Pattern) {
    match r
    case RootRoute => RootPattern
    case MoviesRoute => MoviesPattern
    case ListingRoute(_) => ListingPattern
    case EntryRoute(_, _) => EntryPattern
    case EntryMoviesRoute(_, _) => EntryMoviesPattern
  }

  /** A `[^/]+` capture: non-empty and free of slashes. */
  predicate IsSegment(k: string) {
    k != [] && '/' !in k
  }

  /**
    The paths the pattern of `r` accepts with the captures `r` carries: the
    literal text of each regular expression, with the optional trailing
    `/?` written out as two alternatives.
   */
  predicate Shape(p: string, r: Route) {
    match r
    case RootRoute => p == "/"
    case MoviesRoute => p == "/movies" || p == "/movies/"
    case ListingRoute(n) =>
      var q := "/" + NameText(n);
      p == q || p == q + "/"
    case EntryRoute(n, k) =>
      var q := "/" + NameText(n) + "/" + k;
      IsSegment(k) && (p == q || p == q + "/")
    case EntryMoviesRoute(n, k) =>
      var q := "/" + NameText(n) + "/" + k + "/movies";
      IsSegment(k) && (p == q || p == q + "/")
  }

  /** The text between slashes, from left to right; `Split("")` is `[""]`. */
  function Split(s: string): (r: seq<string>)
    ensures |r| >= 1
    decreases |s|
  {
    if s == [] then [[]]
    else
      var rest := Split(s[1..]);
      if s[0] == '/' then [[]] + rest else [[s[0]] + rest[0]] + rest[1..]
  }

  /** The segments put back together with slashes between them. */
  function Join(segs: seq<string>): (r: string)
    requires |segs| >= 1
  {
    if |segs| == 1 then segs[0] else segs[0] + "/" + Join(segs[1..])
  }

  lemma {:induction false} SplitJoin(s: string)
    ensures Join(Split(s)) == s
    decreases |s|
  {
    if s != [] {
      var rest := Split(s[1..]);
      SplitJoin(s[1..]);
      if s[0] == '/' {
        assert Split(s)[1..] == rest;
      } else if |rest| == 1 {
        assert [s[0]] + s[1..] == s;
      } else {
        var r := Split(s);
        assert r[1..] == rest[1..];
        assert Join(rest) == rest[0] + "/" + Join(rest[1..]);
        assert Join(r) == ([s[0]] + rest[0]) + "/" + Join(rest[1..]);
        assert [s[0]] + s[1..] == s;
      }
    }
  }

  lemma {:induction false} SplitSegmentsHaveNoSlash(s: string)
    ensures forall i :: 0 <= i < |Split(s)| ==> '/' !in Split(s)[i]
    decreases |s|
  {
    if s != [] {
      SplitSegmentsHaveNoSlash(s[1..]);
    }
  }

  lemma {:induction false} SplitNoSlash(s: string)
    requires '/' !in s
    ensures Split(s) == [s]
    decreases |s|
  {
    if s != [] {
      SplitNoSlash(s[1..]);
      assert [s[0]] + s[1..] == s;
    }
  }

  lemma {:induction false} SplitConcat(a: string, b: string)
    requires '/' !in a
    ensures Split(a + "/" + b) == [a] + Split(b)
    decreases |a|
  {
    var s := a + "/" + b;
    if a == [] {
      assert s[1..] == b;
    } else {
      assert s[1..] == a[1..] + "/" + b;
      SplitConcat(a[1..], b);
      assert [a[0]] + a[1..] == a;
    }
  }

  /** Splitting undoes joining, for segments free of slashes: the partner of `SplitJoin`. */
  lemma {:induction false} JoinSplit(segs: seq<string>)
    requires |segs| >= 1
    requires forall i :: 0 <= i < |segs| ==> '/' !in segs[i]
    ensures Split(Join(segs)) == segs
  {
    if |segs| == 1 {
      SplitNoSlash(segs[0]);
    } else {
      JoinSplit(segs[1..]);
      SplitConcat(segs[0], Join(segs[1..]));
    }
  }

  /** The path with one trailing slash removed, as `/?$` allows. */
  function StripSlash(p: string): (r: string) {
    if p != [] && p[|p| - 1] == '/' then p[..|p| - 1] else p
  }

  /**
    What the three index patterns capture in common: the index name after
    the leading slash, and the slash-separated segments that follow it,
    once one trailing slash is dropped.
   */
  datatype Captures = Captures(index: IndexName, rest: seq<string>)

  function IndexCaptures(path: string): (r: Option<Captures>) {
    var body := StripSlash(path);
    if body == [] || body[0] != '/' then None
    else
      var segs := Split(body[1..]);
      match ParseName(segs[0])
      case None => None
      case Some(n) => Some(Captures(n, segs[1..]))
  }

  /** `pattern.exec(path)`: the captures, or `None` where `exec` returns null. */
  function Exec(pat: Pattern, path: string): (r: Option<Route>) {
    match pat
    case RootPattern => if path == "/" then Some(RootRoute) else None
    case MoviesPattern => if StripSlash(path) == "/movies" then Some(MoviesRoute) else None
    case ListingPattern =>
      var c := IndexCaptures(path);
      if c.Some? && c.value.rest == [] then Some(ListingRoute(c.value.index)) else None
    case EntryPattern =>
      var c := IndexCaptures(path);
      if c.Some? && |c.value.rest| == 1 && c.value.rest[0] != []
      then Some(EntryRoute(c.value.index, c.value.rest[0]))
      else None
    case EntryMoviesPattern =>
      var c := IndexCaptures(path);
      if c.Some? && |c.value.rest| == 2 && c.value.rest[0] != [] && c.value.rest[1] == "movies"
      then Some(EntryMoviesRoute(c.value.index, c.value.rest[0]))
      else None
  }

  lemma StripSlashOf(q: string)
    requires q != [] && q[|q| - 1] != '/'
    ensures StripSlash(q) == q
    ensures StripSlash(q + "/") == q
  {
    assert (q + "/")[..|q|] == q;
  }

  lemma {:induction false} LastOfJoin(segs: seq<string>)
    requires |segs| >= 1 && segs[|segs| - 1] != []
    ensures Join(segs) != [] && Join(segs)[|Join(segs)| - 1] == segs[|segs| - 1][|segs[|segs| - 1]| - 1]
  {
    if |segs| > 1 {
      LastOfJoin(segs[1..]);
    }
  }

  /** The path an index pattern's captures were taken from. */
  function CapturedPath(c: Captures): (r: string) {
    "/" + Join([NameText(c.index)] + c.rest)
  }

  lemma IndexCapturesSound(path: string)
    requires IndexCaptures(path).Some?
    ensures var c := IndexCaptures(path).value;
      && (path == CapturedPath(c) || path == CapturedPath(c) + "/")
      && forall i :: 0 <= i < |c.rest| ==> '/' !in c.rest[i]
  {
    var body := StripSlash(path);
    assert path == body || path == body + "/" by {
      if path != [] && path[|path| - 1] == '/' {
        assert path == path[..|path| - 1] + "/";
      }
    }
    var segs := Split(body[1..]);
    SplitJoin(body[1..]);
    SplitSegmentsHaveNoSlash(body[1..]);
    assert body == "/" + body[1..];
    var n := ParseName(segs[0]).value;
    ParseNameText(segs[0], n);
    assert [NameText(n)] + segs[1..] == segs;
    forall i | 0 <= i < |segs[1..]|
      ensures '/' !in segs[1..][i]
    {
      assert segs[1..][i] == segs[i + 1];
    }
  }

  lemma IndexCapturesComplete(path: string, c: Captures)
    requires forall i :: 0 <= i < |c.rest| ==> '/' !in c.rest[i]
    requires c.rest != [] ==> c.rest[|c.rest| - 1] != []
    requires path == CapturedPath(c) || path == CapturedPath(c) + "/"
    ensures IndexCaptures(path) == Some(c)
  {
    var segs := [NameText(c.index)] + c.rest;
    ParseNameText(NameText(c.index), c.index);
    forall i | 0 <= i < |segs|
      ensures '/' !in segs[i]
    {
      if i > 0 {
        assert segs[i] == c.rest[i - 1];
      }
    }
    var q := CapturedPath(c);
    var last := segs[|segs| - 1];
    assert last[|last| - 1] in last;
    LastOfJoin(segs);
    StripSlashOf(q);
    assert q[1..] == Join(segs);
    JoinSplit(segs);
    assert segs[1..] == c.rest;
  }

  lemma JoinPair(a: string, b: string)
    ensures Join([a, b]) == a + "/" + b
  {
    assert [a, b][1..] == [b];
  }

  lemma JoinTriple(a: string, b: string, d: string)
    ensures Join([a, b, d]) == a + "/" + b + "/" + d
  {
    assert [a, b, d][1..] == [b, d];
    JoinPair(b, d);
  }

  lemma StripSlashCases(p: string)
    ensures p == StripSlash(p) || p == StripSlash(p) + "/"
  {
    if p != [] && p[|p| - 1] == '/' {
      assert p == p[..|p| - 1] + "/";
    }
  }

  /** From a match back to the path: `Exec` accepts only paths of its shape. */
  lemma ExecSound(pat: Pattern, p: string)
    requires Exec(pat, p).Some?
    ensures PatternOf(Exec(pat, p).value) == pat && Shape(p, Exec(pat, p).value)
  {
    match pat
    case RootPattern =>
    case MoviesPattern => StripSlashCases(p);
    case ListingPattern => ListingSound(p);
    case EntryPattern => EntrySound(p);
    case EntryMoviesPattern => EntryMoviesSound(p);
  }

  lemma ListingSound(p: string)
    requires Exec(ListingPattern, p).Some?
    ensures Shape(p, ListingRoute(IndexCaptures(p).value.index))
  {
    IndexCapturesSound(p);
    var c := IndexCaptures(p).value;
    assert [NameText(c.index)] + c.rest == [NameText(c.index)];
  }

  lemma EntrySound(p: string)
    requires Exec(EntryPattern, p).Some?
    ensures Shape(p, EntryRoute(IndexCaptures(p).value.index, IndexCaptures(p).value.rest[0]))
  {
    IndexCapturesSound(p);
    var c := IndexCaptures(p).value;
    var name, k := NameText(c.index), c.rest[0];
    assert [name] + c.rest == [name, k];
    JoinPair(name, k);
    assert CapturedPath(c) == "/" + name + "/" + k;
    assert IsSegment(k);
  }

  lemma EntryMoviesSound(p: string)
    requires Exec(EntryMoviesPattern, p).Some?
    ensures Shape(p, EntryMoviesRoute(IndexCaptures(p).value.index, IndexCaptures(p).value.rest[0]))
  {
    IndexCapturesSound(p);
    var c := IndexCaptures(p).value;
    var name, k, m := NameText(c.index), c.rest[0], c.rest[1];
    assert [name] + c.rest == [name, k, m];
    JoinTriple(name, k, m);
    assert IsSegment(k);
    EntryMoviesPath(p, c.index, k, m);
  }

  lemma EntryMoviesPath(p: string, n: IndexName, k: string, m: string)
    requires m == "movies" && IsSegment(k)
    ensures var q := "/" + (NameText(n) + "/" + k + "/" + m);
      Shape(p, EntryMoviesRoute(n, k)) <==> p == q || p == q + "/"
  {
    var name := NameText(n);
    assert "/" + (name + "/" + k + "/" + m) == "/" + name + "/" + k + "/movies";
  }

  /** From the path to the match: every path of a route's shape is captured as that route. */
  lemma ExecComplete(p: string, r: Route)
    requires Shape(p, r)
    ensures Exec(PatternOf(r), p) == Some(r)
  {
    match r
    case RootRoute =>
    case MoviesRoute => StripSlashOf("/movies");
    case ListingRoute(n) => IndexCapturesComplete(p, Captures(n, []));
    case EntryRoute(n, k) => EntryComplete(p, n, k);
    case EntryMoviesRoute(n, k) => EntryMoviesComplete(p, n, k);
  }

  lemma EntryComplete(p: string, n: IndexName, k: string)
    requires Shape(p, EntryRoute(n, k))
    ensures IndexCaptures(p) == Some(Captures(n, [k]))
  {
    JoinPair(NameText(n), k);
    assert [NameText(n)] + [k] == [NameText(n), k];
    IndexCapturesComplete(p, Captures(n, [k]));
  }

  lemma EntryMoviesComplete(p: string, n: IndexName, k: string)
    requires Shape(p, EntryMoviesRoute(n, k))
    ensures IndexCaptures(p) == Some(Captures(n, [k, "movies"]))
  {
    var m := "movies";
    JoinTriple(NameText(n), k, m);
    EntryMoviesPath(p, n, k, m);
    assert [NameText(n)] + [k, m] == [NameText(n), k, m];
    assert m != [] && m[|m| - 1] != '/';
    IndexCapturesComplete(p, Captures(n, [k, m]));
  }

  /** Each pattern matches exactly the paths of its shape. */
  lemma ExecShape(pat: Pattern, p: string, r: Route)
    ensures Exec(pat, p) == Some(r) <==> PatternOf(r) == pat && Shape(p, r)
  {
    if Exec(pat, p) == Some(r) {
      ExecSound(pat, p);
    }
    if PatternOf(r) == pat && Shape(p, r) {
      ExecComplete(p, r);
    }
  }

  /**
    The dispatch loop (lines 223-236): the first pattern of the table whose
    `exec` succeeds, or `None` when none does and the server answers 404.
   */
  function FirstMatch(table: seq<Pattern>, p: string): (r: Option<Route>) {
    if table == [] then None
    else if Exec(table[0], p).Some? then Exec(table[0], p)
    else FirstMatch(table[1..], p)
  }

  /** `FirstMatch` returns the match of the earliest pattern that matches, and fails only when none does. */
  lemma {:induction false} FirstMatchSpec(table: seq<Pattern>, p: string)
    ensures FirstMatch(table, p).None? <==> forall i :: 0 <= i < |table| ==> Exec(table[i], p).None?
    ensures FirstMatch(table, p).Some? ==>
      exists i :: 0 <= i < |table| && Exec(table[i], p) == FirstMatch(table, p)
        && forall j :: 0 <= j < i ==> Exec(table[j], p).None?
  {
    if table != [] && Exec(table[0], p).None? {
      FirstMatchSpec(table[1..], p);
      var r := FirstMatch(table[1..], p);
      forall i | 0 < i < |table|
        ensures table[i] == table[1..][i - 1]
      {
      }
      if r.Some? {
        var i :| 0 <= i < |table[1..]| && Exec(table[1..][i], p) == r
          && forall j :: 0 <= j < i ==> Exec(table[1..][j], p).None?;
        assert Exec(table[i + 1], p) == r;
      }
    }
  }

  /** The route the server resolves a path to. */
  function Match(p: string): (r: Option<Route>) {
    FirstMatch(Routes, p)
  }

  /** No path matches two patterns of the table, so the order of the table never decides a route. */
  lemma PatternsDisjoint(p: string, a: Pattern, b: Pattern)
    requires Exec(a, p).Some? && Exec(b, p).Some?
    ensures a == b
  {
    if p == "/" {
      assert StripSlash(p) == [];
    } else if StripSlash(p) == "/movies" {
      MoviesNotIndexed(p);
    }
  }

  lemma MoviesNotIndexed(p: string)
    requires StripSlash(p) == "/movies"
    ensures IndexCaptures(p).None?
  {
    var m := "movies";
    assert StripSlash(p)[1..] == m;
    SplitNoSlash(m);
    assert ParseName(m).None?;
  }

  /** The router resolves a path to a route exactly when the path has that route's shape. */
  lemma MatchShape(p: string, r: Route)
    ensures Match(p) == Some(r) <==> Shape(p, r)
  {
    if Match(p) == Some(r) {
      FirstMatchSpec(Routes, p);
      var i :| 0 <= i < |Routes| && Exec(Routes[i], p) == Some(r);
      ExecSound(Routes[i], p);
    }
    if Shape(p, r) {
      ExecComplete(p, r);
      var pat := PatternOf(r);
      assert Routes[PatternIndex(pat)] == pat;
      FirstMatchSpec(Routes, p);
      var m := Match(p);
      assert m.Some?;
      var i :| 0 <= i < |Routes| && Exec(Routes[i], p) == m;
      PatternsDisjoint(p, Routes[i], pat);
    }
  }

  function PatternIndex(pat: Pattern): (i: nat)
    ensures i < |Routes| && Routes[i] == pat
  {
    match pat
    case RootPattern => 0
    case MoviesPattern => 1
    case ListingPattern => 2
    case EntryPattern => 3
    case EntryMoviesPattern => 4
  }

  lemma {:induction false} FirstMatchAgrees(table: seq<Pattern>, p1: string, p2: string)
    requires forall i :: 0 <= i < |table| ==> Exec(table[i], p1) == Exec(table[i], p2)
    ensures FirstMatch(table, p1) == FirstMatch(table, p2)
  {
    if table != [] {
      assert Exec(table[0], p1) == Exec(table[0], p2);
      forall i | 0 <= i < |table[1..]|
        ensures Exec(table[1..][i], p1) == Exec(table[1..][i], p2)
      {
        assert table[1..][i] == table[i + 1];
      }
      FirstMatchAgrees(table[1..], p1, p2);
    }
  }

  /** `/?$`: one trailing slash never changes the route. */
  lemma TrailingSlashIgnored(p: string)
    requires p != [] && p[|p| - 1] != '/'
    ensures Match(p + "/") == Match(p)
  {
    StripSlashOf(p);
    assert p + "/" != "/" by {
      assert |p + "/"| >= 2;
    }
    forall i | 0 <= i < |Routes|
      ensures Exec(Routes[i], p + "/") == Exec(Routes[i], p)
    {
    }
    FirstMatchAgrees(Routes, p + "/", p);
  }

  /**
    The key segment may be any text, `movies` included: `/genres/movies`
    is the entry `movies` of the genres index, not its list of movies.
   */
  lemma EntryNamedMovies(n: IndexName)
    ensures Match("/" + NameText(n) + "/movies") == Some(EntryRoute(n, "movies"))
  {
    var m := "movies";
    assert IsSegment(m);
    assert "/" + NameText(n) + "/movies" == "/" + NameText(n) + "/" + m;
    MatchShape("/" + NameText(n) + "/" + m, EntryRoute(n, m));
  }

  /**
    A query string is part of the path: appended to an index name it
    defeats every pattern, whatever it holds, and the request is answered
    as not found.
   */
  lemma QueryStringNotRouted(n: IndexName, q: string)
    ensures Match("/" + NameText(n) + "?" + q) == None
  {
    var p := "/" + NameText(n) + "?" + q;
    forall r: Route
      ensures !Shape(p, r)
    {
      QueryHasNoShape(n, q, r);
    }
    if Match(p).Some? {
      MatchShape(p, Match(p).value);
    }
  }

  lemma QueryHasNoShape(n: IndexName, q: string, r: Route)
    ensures !Shape("/" + NameText(n) + "?" + q, r)
  {
    var p := "/" + NameText(n) + "?" + q;
    match r
    case RootRoute =>
    case MoviesRoute =>
      assert p[1] == NameText(n)[0];
    case ListingRoute(n') =>
      var head := "/" + NameText(n');
      QueryNotUnderIndex(n, q, n', []);
      QueryNotUnderIndex(n, q, n', "/");
      assert head == head + [];
    case EntryRoute(n', k) =>
      var head := "/" + NameText(n');
      QueryNotUnderIndex(n, q, n', "/" + k);
      QueryNotUnderIndex(n, q, n', "/" + k + "/");
      assert head + "/" + k == head + ("/" + k);
      assert head + "/" + k + "/" == head + ("/" + k + "/");
    case EntryMoviesRoute(n', k) =>
      var head := "/" + NameText(n');
      QueryNotUnderIndex(n, q, n', "/" + k + "/movies");
      QueryNotUnderIndex(n, q, n', "/" + k + "/movies/");
      assert head + "/" + k + "/movies" == head + ("/" + k + "/movies");
      assert head + "/" + k + "/movies" + "/" == head + ("/" + k + "/movies/");
  }

  /**
    A path that continues an index name with `?` is not that or any other
    index name followed by nothing or by a slash: the names hold neither
    `?` nor `/`.
   */
  lemma QueryNotUnderIndex(n: IndexName, q: string, n': IndexName, t: string)
    requires t == [] || t[0] == '/'
    ensures "/" + NameText(n) + "?" + q != "/" + NameText(n') + t
  {
    var name, name' := NameText(n), NameText(n');
    var p, p' := "/" + name + "?" + q, "/" + name' + t;
    ParseNameText(name, n);
    ParseNameText(name', n');
    assert '?' !in name && '?' !in name';
    if |name| < |name'| {
      assert p[1 + |name|] == '?' != name'[|name|] == p'[1 + |name|];
    } else if |p| == |p'| {
      assert p'[1 + |name'|] == t[0] == '/';
      assert p[1 + |name'|] == if |name'| < |name| then name[|name'|] else '?';
    }
  }

  /**
    A query string written after the index name's trailing slash is a
    `[^/]+` capture, so the entry pattern takes it for the key.
   */
  lemma QueryAfterSlashIsKey(n: IndexName, q: string)
    requires '/' !in q
    ensures IsSegment("?" + q)
    ensures Match("/" + NameText(n) + "/?" + q) == Some(EntryRoute(n, "?" + q))
  {
    var k := "?" + q;
    assert forall i :: 0 <= i < |k| ==> k[i] == if i == 0 then '?' else q[i - 1];
    assert "/" + NameText(n) + "/?" + q == "/" + NameText(n) + "/" + k;
    MatchShape("/" + NameText(n) + "/" + k, EntryRoute(n, k));
  }
}
