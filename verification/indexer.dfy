/**
  The indexer of node/movies-service.js: `addToIndex` (lines 64-98) and the
  build loop that files every movie into the studios, genres and ratings
  indexes (lines 105-110).

  An index is a plain JavaScript object whose properties are created
  lazily; it is modelled as a map from key to entry together with the
  order in which the keys were first created.
 */
module Indexer {
  import opened Wrappers
  import opened Movies
  import opened CategoryKey

  /** One index entry: the movies filed under a key and their running totals. */
  datatype Entry = Entry(movies: seq<Movie>, totalRevenue: int, totalTickets: int)

  /** A category index: the entries by key, and the keys in creation order. */
  datatype Index = Index(order: seq<string>, entries: map<string, Entry>)

  /** The three indexes and the dataset, built once before any request is served. */
  datatype Snapshot = Snapshot(movies: seq<Movie>, studios: Index, genres: Index, ratings: Index)

  const EmptyEntry := Entry([], 0, 0)
  const EmptyIndex := Index([], map[])

  /** The entry for `k`, or the fresh entry `addToIndex` would create for it (lines 82-89). */
  function EntryOrEmpty(idx: Index, k: string): (r: Entry) {
    if k in idx.entries then idx.entries[k] else EmptyEntry
  }

  /** Files movie `m` into `idx` under its `c` key (lines 64-98). */
  function AddToIndex(idx: Index, m: Movie, c: Category): (r: Index)
    ensures CategoryKeyOf(m, c).None? ==> r == idx
    ensures CategoryKeyOf(m, c).Some? ==>
      var k := CategoryKeyOf(m, c).value;
      && r.entries.Keys == idx.entries.Keys + {k}
      && r.entries[k].movies == EntryOrEmpty(idx, k).movies + [m]
      && r.entries[k].totalRevenue == EntryOrEmpty(idx, k).totalRevenue + m.revenue
      && r.entries[k].totalTickets == EntryOrEmpty(idx, k).totalTickets + m.tickets
      && (forall k' :: k' in idx.entries && k' != k ==> r.entries[k'] == idx.entries[k'])
      && r.order == (if k in idx.entries then idx.order else idx.order + [k])
  {
    match CategoryKeyOf(m, c)
    case None => idx
    case Some(k) =>
      var e := EntryOrEmpty(idx, k);
      var e' := Entry(e.movies + [m], e.totalRevenue + m.revenue, e.totalTickets + m.tickets);
      Index(if k in idx.entries then idx.order else idx.order + [k], idx.entries[k := e'])
  }

  function SumRevenue(ms: seq<Movie>): (r: int) {
    if ms == [] then 0 else SumRevenue(ms[..|ms| - 1]) + ms[|ms| - 1].revenue
  }

  function SumTickets(ms: seq<Movie>): (r: int) {
    if ms == [] then 0 else SumTickets(ms[..|ms| - 1]) + ms[|ms| - 1].tickets
  }

  /** The movies of `ms` whose `c` key is `k`, in dataset order. */
  function Members(ms: seq<Movie>, c: Category, k: string): (r: seq<Movie>) {
    if ms == [] then []
    else
      var last := ms[|ms| - 1];
      Members(ms[..|ms| - 1], c, k) + (if CategoryKeyOf(last, c) == Some(k) then [last] else [])
  }

  /** Appending one movie extends each of the three folds by that movie alone. */
  lemma MembersSnoc(ms: seq<Movie>, m: Movie, c: Category, k: string)
    ensures Members(ms + [m], c, k) == Members(ms, c, k) + (if CategoryKeyOf(m, c) == Some(k) then [m] else [])
    ensures SumRevenue(ms + [m]) == SumRevenue(ms) + m.revenue
    ensures SumTickets(ms + [m]) == SumTickets(ms) + m.tickets
  {
    assert (ms + [m])[..|ms|] == ms;
  }

  predicate Distinct(s: seq<string>) {
    forall i, j :: 0 <= i < j < |s| ==> s[i] != s[j]
  }

  /** An entry filed under `k`: never empty, totals are sums, every member has key `k`. */
  predicate EntryWellFormed(e: Entry, c: Category, k: string) {
    && e.movies != []
    && e.totalRevenue == SumRevenue(e.movies)
    && e.totalTickets == SumTickets(e.movies)
    && forall m :: m in e.movies ==> CategoryKeyOf(m, c) == Some(k)
  }

  /** The invariant every index keeps between calls of `addToIndex`. */
  predicate WellFormed(idx: Index, c: Category) {
    && Distinct(idx.order)
    && (forall k :: k in idx.order ==> k in idx.entries)
    && (forall k :: k in idx.entries ==> k in idx.order)
    && forall k :: k in idx.entries ==> EntryWellFormed(idx.entries[k], c, k)
  }

  lemma AddToIndexPreservesWellFormed(idx: Index, m: Movie, c: Category)
    requires WellFormed(idx, c)
    ensures WellFormed(AddToIndex(idx, m, c), c)
  {
    if CategoryKeyOf(m, c).Some? {
      var k := CategoryKeyOf(m, c).value;
      var r := AddToIndex(idx, m, c);
      forall k' | k' in r.entries
        ensures EntryWellFormed(r.entries[k'], c, k')
      {
        if k' == k {
          GrownEntryWellFormed(EntryOrEmpty(idx, k), m, c, k);
        }
      }
      if k !in idx.entries {
        DistinctAppend(idx.order, k);
      }
    }
  }

  lemma GrownEntryWellFormed(e: Entry, m: Movie, c: Category, k: string)
    requires e == EmptyEntry || EntryWellFormed(e, c, k)
    requires CategoryKeyOf(m, c) == Some(k)
    ensures EntryWellFormed(Entry(e.movies + [m], e.totalRevenue + m.revenue, e.totalTickets + m.tickets), c, k)
  {
    var ms := e.movies + [m];
    assert ms[..|ms| - 1] == e.movies;
    assert SumRevenue(ms) == SumRevenue(e.movies) + m.revenue;
    assert SumTickets(ms) == SumTickets(e.movies) + m.tickets;
    forall m' | m' in ms
      ensures CategoryKeyOf(m', c) == Some(k)
    {
      if m' != m {
        assert m' in e.movies;
      }
    }
  }

  lemma DistinctAppend(s: seq<string>, k: string)
    requires Distinct(s) && k !in s
    ensures Distinct(s + [k])
  {
    forall i, j | 0 <= i < j < |s + [k]|
      ensures (s + [k])[i] != (s + [k])[j]
    {
      if j == |s| {
        assert (s + [k])[i] == s[i];
      }
    }
  }

  /** The index the build loop leaves for category `c` after filing every movie of `ms`. */
  function BuildIndex(ms: seq<Movie>, c: Category): (r: Index)
    ensures WellFormed(r, c)
  {
    if ms == [] then EmptyIndex
    else
      var prior := BuildIndex(ms[..|ms| - 1], c);
      AddToIndexPreservesWellFormed(prior, ms[|ms| - 1], c);
      AddToIndex(prior, ms[|ms| - 1], c)
  }

  /** The snapshot the server holds after start-up. */
  function Load(ms: seq<Movie>): (r: Snapshot) {
    Snapshot(ms, BuildIndex(ms, Studio), BuildIndex(ms, Genre), BuildIndex(ms, Rating))
  }

  /**
    The start-up loop (lines 105-110): one pass over the dataset filing each
    movie into all three indexes leaves each index equal to the fold over
    its own category alone.
   */
  method BuildIndexes(ms: seq<Movie>) returns (s: Snapshot)
    ensures s == Load(ms)
  {
    var studios, genres, ratings := EmptyIndex, EmptyIndex, EmptyIndex;
    var i := 0;
    while i < |ms|
      invariant 0 <= i <= |ms|
      invariant studios == BuildIndex(ms[..i], Studio)
      invariant genres == BuildIndex(ms[..i], Genre)
      invariant ratings == BuildIndex(ms[..i], Rating)
    {
      var movie := ms[i];
      assert ms[..i + 1][..i] == ms[..i];
      studios := AddToIndex(studios, movie, Studio);
      genres := AddToIndex(genres, movie, Genre);
      ratings := AddToIndex(ratings, movie, Rating);
      i := i + 1;
    }
    assert ms[..i] == ms;
    s := Snapshot(ms, studios, genres, ratings);
  }

  /**
    Entry `k` of a built index exists exactly when some movie has key `k`,
    and it lists exactly those movies, in dataset order.
   */
  lemma {:induction false} BuildIndexContents(ms: seq<Movie>, c: Category, k: string)
    ensures k in BuildIndex(ms, c).entries <==> Members(ms, c, k) != []
    ensures k in BuildIndex(ms, c).entries ==> BuildIndex(ms, c).entries[k].movies == Members(ms, c, k)
  {
    if ms != [] {
      BuildIndexContents(ms[..|ms| - 1], c, k);
    }
  }

  /** Every entry of a built index totals exactly its own member movies. */
  lemma BuildIndexTotals(ms: seq<Movie>, c: Category, k: string)
    requires k in BuildIndex(ms, c).entries
    ensures BuildIndex(ms, c).entries[k].totalRevenue == SumRevenue(Members(ms, c, k))
    ensures BuildIndex(ms, c).entries[k].totalTickets == SumTickets(Members(ms, c, k))
    ensures |BuildIndex(ms, c).entries[k].movies| > 0
  {
    BuildIndexContents(ms, c, k);
  }

  lemma {:induction false} MembersCount(ms: seq<Movie>, c: Category, k: string, m: Movie)
    ensures multiset(Members(ms, c, k))[m] == if CategoryKeyOf(m, c) == Some(k) then multiset(ms)[m] else 0
  {
    if ms != [] {
      var init, last := ms[..|ms| - 1], ms[|ms| - 1];
      MembersCount(init, c, k, m);
      assert ms == init + [last];
      assert multiset(ms) == multiset(init) + multiset{last};
      var tail := if CategoryKeyOf(last, c) == Some(k) then [last] else [];
      assert Members(ms, c, k) == Members(init, c, k) + tail;
      assert multiset(Members(ms, c, k)) == multiset(Members(init, c, k)) + multiset(tail);
    }
  }

  /**
    Every occurrence of a movie in the dataset is filed exactly once in the
    entry for its own key and in no other entry; a movie without a key is
    in no entry at all.
   */
  lemma MovieFiledOnce(ms: seq<Movie>, c: Category, m: Movie, k: string)
    requires m in ms
    ensures CategoryKeyOf(m, c) == Some(k) ==>
      k in BuildIndex(ms, c).entries && multiset(BuildIndex(ms, c).entries[k].movies)[m] == multiset(ms)[m]
    ensures CategoryKeyOf(m, c) != Some(k) && k in BuildIndex(ms, c).entries ==>
      m !in BuildIndex(ms, c).entries[k].movies
  {
    BuildIndexContents(ms, c, k);
    MembersCount(ms, c, k, m);
    if CategoryKeyOf(m, c) == Some(k) {
      assert m in multiset(Members(ms, c, k));
    } else if k in BuildIndex(ms, c).entries {
      assert m !in multiset(Members(ms, c, k));
    }
  }

  /**
    The keys of an index depend on its own category field only: datasets
    that agree on that field, position by position, give the same keys in
    the same order, whatever the other two fields hold.
   */
  lemma {:induction false} IndexKeysIndependent(ms1: seq<Movie>, ms2: seq<Movie>, c: Category)
    requires |ms1| == |ms2|
    requires forall i :: 0 <= i < |ms1| ==> FieldOf(ms1[i], c) == FieldOf(ms2[i], c)
    ensures BuildIndex(ms1, c).order == BuildIndex(ms2, c).order
    ensures BuildIndex(ms1, c).entries.Keys == BuildIndex(ms2, c).entries.Keys
  {
    if ms1 != [] {
      var n := |ms1| - 1;
      IndexKeysIndependent(ms1[..n], ms2[..n], c);
      AddSameKeySameKeys(BuildIndex(ms1[..n], c), BuildIndex(ms2[..n], c), ms1[n], ms2[n], c);
    }
  }

  lemma AddSameKeySameKeys(i1: Index, i2: Index, m1: Movie, m2: Movie, c: Category)
    requires i1.order == i2.order && i1.entries.Keys == i2.entries.Keys
    requires FieldOf(m1, c) == FieldOf(m2, c)
    ensures AddToIndex(i1, m1, c).order == AddToIndex(i2, m2, c).order
    ensures AddToIndex(i1, m1, c).entries.Keys == AddToIndex(i2, m2, c).entries.Keys
  {
    assert CategoryKeyOf(m1, c) == CategoryKeyOf(m2, c);
  }
}
