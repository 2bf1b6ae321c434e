/** The dashboard's page state (dashboard-agente/src/App.jsx): the fetched article
    list and its loading flag, the filter mode and the search text, with the views
    derived from them (the searched list, the three counters, the greeting). */
module Dashboard {
  import opened Wrappers
  import opened Text
  import opened Schema

  // ----- Search (`filteredArticles`) -----

  /** `query` occurs, ignoring case, in the title, the source or the summary (a
      missing summary reads as ""). */
  predicate MatchesQuery(a: Article, query: string) {
    var q := Lower(query);
    Contains(Lower(a.title), q) || Contains(Lower(a.source), q) || Contains(Lower(a.summary.GetOr("")), q)
  }

  /** The filter callback: an empty search text (`!searchQuery`) keeps every article. */
  predicate Kept(a: Article, searchQuery: string) {
    searchQuery == "" || MatchesQuery(a, searchQuery)
  }

  /** `articles.filter(...)`. */
  function FilterArticles(articles: seq<Article>, searchQuery: string): (r: seq<Article>)
    ensures |r| <= |articles|
    ensures forall a :: a in r <==> a in articles && Kept(a, searchQuery)
  {
    if articles == [] then []
    else (if Kept(articles[0], searchQuery) then [articles[0]] else []) + FilterArticles(articles[1..], searchQuery)
  }

  /** Filtering keeps each article as often as it occurs if it matches, and drops every copy otherwise. */
  lemma {:induction false} FilterMultiplicity(articles: seq<Article>, searchQuery: string, a: Article)
    ensures multiset(FilterArticles(articles, searchQuery))[a]
            == if Kept(a, searchQuery) then multiset(articles)[a] else 0
  {
    if articles != [] {
      FilterMultiplicity(articles[1..], searchQuery, a);
      assert articles == [articles[0]] + articles[1..];
    }
  }

  /** Filtering is done element by element, so it keeps the input order: filtering a
      concatenation is concatenating the filtered parts. */
  lemma {:induction false} FilterConcat(xs: seq<Article>, ys: seq<Article>, searchQuery: string)
    ensures FilterArticles(xs + ys, searchQuery) == FilterArticles(xs, searchQuery) + FilterArticles(ys, searchQuery)
  {
    if xs == [] {
      assert xs + ys == ys;
    } else {
      assert (xs + ys)[0] == xs[0] && (xs + ys)[1..] == xs[1..] + ys;
      FilterConcat(xs[1..], ys, searchQuery);
      var head := if Kept(xs[0], searchQuery) then [xs[0]] else [];
      assert FilterArticles(xs + ys, searchQuery) == head + FilterArticles(xs[1..] + ys, searchQuery);
    }
  }

  /** An empty search text gives back the list unchanged, in the same order. */
  lemma {:induction false} FilterEmptyQuery(articles: seq<Article>)
    ensures FilterArticles(articles, "") == articles
  {
    if articles != [] {
      FilterEmptyQuery(articles[1..]);
    }
  }

  /** Searching the search result again with the same text changes nothing. */
  lemma {:induction false} FilterIdempotent(articles: seq<Article>, searchQuery: string)
    ensures FilterArticles(FilterArticles(articles, searchQuery), searchQuery) == FilterArticles(articles, searchQuery)
  {
    if articles != [] {
      FilterIdempotent(articles[1..], searchQuery);
      var head := if Kept(articles[0], searchQuery) then [articles[0]] else [];
      FilterConcat(head, FilterArticles(articles[1..], searchQuery), searchQuery);
    }
  }

  /** A search text of blanks is not treated as empty: it filters on the blanks, so
      an article whose fields hold no space is dropped. */
  lemma WhitespaceQueryFilters()
    ensures FilterArticles([Article(1, "Alpha", "reddit", "https://a", None, 0, None, false, "")], " ") == []
  {
    assert Lower(" ") == [' '];
    NoBlankAfterLower("Alpha");
    NoBlankAfterLower("reddit");
    NoBlankAfterLower("");
  }

  /** Lower-casing never produces a blank, so a text without one does not contain " ". */
  lemma NoBlankAfterLower(s: string)
    requires ' ' !in s
    ensures !Contains(Lower(s), [' '])
  {
    ContainedCharOccurs(Lower(s), ' ');
    assert forall i :: 0 <= i < |s| ==> Lower(s)[i] == LowerChar(s[i]) != ' ';
  }

  /** The search ignores case: "A" finds the title "Alpha". */
  lemma SearchIgnoresCase()
    ensures var a := Article(1, "Alpha", "x", "https://a", None, 0, None, false, "");
            FilterArticles([a], "A") == [a]
  {
    var a := Article(1, "Alpha", "x", "https://a", None, 0, None, false, "");
    assert Lower("A") == "a";
    assert Lower(a.title)[0..1] == "a";
    assert OccursAt(Lower(a.title), "a", 0);
  }

  /** Searches that differ only in case keep the same articles. */
  lemma {:induction false} FilterIgnoresCase(articles: seq<Article>, q1: string, q2: string)
    requires Lower(q1) == Lower(q2)
    ensures FilterArticles(articles, q1) == FilterArticles(articles, q2)
  {
    assert |q1| == |Lower(q1)| == |Lower(q2)| == |q2|;
    if articles != [] {
      FilterIgnoresCase(articles[1..], q1, q2);
    }
  }

  // ----- Counters (`stats`) -----

  datatype Stats = Stats(total: nat, saved: nat, sources: nat)

  /** `articles.filter(a => a.is_saved).length`. */
  function CountSaved(articles: seq<Article>): (n: nat)
    ensures n <= |articles|
  {
    if articles == [] then 0 else (if articles[0].isSaved then 1 else 0) + CountSaved(articles[1..])
  }

  /** `new Set(articles.map(a => a.source))`. */
  function Sources(articles: seq<Article>): (r: set<string>)
    ensures forall s :: s in r <==> exists a :: a in articles && a.source == s
    ensures |r| <= |articles|
  {
    if articles == [] then {}
    else
      var rest := Sources(articles[1..]);
      assert |{articles[0].source} + rest| <= 1 + |rest|;
      {articles[0].source} + rest
  }

  /** The three counters: every saved article and every distinct source is counted
      among the articles. */
  function ComputeStats(articles: seq<Article>): (r: Stats)
    ensures r.total == |articles|
    ensures r.saved <= r.total && r.sources <= r.total
    ensures r.sources == 0 <==> articles == []
  {
    assert articles != [] ==> articles[0].source in Sources(articles);
    Stats(|articles|, CountSaved(articles), |Sources(articles)|)
  }

  /** Two articles from different sources, one saved: 2 in all, 1 saved, 2 sources. */
  lemma StatsExample()
    ensures ComputeStats([Article(1, "t1", "a", "u1", None, 0, None, false, ""),
                          Article(2, "t2", "b", "u2", None, 0, None, true, "")]) == Stats(2, 1, 2)
  {
    var xs := [Article(1, "t1", "a", "u1", None, 0, None, false, ""),
               Article(2, "t2", "b", "u2", None, 0, None, true, "")];
    assert xs[1..][1..] == [];
    assert Sources(xs) == {"a", "b"};
  }

  // ----- Greeting (`getGreeting`) -----

  /** The greeting for the local hour of the day (`getHours()`, 0..23). */
  function GetGreeting(hour: int): (g: string)
    ensures g == "Bom dia" <==> hour < 12
    ensures g == "Boa tarde" <==> 12 <= hour < 18
    ensures g == "Boa noite" <==> 18 <= hour
  {
    if hour < 12 then "Bom dia" else if hour < 18 then "Boa tarde" else "Boa noite"
  }

  // ----- Fetching (`fetchArticles`) -----

  datatype FilterMode = All | SavedOnly

  /** What `fetchArticles` asks of the table: every column of `table`, ordered by
      `orderBy` (descending unless `ascending`), optionally only rows whose
      `is_saved` equals `savedEquals`. */
  datatype Query = Query(table: string, orderBy: string, ascending: bool, savedEquals: Option<bool>)

  function BuildQuery(mode: FilterMode): (q: Query)
    ensures q.table == "articles" && q.orderBy == "published_at" && !q.ascending
    ensures q.savedEquals.Some? <==> mode == SavedOnly
    ensures q.savedEquals.Some? ==> q.savedEquals.value
  {
    var base := Query("articles", "published_at", false, None);
    if mode == SavedOnly then base.(savedEquals := Some(true)) else base
  }

  /** The row satisfies the query's `eq('is_saved', ...)` constraint, if any. */
  ghost predicate Admits(q: Query, a: Article) {
    q.savedEquals.None? || a.isSaved == q.savedEquals.value
  }

  /** `data` is a correct answer to `q` (ordered on `published_at`) over the table
      `rows`: each admitted row once, nothing else. */
  ghost predicate Answers(q: Query, rows: map<string, Article>, data: seq<Article>) {
    && (forall i, j :: 0 <= i < j < |data| ==>
          if q.ascending then data[i].publishedAt <= data[j].publishedAt
          else data[i].publishedAt >= data[j].publishedAt)
    && DistinctUrls(data)
    && (forall a :: a in data ==> a.url in rows && rows[a.url] == a && Admits(q, a))
    && (forall u :: u in rows && Admits(q, rows[u]) ==> rows[u] in data)
  }

  lemma {:induction false} CountSavedAllSaved(articles: seq<Article>)
    requires forall a :: a in articles ==> a.isSaved
    ensures CountSaved(articles) == |articles|
  {
    if articles != [] {
      CountSavedAllSaved(articles[1..]);
    }
  }

  /** The saved counter adds up over a split list, so it counts one per bookmarked article. */
  lemma {:induction false} CountSavedConcat(xs: seq<Article>, ys: seq<Article>)
    ensures CountSaved(xs + ys) == CountSaved(xs) + CountSaved(ys)
  {
    if xs == [] {
      assert xs + ys == ys;
    } else {
      assert (xs + ys)[0] == xs[0] && (xs + ys)[1..] == xs[1..] + ys;
      CountSavedConcat(xs[1..], ys);
    }
  }

  /** One article counts 1 exactly when it is bookmarked. */
  lemma CountSavedOne(a: Article)
    ensures CountSaved([a]) == if a.isSaved then 1 else 0
  {
    assert [a][1..] == [];
  }

  /** The saved counter equals the total exactly when every article is bookmarked. */
  lemma {:induction false} CountSavedFull(xs: seq<Article>)
    ensures CountSaved(xs) == |xs| <==> forall a :: a in xs ==> a.isSaved
  {
    if xs != [] {
      CountSavedFull(xs[1..]);
      assert forall a :: a in xs <==> a == xs[0] || a in xs[1..];
    }
  }

  /** In the "saved" view every listed article is saved, so the saved counter equals the total. */
  lemma SavedViewStats(rows: map<string, Article>, data: seq<Article>)
    requires Answers(BuildQuery(SavedOnly), rows, data)
    ensures forall a :: a in data ==> a.isSaved
    ensures ComputeStats(data).saved == ComputeStats(data).total
  {
    CountSavedAllSaved(data);
  }

  /** No two entries share a url (the table's key). */
  predicate DistinctUrls(data: seq<Article>) {
    forall i, j :: 0 <= i < j < |data| ==> data[i].url != data[j].url
  }

  function UrlSet(data: seq<Article>): (r: set<string>)
    ensures forall u :: u in r <==> exists a :: a in data && a.url == u
  {
    if data == [] then {} else UrlSet(data[1..]) + {data[0].url}
  }

  lemma DistinctTail(data: seq<Article>)
    requires data != [] && DistinctUrls(data)
    ensures DistinctUrls(data[1..])
    ensures data[0].url !in UrlSet(data[1..])
  {
    var rest := data[1..];
    assert forall j :: 0 <= j < |rest| ==> rest[j] == data[j + 1];
  }

  lemma AddOne(s: set<string>, x: string)
    requires x !in s
    ensures |s + {x}| == |s| + 1
  {
  }

  /** Distinct urls are as many as the entries. */
  lemma {:induction false} DistinctUrlsCount(data: seq<Article>)
    requires DistinctUrls(data)
    ensures |UrlSet(data)| == |data|
  {
    if data != [] {
      DistinctTail(data);
      DistinctUrlsCount(data[1..]);
      AddOne(UrlSet(data[1..]), data[0].url);
    }
  }

  /** In the "all" view the list holds exactly one entry per table row, so the
      total counter is the table's size. */
  lemma AllViewTotal(rows: map<string, Article>, data: seq<Article>)
    requires forall u :: u in rows ==> rows[u].url == u
    requires Answers(BuildQuery(All), rows, data)
    ensures ComputeStats(data).total == |rows|
  {
    DistinctUrlsCount(data);
    assert UrlSet(data) == rows.Keys by {
      forall u | u in rows ensures u in UrlSet(data) {
        assert rows[u] in data;
      }
    }
  }

  /** What the awaited query resolves to: rows (possibly `null`) or an error. */
  datatype FetchResponse = Fetched(data: Option<seq<Article>>) | FetchFailed(error: string)

  /** The state of `AppContent`. */
  class Dashboard {
    var articles: seq<Article>
    var loading: bool
    var filter: FilterMode
    var searchQuery: string

    constructor ()
      ensures articles == [] && loading && filter == All && searchQuery == ""
    {
      articles := [];
      loading := true;
      filter := All;
      searchQuery := "";
    }

    /** `fetchArticles` up to its `await`: raise the loading flag and send the query for the current filter. */
    method BeginFetch() returns (sent: Query)
      modifies this`loading
      ensures loading
      ensures sent == BuildQuery(filter)
    {
      loading := true;
      sent := BuildQuery(filter);
    }

    /** `fetchArticles` after its `await`: replace the list wholesale on success
        (`data || []`), keep it on error, and clear the loading flag either way. */
    method CompleteFetch(response: FetchResponse)
      modifies this`articles, this`loading
      ensures !loading
      ensures response.FetchFailed? ==> articles == old(articles)
      ensures response.Fetched? ==> articles == response.data.GetOr([])
    {
      if response.Fetched? {
        articles := response.data.GetOr([]);
      }
      loading := false;
    }

    /** One `fetchArticles` call whose query resolves with `response` before any other event. */
    method FetchArticles(response: FetchResponse) returns (sent: Query)
      modifies this`articles, this`loading
      ensures sent == BuildQuery(filter)
      ensures !loading
      ensures response.FetchFailed? ==> articles == old(articles)
      ensures response.Fetched? ==> articles == response.data.GetOr([])
    {
      sent := BeginFetch();
      CompleteFetch(response);
    }

    /** A filter button. React keeps the state when the mode is the current one,
        so the effect on `[filter]` runs, and fetches for the new mode, only when
        the mode changes; `sent` is the query it sends, if any. */
    method SetFilter(mode: FilterMode, response: FetchResponse) returns (sent: Option<Query>)
      modifies this`filter, this`articles, this`loading
      ensures filter == mode
      ensures mode == old(filter) ==> sent.None? && articles == old(articles) && loading == old(loading)
      ensures mode != old(filter) ==> sent == Some(BuildQuery(mode)) && !loading
      ensures mode != old(filter) && response.FetchFailed? ==> articles == old(articles)
      ensures mode != old(filter) && response.Fetched? ==> articles == response.data.GetOr([])
    {
      if mode == filter {
        return None;
      }
      filter := mode;
      var query := FetchArticles(response);
      sent := Some(query);
    }

    /** Typing in the search box. */
    method SetSearchQuery(text: string)
      modifies this`searchQuery
      ensures searchQuery == text
    {
      searchQuery := text;
    }

    /** The list the page renders. */
    function FilteredArticles(): (r: seq<Article>)
      reads this
      ensures forall a :: a in r <==> a in articles && Kept(a, searchQuery)
    {
      FilterArticles(articles, searchQuery)
    }

    /** The counters the page renders. */
    function CurrentStats(): (r: Stats)
      reads this
      ensures r.total == |articles| && r.saved <= r.total && r.sources <= r.total
    {
      ComputeStats(articles)
    }
  }
}
