/** The scrapers and the pipeline of tools/scraper_engine.py. Fetching a page and
    parsing its HTML are outside the model: a page arrives as its status code and
    the `<a>` elements the parser found, each with its `href` (if any), its text
    nodes and its markup. The clock reading that stamps `published_at` is the
    parameter `now`. */
module Scraper {
  import opened Wrappers
  import opened Text
  import opened Schema
  import Store
  import Database

  /** An `<a>` element: `href` is `None` when the attribute is absent. */
  datatype Anchor = Anchor(href: Option<string>, strings: seq<string>, markup: string)

  /** What `requests.get` gives: a response, or an exception. */
  datatype Page = Page(status: int, anchors: seq<Anchor>) | Unreachable

  /** `get_text()`: the text nodes joined. */
  function AllText(strings: seq<string>): string {
    if strings == [] then "" else AllText(strings[..|strings| - 1]) + strings[|strings| - 1]
  }

  /** `get_text(strip=True)`: every text node stripped, the empty ones dropped. */
  function StrippedText(strings: seq<string>): string {
    if strings == [] then "" else StrippedText(strings[..|strings| - 1]) + Strip(strings[|strings| - 1])
  }

  const MaxRecords: nat := 10

  /** `xs[:n]`. */
  function Take<T>(xs: seq<T>, n: nat): (r: seq<T>)
    ensures |r| == if |xs| <= n then |xs| else n
    ensures r == xs[..|r|]
  {
    if |xs| <= n then xs else xs[..n]
  }

  // ----- the dict comprehension `{a['url']: a for a in articles}.values()` -----

  function Urls(xs: seq<ArticleRecord>): (r: seq<string>)
    ensures |r| == |xs|
    ensures forall i :: 0 <= i < |xs| ==> r[i] == xs[i].url
  {
    seq(|xs|, i requires 0 <= i < |xs| => xs[i].url)
  }

  /** The dict's keys, in insertion order: a url is inserted when it is first seen. */
  function DictKeys(xs: seq<ArticleRecord>): (r: seq<string>)
    ensures |r| <= |xs|
    ensures forall i, j :: 0 <= i < j < |r| ==> r[i] != r[j]
    ensures forall u :: u in r <==> u in Urls(xs)
  {
    if xs == [] then []
    else
      var init := xs[..|xs| - 1];
      var keys := DictKeys(init);
      var u := xs[|xs| - 1].url;
      assert Urls(xs) == Urls(init) + [u];
      if u in keys then keys else keys + [u]
  }

  /** The dict's values: each key maps to the last record carrying it. */
  function DictValues(xs: seq<ArticleRecord>): (m: map<string, ArticleRecord>)
    ensures forall u :: u in m <==> u in Urls(xs)
    ensures forall u :: u in m ==> m[u].url == u && m[u] in xs
  {
    if xs == [] then map[]
    else
      var init := xs[..|xs| - 1];
      assert Urls(xs) == Urls(init) + [xs[|xs| - 1].url];
      assert forall x :: x in init ==> x in xs;
      DictValues(init)[xs[|xs| - 1].url := xs[|xs| - 1]]
  }

  /** `list({a['url']: a for a in xs}.values())`. */
  function Dedupe(xs: seq<ArticleRecord>): (r: seq<ArticleRecord>)
    ensures |r| <= |xs|
    ensures Urls(r) == DictKeys(xs)
    ensures forall k :: 0 <= k < |r| ==> r[k] in xs
  {
    var keys := DictKeys(xs);
    var values := DictValues(xs);
    seq(|keys|, i requires 0 <= i < |keys| => values[keys[i]])
  }

  /** The last record in `xs` whose url is `u`, if there is one. */
  function LastWith(xs: seq<ArticleRecord>, u: string): Option<ArticleRecord> {
    if xs == [] then None
    else if xs[|xs| - 1].url == u then Some(xs[|xs| - 1])
    else LastWith(xs[..|xs| - 1], u)
  }

  lemma {:induction false} ValuesAreLast(xs: seq<ArticleRecord>, u: string)
    ensures u in DictValues(xs) <==> LastWith(xs, u).Some?
    ensures u in DictValues(xs) ==> LastWith(xs, u) == Some(DictValues(xs)[u])
  {
    if xs != [] {
      ValuesAreLast(xs[..|xs| - 1], u);
    }
  }

  /** The position of the first `u` in `us`. */
  function FirstIndex(us: seq<string>, u: string): (i: nat)
    requires u in us
    ensures i < |us| && us[i] == u
    ensures forall j :: 0 <= j < i ==> us[j] != u
  {
    if us[0] == u then 0 else 1 + FirstIndex(us[1..], u)
  }

  lemma {:induction false} FirstIndexExtend(us: seq<string>, v: string, u: string)
    requires u in us
    ensures FirstIndex(us + [v], u) == FirstIndex(us, u)
  {
    if us[0] != u {
      assert (us + [v])[1..] == us[1..] + [v];
      FirstIndexExtend(us[1..], v, u);
    }
  }

  /** The dict keeps exactly one record per url of the batch: the last one with
      that url, at the place where the url first appeared. */
  lemma DedupeOnePerUrl(xs: seq<ArticleRecord>)
    ensures forall i, j :: 0 <= i < j < |Dedupe(xs)| ==> Dedupe(xs)[i].url != Dedupe(xs)[j].url
    ensures forall u :: u in Urls(Dedupe(xs)) <==> u in Urls(xs)
    ensures forall i :: 0 <= i < |Dedupe(xs)| ==> LastWith(xs, Dedupe(xs)[i].url) == Some(Dedupe(xs)[i])
  {
    var r := Dedupe(xs);
    forall i | 0 <= i < |r|
      ensures LastWith(xs, r[i].url) == Some(r[i])
    {
      ValuesAreLast(xs, DictKeys(xs)[i]);
    }
  }

  /** The kept records come in the order in which their urls first appear. */
  lemma {:induction false} DedupeFirstOccurrenceOrder(xs: seq<ArticleRecord>)
    ensures forall i, j :: 0 <= i < j < |DictKeys(xs)| ==>
              FirstIndex(Urls(xs), DictKeys(xs)[i]) < FirstIndex(Urls(xs), DictKeys(xs)[j])
  {
    if xs != [] {
      var init := xs[..|xs| - 1];
      var v := xs[|xs| - 1].url;
      DedupeFirstOccurrenceOrder(init);
      var keys := DictKeys(init);
      assert Urls(xs) == Urls(init) + [v];
      forall u | u in keys
        ensures FirstIndex(Urls(xs), u) == FirstIndex(Urls(init), u) < |init|
      {
        FirstIndexExtend(Urls(init), v, u);
      }
      if v !in keys {
        assert FirstIndex(Urls(xs), v) == |init|;
      }
    }
  }

  // ----- scrape_bens_bites: lines 22-65 -----

  const BensBitesSummary: string := "Scraped from Ben's Bites homepage."

  /** The heuristic of line 49. */
  predicate KeepsBensBitesLink(href: string, text: string) {
    |text| > 20 && Contains(href, "http") && !Contains(href, "bensbites")
  }

  /** A record `scrape_bens_bites` can produce at time `now`. */
  predicate IsBensBitesRecord(r: ArticleRecord, now: int) {
    && KeepsBensBitesLink(r.url, r.title) && r.source == "bens_bites"
    && r.summary == BensBitesSummary && r.publishedAt == now && r.isSaved.None?
  }

  /** The dict appended for a kept link. */
  function BensBitesRecord(href: string, a: Anchor, now: int): ArticleRecord {
    ArticleRecord(StrippedText(a.strings), href, "bens_bites", now, BensBitesSummary, a.markup, None)
  }

  /** The `articles` list after the loop over `anchors`; `find_all('a', href=True)`
      passes over anchors without an `href`. */
  function BensBitesCandidates(anchors: seq<Anchor>, now: int): (r: seq<ArticleRecord>)
    ensures |r| <= |anchors|
  {
    if anchors == [] then []
    else
      var prev := BensBitesCandidates(anchors[..|anchors| - 1], now);
      var a := anchors[|anchors| - 1];
      if a.href.Some? && KeepsBensBitesLink(a.href.value, StrippedText(a.strings)) then
        prev + [BensBitesRecord(a.href.value, a, now)]
      else prev
  }

  /** Every candidate is a kept link, labelled as Ben's Bites and stamped `now`. */
  lemma {:induction false} BensBitesCandidatesKept(anchors: seq<Anchor>, now: int)
    ensures forall k :: 0 <= k < |BensBitesCandidates(anchors, now)| ==>
              IsBensBitesRecord(BensBitesCandidates(anchors, now)[k], now)
  {
    if anchors != [] {
      var init := anchors[..|anchors| - 1];
      BensBitesCandidatesKept(init, now);
      var prev := BensBitesCandidates(init, now);
      var r := BensBitesCandidates(anchors, now);
      assert forall k :: 0 <= k < |prev| ==> IsBensBitesRecord(prev[k], now);
      if r != prev {
        assert r[..|prev|] == prev;
      }
    }
  }

  /** The loop is a filter: the candidates of two runs of anchors are those of the
      first run followed by those of the second. */
  lemma {:induction false} BensBitesCandidatesConcat(xs: seq<Anchor>, ys: seq<Anchor>, now: int)
    ensures BensBitesCandidates(xs + ys, now) == BensBitesCandidates(xs, now) + BensBitesCandidates(ys, now)
  {
    if ys == [] {
      assert xs + ys == xs;
    } else {
      var init := ys[..|ys| - 1];
      assert (xs + ys)[..|xs + ys| - 1] == xs + init;
      assert (xs + ys)[|xs + ys| - 1] == ys[|ys| - 1];
      BensBitesCandidatesConcat(xs, init, now);
    }
  }

  /** One anchor yields its record exactly when it has an `href` that passes the
      heuristic of line 49. */
  lemma BensBitesCandidatesOne(a: Anchor, now: int)
    ensures BensBitesCandidates([a], now) ==
              if a.href.Some? && KeepsBensBitesLink(a.href.value, StrippedText(a.strings))
              then [BensBitesRecord(a.href.value, a, now)] else []
  {
    assert [a][..0] == [];
  }

  /** What `scrape_bens_bites()` returns for a page. */
  function BensBitesResult(page: Page, now: int): seq<ArticleRecord> {
    if page.Unreachable? || page.status != 200 then []
    else Take(Dedupe(BensBitesCandidates(page.anchors, now)), MaxRecords)
  }

  /** `scrape_bens_bites()`. */
  method ScrapeBensBites(page: Page, now: int) returns (records: seq<ArticleRecord>)
    ensures records == BensBitesResult(page, now)
  {
    if page.Unreachable? || page.status != 200 {
      return [];
    }
    var anchors := page.anchors;
    var articles: seq<ArticleRecord> := [];
    for i := 0 to |anchors|
      invariant articles == BensBitesCandidates(anchors[..i], now)
    {
      assert anchors[..i + 1][..i] == anchors[..i];
      var link := anchors[i];
      if link.href.Some? {
        var href := link.href.value;
        var text := StrippedText(link.strings);
        if KeepsBensBitesLink(href, text) {
          articles := articles + [BensBitesRecord(href, link, now)];
        }
      }
    }
    assert anchors[..|anchors|] == anchors;
    records := Take(Dedupe(articles), MaxRecords);
  }

  /** At most ten records, one per url, each a link the heuristic kept and
      labelled as Ben's Bites; nothing at all unless the status is 200. */
  lemma BensBitesResultShape(page: Page, now: int)
    ensures |BensBitesResult(page, now)| <= MaxRecords
    ensures page.Unreachable? || page.status != 200 ==> BensBitesResult(page, now) == []
    ensures forall i, j :: 0 <= i < j < |BensBitesResult(page, now)| ==>
              BensBitesResult(page, now)[i].url != BensBitesResult(page, now)[j].url
    ensures forall r :: r in BensBitesResult(page, now) ==> IsBensBitesRecord(r, now)
  {
    if page.Page? && page.status == 200 {
      var xs := BensBitesCandidates(page.anchors, now);
      BensBitesCandidatesKept(page.anchors, now);
      DedupeOnePerUrl(xs);
      var d := Dedupe(xs);
      var t := Take(d, MaxRecords);
      assert forall k :: 0 <= k < |t| ==> t[k] == d[k];
      assert forall k :: 0 <= k < |d| ==> IsBensBitesRecord(d[k], now);
    }
  }

  /** Two links to one url: the second one's record is kept, in the first one's place. */
  lemma DuplicateUrlKeepsLast(a: ArticleRecord, b: ArticleRecord, c: ArticleRecord)
    requires a.url == c.url && a.url != b.url
    ensures Dedupe([a, b, c]) == [c, b]
  {
    DuplicateUrlKeys(a, b, c);
    DuplicateUrlValues(a, b, c);
  }

  lemma DuplicateUrlKeys(a: ArticleRecord, b: ArticleRecord, c: ArticleRecord)
    requires a.url == c.url && a.url != b.url
    ensures DictKeys([a, b, c]) == [a.url, b.url]
  {
    assert [a, b, c][..2] == [a, b] && [a, b][..1] == [a] && [a][..0] == [];
    assert DictKeys([a]) == [a.url];
    assert DictKeys([a, b]) == [a.url, b.url];
  }

  lemma DuplicateUrlValues(a: ArticleRecord, b: ArticleRecord, c: ArticleRecord)
    requires a.url == c.url && a.url != b.url
    ensures DictValues([a, b, c]) == map[a.url := c, b.url := b]
  {
    assert [a, b, c][..2] == [a, b] && [a, b][..1] == [a] && [a][..0] == [];
    var m := DictValues([a, b]);
    assert m == DictValues([a])[b.url := b] == map[][a.url := a][b.url := b];
    assert m[a.url := c] == map[a.url := c, b.url := b];
  }

  // ----- scrape_generic_tech_news: lines 67-94 -----

  const HackerNewsSummary: string := "Trending tech news."

  function HackerNewsRecord(href: string, a: Anchor, now: int): ArticleRecord {
    ArticleRecord(AllText(a.strings), href, "hacker_news_ai", now, HackerNewsSummary, a.markup, None)
  }

  predicate AllHaveHref(items: seq<Anchor>) {
    forall k :: 0 <= k < |items| ==> items[k].href.Some?
  }

  /** The `articles` list after the loop over `items`, all of which have an `href`. */
  function HackerNewsCandidates(items: seq<Anchor>, now: int): (r: seq<ArticleRecord>)
    requires AllHaveHref(items)
    ensures |r| <= |items|
  {
    if items == [] then []
    else
      var prev := HackerNewsCandidates(items[..|items| - 1], now);
      var a := items[|items| - 1];
      if Contains(a.href.value, "http") then prev + [HackerNewsRecord(a.href.value, a, now)] else prev
  }

  /** A record the Hacker News scraper can produce at time `now`. */
  predicate IsHackerNewsRecord(r: ArticleRecord, now: int) {
    Contains(r.url, "http") && r.source == "hacker_news_ai" &&
    r.summary == HackerNewsSummary && r.publishedAt == now && r.isSaved.None?
  }

  /** Every candidate links with "http" and is labelled `hacker_news_ai`. */
  lemma {:induction false} HackerNewsCandidatesKept(items: seq<Anchor>, now: int)
    requires AllHaveHref(items)
    ensures forall k :: 0 <= k < |HackerNewsCandidates(items, now)| ==>
              IsHackerNewsRecord(HackerNewsCandidates(items, now)[k], now)
  {
    if items != [] {
      var init := items[..|items| - 1];
      HackerNewsCandidatesKept(init, now);
      var prev := HackerNewsCandidates(init, now);
      var r := HackerNewsCandidates(items, now);
      assert forall k :: 0 <= k < |prev| ==> IsHackerNewsRecord(prev[k], now);
      if r != prev {
        assert r[..|prev|] == prev;
      }
    }
  }

  /** The loop is a filter: the candidates of two runs of items are those of the
      first run followed by those of the second. */
  lemma {:induction false} HackerNewsCandidatesConcat(xs: seq<Anchor>, ys: seq<Anchor>, now: int)
    requires AllHaveHref(xs) && AllHaveHref(ys)
    ensures AllHaveHref(xs + ys)
    ensures HackerNewsCandidates(xs + ys, now) == HackerNewsCandidates(xs, now) + HackerNewsCandidates(ys, now)
  {
    assert forall k :: 0 <= k < |xs + ys| ==> (xs + ys)[k] == if k < |xs| then xs[k] else ys[k - |xs|];
    if ys == [] {
      assert xs + ys == xs;
    } else {
      var init := ys[..|ys| - 1];
      assert (xs + ys)[..|xs + ys| - 1] == xs + init;
      assert (xs + ys)[|xs + ys| - 1] == ys[|ys| - 1];
      HackerNewsCandidatesConcat(xs, init, now);
    }
  }

  /** One item yields its record exactly when its `href` contains "http". */
  lemma HackerNewsCandidatesOne(a: Anchor, now: int)
    requires a.href.Some?
    ensures HackerNewsCandidates([a], now) ==
              if Contains(a.href.value, "http") then [HackerNewsRecord(a.href.value, a, now)] else []
  {
    assert [a][..0] == [];
  }

  /** How many of `items` link outside with "http". */
  function HttpCount(items: seq<Anchor>): nat
    requires AllHaveHref(items)
  {
    if items == [] then 0
    else HttpCount(items[..|items| - 1]) + if Contains(items[|items| - 1].href.value, "http") then 1 else 0
  }

  /** What `scrape_generic_tech_news()` returns: `item['href']` raises on an anchor
      without one, and the whole batch is then lost. */
  function HackerNewsResult(page: Page, now: int): seq<ArticleRecord> {
    if page.Unreachable? || !AllHaveHref(page.anchors) then []
    else Take(HackerNewsCandidates(page.anchors, now), MaxRecords)
  }

  /** `scrape_generic_tech_news()`. The status code is not looked at. */
  method ScrapeHackerNews(page: Page, now: int) returns (records: seq<ArticleRecord>)
    ensures records == HackerNewsResult(page, now)
  {
    if page.Unreachable? {
      return [];
    }
    var items := page.anchors;
    var articles: seq<ArticleRecord> := [];
    for i := 0 to |items|
      invariant AllHaveHref(items[..i])
      invariant articles == HackerNewsCandidates(items[..i], now)
    {
      assert items[..i + 1][..i] == items[..i];
      var item := items[i];
      if item.href.None? {
        return [];
      }
      var link := item.href.value;
      if Contains(link, "http") {
        articles := articles + [HackerNewsRecord(link, item, now)];
      }
    }
    assert items[..|items|] == items;
    records := Take(articles, MaxRecords);
  }

  lemma {:induction false} CandidatesCountHttp(items: seq<Anchor>, now: int)
    requires AllHaveHref(items)
    ensures |HackerNewsCandidates(items, now)| == HttpCount(items)
  {
    if items != [] {
      CandidatesCountHttp(items[..|items| - 1], now);
    }
  }

  /** The filter runs before the cut: the result holds ten records whenever ten
      items link with "http", however many items without it come first. */
  lemma HackerNewsFiltersThenTruncates(page: Page, now: int)
    requires page.Page? && AllHaveHref(page.anchors)
    ensures |HackerNewsResult(page, now)| == if HttpCount(page.anchors) <= MaxRecords then HttpCount(page.anchors) else MaxRecords
    ensures forall r :: r in HackerNewsResult(page, now) ==> IsHackerNewsRecord(r, now)
  {
    CandidatesCountHttp(page.anchors, now);
    HackerNewsCandidatesKept(page.anchors, now);
    var xs := HackerNewsCandidates(page.anchors, now);
    var t := Take(xs, MaxRecords);
    assert forall k :: 0 <= k < |t| ==> t[k] == xs[k];
  }

  /** One anchor without `href` empties the batch, whatever the others are. */
  lemma MissingHrefLosesBatch(page: Page, now: int, k: nat)
    requires page.Page? && k < |page.anchors| && page.anchors[k].href.None?
    ensures HackerNewsResult(page, now) == []
  {
  }

  // ----- run_pipeline: lines 96-113 -----

  /** The fault the service shows for the `i`-th upsert; no entry means a healthy call. */
  function FaultAt(faults: seq<Database.Fault>, i: nat): Database.Fault {
    if i < |faults| then faults[i] else Database.Healthy
  }

  /** How many of the first `n` upserts return a row. */
  function Returned(faults: seq<Database.Fault>, n: nat): nat {
    if n == 0 then 0 else Returned(faults, n - 1) + if FaultAt(faults, n - 1) == Database.Healthy then 1 else 0
  }

  lemma {:induction false} ReturnedAtMost(faults: seq<Database.Fault>, n: nat)
    ensures Returned(faults, n) <= n
  {
    if n > 0 {
      ReturnedAtMost(faults, n - 1);
    }
  }

  /** The `i`-th upsert raises out of `upsert_article`: a setting is missing, or
      `create_client` refuses the settings. */
  predicate UpsertRaisesAt(env: map<string, string>, faults: seq<Database.Fault>, i: nat) {
    Database.GetClient(env, FaultAt(faults, i) != Database.ClientRefused).Failure?
  }

  /** Some upsert raises exactly when there is a record and either a setting is
      missing, which the first upsert already meets, or some call refuses the
      client. */
  lemma UpsertRaisesSomewhere(env: map<string, string>, faults: seq<Database.Fault>, n: nat)
    ensures (exists i :: 0 <= i < n && UpsertRaisesAt(env, faults, i)) <==>
              n > 0 && (Database.GetClient(env, true).Failure? ||
                        exists i :: 0 <= i < n && FaultAt(faults, i) == Database.ClientRefused)
  {
    if n > 0 && Database.GetClient(env, true).Failure? {
      assert UpsertRaisesAt(env, faults, 0);
    }
    if exists i :: 0 <= i < n && FaultAt(faults, i) == Database.ClientRefused {
      var i :| 0 <= i < n && FaultAt(faults, i) == Database.ClientRefused;
      assert UpsertRaisesAt(env, faults, i);
    }
    if exists i :: 0 <= i < n && UpsertRaisesAt(env, faults, i) {
      var i :| 0 <= i < n && UpsertRaisesAt(env, faults, i);
      assert Database.GetClient(env, true).Failure? || FaultAt(faults, i) == Database.ClientRefused;
    }
  }

  /** The upsert loop of `run_pipeline()` over `collected`: the number of upserts
      that returned a row, or the exception raised by the first upsert that
      raises, which ends the run. */
  method UpsertAll(env: map<string, string>, table: Store.ArticlesTable, collected: seq<ArticleRecord>,
                   faults: seq<Database.Fault>)
    returns (count: Result<nat, string>)
    requires table.Valid()
    modifies table
    ensures table.Valid()
    ensures count.Failure? <==> exists i :: 0 <= i < |collected| && UpsertRaisesAt(env, faults, i)
    ensures count.Failure? ==> Database.GetClient(env, true).Failure? ==> count.error == Database.CredentialsError
    ensures count.Success? ==> count.value == Returned(faults, |collected|) <= |collected|
    ensures count.Success? ==>
              forall i :: 0 <= i < |collected| && FaultAt(faults, i) in {Database.Healthy, Database.UpsertReturnsNothing} ==>
                collected[i].url in table.rows
    ensures Store.SavedFlagsKept(old(table.rows), table.rows)
  {
    var n := 0;
    for i := 0 to |collected|
      invariant table.Valid()
      invariant n == Returned(faults, i)
      invariant forall k :: 0 <= k < i ==> !UpsertRaisesAt(env, faults, k)
      invariant forall k :: 0 <= k < i && FaultAt(faults, k) in {Database.Healthy, Database.UpsertReturnsNothing} ==>
                  collected[k].url in table.rows
      invariant Store.SavedFlagsKept(old(table.rows), table.rows)
    {
      var result, _ := Database.UpsertArticle(env, table, collected[i], FaultAt(faults, i));
      if result.Failure? {
        assert UpsertRaisesAt(env, faults, i);
        return Failure(result.error);
      }
      if result.value.Some? {
        n := n + 1;
      }
    }
    ReturnedAtMost(faults, |collected|);
    count := Success(n);
  }

  /** `run_pipeline()`: `collected` is `all_articles`, the Ben's Bites records
      followed by the Hacker News ones, and `count` the number of upserts that
      returned a row. */
  method RunPipeline(env: map<string, string>, table: Store.ArticlesTable, bensPage: Page, hnPage: Page,
                     now: int, faults: seq<Database.Fault>)
    returns (collected: seq<ArticleRecord>, count: Result<nat, string>)
    requires table.Valid()
    modifies table
    ensures table.Valid()
    ensures collected == BensBitesResult(bensPage, now) + HackerNewsResult(hnPage, now)
    ensures count.Failure? <==> exists i :: 0 <= i < |collected| && UpsertRaisesAt(env, faults, i)
    ensures count.Success? ==> count.value == Returned(faults, |collected|)
    ensures |collected| <= 2 * MaxRecords
    ensures count.Success? ==> count.value <= |collected|
    ensures Store.SavedFlagsKept(old(table.rows), table.rows)
  {
    var bens := ScrapeBensBites(bensPage, now);
    var hn := ScrapeHackerNews(hnPage, now);
    BensBitesResultShape(bensPage, now);
    collected := bens + hn;
    count := UpsertAll(env, table, collected, faults);
  }
}
