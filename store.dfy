/** The remote `articles` table, reduced to what the clients rely on: one row per
    `url` (the upsert conflict key), a table-assigned `id`, and point updates of
    `is_saved` by `id`. The table itself belongs to the database service; this
    module states the behaviour the two clients assume of it. */
module Store {
  import opened Wrappers
  import opened Schema

  /** The row an upsert on conflict `url` leaves behind: the sent columns
      overwrite the stored ones, columns absent from the dict keep their stored
      value, and a new row gets a fresh id and the column default `false` for
      `is_saved`. */
  function Merged(existing: Option<Article>, freshId: int, rec: ArticleRecord): (row: Article)
    ensures row.url == rec.url && row.title == rec.title && row.source == rec.source
    ensures row.summary == Some(rec.summary) && row.publishedAt == rec.publishedAt
    ensures row.rawHtml == rec.rawHtml
    ensures existing.Some? ==> row.id == existing.value.id && row.imageUrl == existing.value.imageUrl
    ensures existing.None? ==> row.id == freshId && row.imageUrl == None
    ensures rec.isSaved.Some? ==> row.isSaved == rec.isSaved.value
    ensures rec.isSaved.None? ==> row.isSaved == (existing.Some? && existing.value.isSaved)
  {
    match existing
    case Some(stored) =>
      Article(stored.id, rec.title, rec.source, rec.url, Some(rec.summary), rec.publishedAt,
              stored.imageUrl, rec.isSaved.GetOr(stored.isSaved), rec.rawHtml)
    case None =>
      Article(freshId, rec.title, rec.source, rec.url, Some(rec.summary), rec.publishedAt,
              None, rec.isSaved.GetOr(false), rec.rawHtml)
  }

  /** The table after `update({is_saved: v}).eq('id', id)`. */
  function WithSaved(rows: map<string, Article>, id: int, v: bool): (r: map<string, Article>)
    ensures r.Keys == rows.Keys
    ensures forall u :: u in rows && rows[u].id == id ==> r[u] == rows[u].(isSaved := v)
    ensures forall u :: u in rows && rows[u].id != id ==> r[u] == rows[u]
  {
    map u | u in rows :: if rows[u].id == id then rows[u].(isSaved := v) else rows[u]
  }

  /** Of two flag writes to the same id, the later one is what remains. */
  lemma WithSavedLastWins(rows: map<string, Article>, id: int, first: bool, second: bool)
    ensures WithSaved(WithSaved(rows, id, first), id, second) == WithSaved(rows, id, second)
  {
  }

  /** Writing the flag a row already holds changes nothing, so toggling from
      `current` and then from `!current` restores a row that held `current`. */
  lemma WithSavedUnchanged(rows: map<string, Article>, id: int, v: bool)
    requires forall u :: u in rows && rows[u].id == id ==> rows[u].isSaved == v
    ensures WithSaved(rows, id, v) == rows
  {
    var r := WithSaved(rows, id, v);
    assert forall u :: u in rows ==> r[u] == rows[u];
  }

  /** No row has disappeared and no row's bookmark flag has changed. */
  ghost predicate SavedFlagsKept(before: map<string, Article>, after: map<string, Article>) {
    forall u :: u in before ==> u in after && after[u].isSaved == before[u].isSaved
  }

  class ArticlesTable {
    /** The rows, keyed by the unique `url` column. */
    var rows: map<string, Article>
    /** The id the table hands to the next inserted row. */
    var nextId: int

    ghost predicate Valid()
      reads this
    {
      && (forall u :: u in rows ==> rows[u].url == u && rows[u].id < nextId)
      && (forall u, v :: u in rows && v in rows && u != v ==> rows[u].id != rows[v].id)
    }

    constructor ()
      ensures Valid() && rows == map[]
    {
      rows := map[];
      nextId := 1;
    }

    /** `select("is_saved").eq("url", url)`: the stored flag, if a row has that url. */
    function SavedFlag(url: string): (r: Option<bool>)
      reads this
      ensures r.Some? <==> url in rows
      ensures r.Some? ==> r.value == rows[url].isSaved
    {
      if url in rows then Some(rows[url].isSaved) else None
    }

    /** `upsert(rec, on_conflict="url")`: returns the row as stored. */
    method Upsert(rec: ArticleRecord) returns (row: Article)
      requires Valid()
      modifies this
      ensures Valid()
      ensures row == Merged(if rec.url in old(rows) then Some(old(rows)[rec.url]) else None, old(nextId), rec)
      ensures rows == old(rows)[rec.url := row]
    {
      var existing := if rec.url in rows then Some(rows[rec.url]) else None;
      row := Merged(existing, nextId, rec);
      if existing.None? {
        nextId := nextId + 1;
      }
      rows := rows[rec.url := row];
    }

    /** `update({"is_saved": v}).eq("id", id)`: `matched` tells whether any row came back. */
    method UpdateSaved(id: int, v: bool) returns (matched: bool)
      requires Valid()
      modifies this
      ensures Valid() && nextId == old(nextId)
      ensures rows == WithSaved(old(rows), id, v)
      ensures matched <==> exists u :: u in old(rows) && old(rows)[u].id == id
    {
      matched := exists u :: u in rows && rows[u].id == id;
      rows := WithSaved(rows, id, v);
    }
  }
}
