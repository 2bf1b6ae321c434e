/** The database helpers of tools/db_manager.py: the `.env` import done when the
    module is loaded, the client precondition, the upsert that keeps a stored
    bookmark, and the bookmark toggle. The Supabase client is the url-keyed table
    of `Store`; a failing call is an input (`Fault`), and an exception that
    escapes a helper is a `Failure`. */
module Database {
  import opened Wrappers
  import opened Schema
  import opened EnvFile
  import Store

  // ----- module load: lines 7-16 -----

  datatype ImportOutcome =
    | AlreadySet          // SUPABASE_URL was set, the file is not read
    | FileMissing         // FileNotFoundError: a warning, nothing else
    | Imported            // every line read
    | ImportRaised(line: nat)  // the line that raised: it could not be unpacked, or its write was refused; the import fails

  /** What loading the module does to the environment, given the `.env` file's
      lines (`None` when the file does not exist). */
  method ImportEnv(environ: Environ, file: Option<seq<string>>) returns (outcome: ImportOutcome)
    modifies environ
    ensures IsSet(old(environ.vars), "SUPABASE_URL") ==> outcome == AlreadySet && environ.vars == old(environ.vars)
    ensures !IsSet(old(environ.vars), "SUPABASE_URL") && file.None? ==>
              outcome == FileMissing && environ.vars == old(environ.vars)
    ensures !IsSet(old(environ.vars), "SUPABASE_URL") && file.Some? ==>
              var loaded := Load(old(environ.vars), Parse(file.value));
              environ.vars == loaded.vars &&
              outcome == if loaded.failedAt.None? then Imported else ImportRaised(loaded.failedAt.value)
  {
    if IsSet(environ.vars, "SUPABASE_URL") {
      return AlreadySet;
    }
    match file
    case None =>
      outcome := FileMissing;
    case Some(lines) =>
      var failedAt := environ.LoadLines(lines);
      outcome := if failedAt.None? then Imported else ImportRaised(failedAt.value);
  }

  // ----- get_client: lines 18-23 -----

  /** The two settings a client is made from. */
  datatype Client = Client(url: string, key: string)

  const CredentialsError: string := "Supabase URL and Key must be set in environment variables."

  /** Stands for the exception `create_client` raises when it refuses the
      settings; its checks and wording belong to the Supabase library, which is
      not part of this model. */
  const ClientError: string := "create_client refused the settings."

  /** `get_client()`: raises `ValueError` unless both settings are set and
      non-empty, and otherwise whatever `create_client` raises. `accepted` says
      whether `create_client` takes the two settings. */
  function GetClient(env: map<string, string>, accepted: bool): (r: Result<Client, string>)
    ensures r.Success? <==> IsSet(env, "SUPABASE_URL") && IsSet(env, "SUPABASE_KEY") && accepted
    ensures r.Success? ==> r.value.url == env["SUPABASE_URL"] && r.value.key == env["SUPABASE_KEY"]
    ensures r.Failure? && !(IsSet(env, "SUPABASE_URL") && IsSet(env, "SUPABASE_KEY")) ==> r.error == CredentialsError
    ensures r.Failure? && IsSet(env, "SUPABASE_URL") && IsSet(env, "SUPABASE_KEY") ==> r.error == ClientError
  {
    if !IsSet(env, "SUPABASE_URL") || !IsSet(env, "SUPABASE_KEY") then Failure(CredentialsError)
    else if !accepted then Failure(ClientError)
    else Success(Client(env["SUPABASE_URL"], env["SUPABASE_KEY"]))
  }

  // ----- upsert_article: lines 25-50 -----

  /** How the service answers one `upsert_article`; `ClientRefused` is
      `create_client` raising inside `get_client()`, before the `try`. */
  datatype Fault = Healthy | ClientRefused | SelectRaises | UpsertRaises | UpsertReturnsNothing

  /** The dict after the in-place `article_data["is_saved"] = …`, when the select ran. */
  function WithStoredFlag(rows: map<string, Article>, articleData: ArticleRecord): (r: ArticleRecord)
    ensures articleData.url in rows ==> r == articleData.(isSaved := Some(rows[articleData.url].isSaved))
    ensures articleData.url !in rows ==> r == articleData
  {
    if articleData.url in rows then articleData.(isSaved := Some(rows[articleData.url].isSaved)) else articleData
  }

  /** `upsert_article(article_data)`. `sent` is the caller's dict afterwards. A
      missing setting or a refused client raises out of the helper before the
      `try`; any other failure is caught and gives `None`. A row already stored under the url keeps its
      `is_saved`, whatever the dict carried. */
  method UpsertArticle(env: map<string, string>, table: Store.ArticlesTable, articleData: ArticleRecord, fault: Fault)
    returns (result: Result<Option<Article>, string>, sent: ArticleRecord)
    requires table.Valid()
    modifies table
    ensures table.Valid()
    ensures GetClient(env, fault != ClientRefused).Failure? ==>
              result == Failure(GetClient(env, fault != ClientRefused).error) && sent == articleData &&
              table.rows == old(table.rows)
    ensures result.Failure? <==> GetClient(env, fault != ClientRefused).Failure?
    ensures GetClient(env, true).Success? && fault != SelectRaises && fault != ClientRefused ==>
              sent == WithStoredFlag(old(table.rows), articleData)
    ensures GetClient(env, true).Success? && fault == SelectRaises ==> sent == articleData
    ensures GetClient(env, true).Success? && (fault == Healthy || fault == UpsertReturnsNothing) ==>
              articleData.url in table.rows &&
              table.rows == old(table.rows)[articleData.url := table.rows[articleData.url]] &&
              table.rows[articleData.url] ==
                Store.Merged(if articleData.url in old(table.rows) then Some(old(table.rows)[articleData.url]) else None,
                             old(table.nextId), sent)
    ensures fault in {ClientRefused, SelectRaises, UpsertRaises} ==> table.rows == old(table.rows)
    ensures result.Success? && result.value.Some? <==> GetClient(env, true).Success? && fault == Healthy
    ensures result.Success? && result.value.Some? ==> result.value.value == table.rows[articleData.url]
    ensures Store.SavedFlagsKept(old(table.rows), table.rows)
  {
    sent := articleData;
    var client := GetClient(env, fault != ClientRefused);
    if client.Failure? {
      return Failure(client.error), sent;
    }
    if fault == SelectRaises {
      return Success(None), sent;
    }
    var existing := table.SavedFlag(articleData.url);
    if existing.Some? {
      sent := sent.(isSaved := Some(existing.value));
    }
    if fault == UpsertRaises {
      return Success(None), sent;
    }
    var row := table.Upsert(sent);
    if fault == UpsertReturnsNothing {
      return Success(None), sent;
    }
    result := Success(Some(row));
  }

  /** A scraped record never carries `is_saved`; re-scraping a bookmarked article
      therefore leaves it bookmarked, and a new article starts unsaved. */
  method RescrapeKeepsBookmark(env: map<string, string>, table: Store.ArticlesTable, rec: ArticleRecord, fault: Fault)
    requires table.Valid()
    requires rec.isSaved.None?
    modifies table
    ensures Store.SavedFlagsKept(old(table.rows), table.rows)
    ensures rec.url !in old(table.rows) && rec.url in table.rows ==> !table.rows[rec.url].isSaved
    ensures |table.rows.Keys| <= |old(table.rows).Keys| + 1
  {
    var _, _ := UpsertArticle(env, table, rec, fault);
    if rec.url in table.rows && rec.url !in old(table.rows) {
      assert table.rows.Keys == old(table.rows).Keys + {rec.url};
    } else {
      assert table.rows.Keys <= old(table.rows).Keys + {rec.url};
    }
  }

  // ----- toggle_save_status: lines 68-83 -----

  /** `toggle_save_status(article_id, current_status)`: writes `not current_status`
      to the row with that id; `True` exactly when a row came back, `False` when
      the call raised. A missing setting, or `create_client` refusing the
      settings (`refused`), raises out of the helper. */
  method ToggleSaveStatus(env: map<string, string>, table: Store.ArticlesTable, articleId: int,
                          currentStatus: bool, refused: bool, raises: bool)
    returns (result: Result<bool, string>)
    requires table.Valid()
    modifies table
    ensures table.Valid()
    ensures GetClient(env, !refused).Failure? ==>
              result == Failure(GetClient(env, !refused).error) && table.rows == old(table.rows)
    ensures result.Failure? <==> GetClient(env, !refused).Failure?
    ensures GetClient(env, !refused).Success? && raises ==> result == Success(false) && table.rows == old(table.rows)
    ensures GetClient(env, !refused).Success? && !raises ==>
              table.rows == Store.WithSaved(old(table.rows), articleId, !currentStatus) &&
              result == Success(exists u :: u in old(table.rows) && old(table.rows)[u].id == articleId)
  {
    var client := GetClient(env, !refused);
    if client.Failure? {
      return Failure(client.error);
    }
    if raises {
      return Success(false);
    }
    var newStatus := !currentStatus;
    var matched := table.UpdateSaved(articleId, newStatus);
    result := Success(matched);
  }

  /** Two successful toggles of a row, each passing the flag it found, put the
      table back as it was. */
  method ToggleTwiceRestores(env: map<string, string>, table: Store.ArticlesTable, articleId: int, current: bool)
    requires table.Valid()
    requires GetClient(env, true).Success?
    requires forall u :: u in table.rows && table.rows[u].id == articleId ==> table.rows[u].isSaved == current
    modifies table
    ensures table.rows == old(table.rows)
  {
    var _ := ToggleSaveStatus(env, table, articleId, current, false, false);
    var _ := ToggleSaveStatus(env, table, articleId, !current, false, false);
    Store.WithSavedLastWins(old(table.rows), articleId, !current, current);
    Store.WithSavedUnchanged(old(table.rows), articleId, current);
  }
}
