# Agente de notícias de IA, modelled in Dafny

The system gathers AI news and shows it on a dashboard:

- A Python scraper (`tools/scraper_engine.py`) reads the Ben's Bites archive and the Hacker News front page. It keeps at most ten links from each source and upserts them into the Supabase `articles` table through `tools/db_manager.py`. The upsert is keyed on the url and never clears a reader's bookmark.
- `tools/verify_supabase.py` checks that the credentials in `.env` reach that table.
- A React dashboard (`dashboard-agente`) fetches the table newest first, optionally only the bookmarked rows. It filters them by a free-text search and shows counters. Each card lets the reader bookmark or un-bookmark an article, with an optimistic flip and a rollback when the write fails. Each card also draws either the article's picture or a placeholder coloured from a hash of its title. Toasts report the outcome and disappear after three seconds.

The model has one Dafny module per source concern:

| module | models |
|---|---|
| `Wrappers` | `Option` and `Result` |
| `Text` | the JavaScript and Python string built-ins the core relies on: `includes`, `toLowerCase`, `strip`, UTF-16 code units |
| `Schema` | an `articles` row, and the dictionary the scraper builds for one |
| `Store` | the `articles` table as a url-keyed map, the behaviour both clients assume of it |
| `Dashboard` | `App.jsx` |
| `Card` | `ArticleCard.jsx` |
| `Toasts` | `Toast.jsx` |
| `Placeholder` | `ArticleImage.jsx` |
| `EnvFile` | the `.env` reader that `db_manager.py` and `verify_supabase.py` both carry |
| `Database` | `db_manager.py` |
| `Verify` | `verify_supabase.py` |
| `Scraper` | `scraper_engine.py` |

Code that changes state in place is modelled with classes and `modifies` clauses:

| class | models |
|---|---|
| `Dashboard.Dashboard` | the page's React state |
| `Card.ArticleCard` | a card's `isSaved` state |
| `Toasts.ToastCenter` | the toast list and its timers |
| `EnvFile.Environ` | `os.environ` |
| `Store.ArticlesTable` | the database table |

The hash loop and the loops over `.env` lines and scraped records are methods with loop invariants. Each is proved against a specification function. Everything else is functions, with lemmas about them.

Behaviour that follows the code rather than what a reader might expect:

- A search made only of blanks is not treated as empty. It keeps only the articles whose text contains a blank (`Dashboard.WhitespaceQueryFilters`).
- A failed bookmark write rolls the card back to `!newStatus`. If the reader clicks again before the first write resolves, the rollback can contradict the latest click (`Card.SupersededRollback`).
- Toast ids are `Date.now()`. Two toasts raised in the same millisecond share an id, and the first timer removes both (`Toasts.SameMillisecondCollision`).

## Model

| member | source | states |
|---|---|---|
| `Text.Contains` | dashboard-agente/src/App.jsx:50-52 | `includes` is true exactly when the needle occurs at some position of the text |
| `Text.Lower` | dashboard-agente/src/App.jsx:48 | the model of `toLowerCase` maps character by character and keeps the length: ASCII and Latin-1 capitals become lower case, every other character is left as it is |
| `Text.StripStart` | tools/db_manager.py:12-13 | the result is a suffix of the input, every character dropped is Python whitespace, and the result does not start with whitespace |
| `Text.StripEnd` | tools/db_manager.py:12-13 | the result is a prefix of the input, every character dropped is Python whitespace, and the result does not end with whitespace |
| `Text.Strip` | tools/db_manager.py:12-13 | `str.strip()` never lengthens the line, and what it returns neither starts nor ends with Python whitespace |
| `Text.StripEmptyIffBlank` | tools/db_manager.py:12 | `line.strip()` is empty exactly when every character of the line is whitespace, both directions |
| `Text.Utf16` | dashboard-agente/src/components/ArticleImage.jsx:8-9 | `charCodeAt` sees one or two 16-bit code units per character |
| `Dashboard.FilterArticles` | dashboard-agente/src/App.jsx:46-54 | an article is in the filtered list exactly when it is in the input and either the search is empty or the lower-cased query occurs in its lower-cased title, source or summary; the list is never longer than the input |
| `Dashboard.MatchesQuery` | dashboard-agente/src/App.jsx:48-53 | the lower-cased query occurs in the lower-cased title, source or summary, a missing summary reading as empty |
| `Dashboard.Kept` | dashboard-agente/src/App.jsx:47-53 | the filter callback: an empty search keeps every article, any other keeps those `MatchesQuery` accepts |
| `Dashboard.FilterMultiplicity` | dashboard-agente/src/App.jsx:46-54 | each kept article appears as often as in the input; each dropped one never appears |
| `Dashboard.FilterConcat` | dashboard-agente/src/App.jsx:46-54 | filtering keeps the fetched order: filtering a concatenation is concatenating the filtered parts |
| `Dashboard.FilterEmptyQuery` | dashboard-agente/src/App.jsx:47 | an empty search returns the fetched list unchanged |
| `Dashboard.FilterIdempotent` | dashboard-agente/src/App.jsx:46-54 | filtering twice by the same search is filtering once |
| `Dashboard.WhitespaceQueryFilters` | dashboard-agente/src/App.jsx:47-53 | a one-blank search is not empty: it drops an article whose text holds no blank |
| `Dashboard.SearchIgnoresCase` | dashboard-agente/src/App.jsx:48-50 | one example: the search "A" keeps the article titled "Alpha" |
| `Dashboard.FilterIgnoresCase` | dashboard-agente/src/App.jsx:48-53 | two searches with the same lower-cased text keep exactly the same articles, in the same order |
| `Dashboard.CountSaved` | dashboard-agente/src/App.jsx:58 | the saved counter never exceeds the number of articles |
| `Dashboard.CountSavedConcat` | dashboard-agente/src/App.jsx:58 | the saved counter of a list is the sum of the counters of its parts |
| `Dashboard.CountSavedOne` | dashboard-agente/src/App.jsx:58 | one article counts 1 exactly when it is bookmarked, so with the previous row the counter is the number of bookmarked articles |
| `Dashboard.CountSavedFull` | dashboard-agente/src/App.jsx:56-58 | saved equals total exactly when every listed article is bookmarked, both directions |
| `Dashboard.Sources` | dashboard-agente/src/App.jsx:59 | the set of sources is exactly the sources of the listed articles, at most one per article |
| `Dashboard.ComputeStats` | dashboard-agente/src/App.jsx:56-60 | total is the list length, saved and sources never exceed it, and there are no sources exactly when the list is empty |
| `Dashboard.StatsExample` | dashboard-agente/src/App.jsx:56-60 | two articles from two sources, one of them bookmarked, give the counters 2, 1 and 2 |
| `Dashboard.GetGreeting` | dashboard-agente/src/App.jsx:39-44 | "Bom dia" exactly before 12h, "Boa tarde" exactly from 12h to before 18h, "Boa noite" exactly from 18h |
| `Dashboard.BuildQuery` | dashboard-agente/src/App.jsx:20-27 | every fetch reads `articles` newest first; it restricts to `is_saved = true` exactly in the saved view |
| `Dashboard.CountSavedAllSaved` | dashboard-agente/src/App.jsx:58 | when every listed article is bookmarked, the saved counter equals the total |
| `Dashboard.SavedViewStats` | dashboard-agente/src/App.jsx:56-58 | in the saved view every listed article is bookmarked, so the saved counter equals the total |
| `Dashboard.DistinctUrlsCount` | dashboard-agente/src/App.jsx:57 | a list with one article per url has as many urls as articles |
| `Dashboard.AllViewTotal` | dashboard-agente/src/App.jsx:56-57 | in the "all" view the total counter is the number of rows in the url-keyed table |
| `Dashboard.Dashboard.constructor` | dashboard-agente/src/App.jsx:12-15 | the page starts with no articles, loading, in the "all" view, with an empty search |
| `Dashboard.Dashboard.BeginFetch` | dashboard-agente/src/App.jsx:18-27 | a fetch sets loading and sends the query for the current view |
| `Dashboard.Dashboard.CompleteFetch` | dashboard-agente/src/App.jsx:29-32 | loading always ends; an error keeps the old list; a reply replaces the list with its data, or with `[]` when the data is null |
| `Dashboard.Dashboard.FetchArticles` | dashboard-agente/src/App.jsx:18-33 | one whole fetch: the query for the current view, then the list replaced or kept as above |
| `Dashboard.Dashboard.SetFilter` | dashboard-agente/src/App.jsx:35-37 | a new view refetches with that view's query and applies the reply; choosing the current view sends nothing and leaves the list and the loading flag as they were |
| `Dashboard.Dashboard.SetSearchQuery` | dashboard-agente/src/App.jsx:113 | typing sets the search text and nothing else |
| `Dashboard.Dashboard.FilteredArticles` | dashboard-agente/src/App.jsx:46-54 | the rendered list holds exactly the fetched articles the current search keeps |
| `Dashboard.Dashboard.CurrentStats` | dashboard-agente/src/App.jsx:56-60 | the rendered counters: total is the number of fetched articles, and saved and sources never exceed it |
| `Card.UnderscoresToSpaces` | dashboard-agente/src/components/ArticleCard.jsx:36 | every `_` becomes a blank and every other character stays |
| `Card.CapitalizeWords` | dashboard-agente/src/components/ArticleCard.jsx:36 | a character is upper-cased exactly when it is a `\w` at the start of the text or right after a `\s`, as `(^\w|\s\w)` matches; all others stay |
| `Card.CleanSource` | dashboard-agente/src/components/ArticleCard.jsx:35-37 | the label has the source's length and no `_`; each position is the source's character with `_` made a blank and word starts upper-cased |
| `Card.CleanWord` | dashboard-agente/src/components/ArticleCard.jsx:35-37 | a lower-case word at the start or after `_` comes out with only its first letter upper-cased |
| `Card.SnakeCaseTwoWords` | dashboard-agente/src/components/ArticleCard.jsx:35-37 | `a_b` of two lower-case words reads `A B`, e.g. `bens_bites` becomes `Bens Bites` |
| `Card.SplitOn` | dashboard-agente/src/components/ArticleCard.jsx:47 | `split(' ')` gives one more piece than there are blanks, none holding a blank |
| `Card.SplitJoin` | dashboard-agente/src/components/ArticleCard.jsx:47 | joining the pieces with the separator gives back the text |
| `Card.WordCount` | dashboard-agente/src/components/ArticleCard.jsx:46-47 | the word count is the number of blanks plus one, and 1 for a missing summary |
| `Card.GetReadTime` | dashboard-agente/src/components/ArticleCard.jsx:46-50 | the reading time is at least one minute and is the number of words divided by 200, rounded up |
| `Card.ArticleCard.constructor` | dashboard-agente/src/components/ArticleCard.jsx:10 | a card's flag starts as the article's `is_saved` |
| `Card.ArticleCard.BeginToggle` | dashboard-agente/src/components/ArticleCard.jsx:15-16 | a click flips the card's flag at once and returns the new status |
| `Card.ArticleCard.CompleteToggle` | dashboard-agente/src/components/ArticleCard.jsx:18-32 | on success the row with the card's id gets the new status and a success toast is added; on failure the table is unchanged, the flag becomes `!newStatus` and an error toast is added |
| `Card.ArticleCard.ToggleSave` | dashboard-agente/src/components/ArticleCard.jsx:14-33 | one click that resolves: the flag is flipped exactly when the write succeeds, the table changes only then, and exactly one toast is appended |
| `Card.SavedMessage` | dashboard-agente/src/components/ArticleCard.jsx:27-30 | the success toast reads "Artigo salvo!" exactly when the article was bookmarked, and never reads like the error toast "Erro ao salvar artigo" |
| `Card.ToggleLeavesPageCounters` | dashboard-agente/src/components/ArticleCard.jsx:14-33 | a toggle does not touch the page's list, so the counters do not move until the next fetch |
| `Card.SupersededRollback` | dashboard-agente/src/components/ArticleCard.jsx:23-25 | three quick clicks and a failing first write leave the card showing "not saved" although the latest click asked for "saved" |
| `Toasts.WithoutId` | dashboard-agente/src/components/Toast.jsx:23 | removal keeps exactly the toasts with another id and never grows the list |
| `Toasts.WithoutAbsentId` | dashboard-agente/src/components/Toast.jsx:22-24 | removing an id no toast carries changes nothing |
| `Toasts.WithoutIdIdempotent` | dashboard-agente/src/components/Toast.jsx:22-24 | removing an id twice is removing it once |
| `Toasts.WithoutIdConcat` | dashboard-agente/src/components/Toast.jsx:23 | removal keeps the survivors in order |
| `Toasts.WithoutIdCommutes` | dashboard-agente/src/components/Toast.jsx:19-24 | two removals give the same list in either order, so timers and close buttons may fire in any order |
| `Toasts.ToastCenter.constructor` | dashboard-agente/src/components/Toast.jsx:14 | no toasts and no timers at first |
| `Toasts.ToastCenter.AddToast` | dashboard-agente/src/components/Toast.jsx:16-20 | appends one toast with id `now` and kind `success` by default, and schedules its removal 3000 ms later; every shown toast keeps a pending timer |
| `Toasts.ToastCenter.RemoveToast` | dashboard-agente/src/components/Toast.jsx:22-24 | the close button removes the toasts with that id and no others; an unknown id changes nothing |
| `Toasts.ToastCenter.Expire` | dashboard-agente/src/components/Toast.jsx:19 | a timer that fires is consumed and no toast with its id remains; a toast already dismissed changes nothing |
| `Toasts.UseToast` | dashboard-agente/src/components/Toast.jsx:7-11 | outside a provider the hook fails with its error message, inside one it returns the provider's value |
| `Toasts.SameMillisecondCollision` | dashboard-agente/src/components/Toast.jsx:17-23 | two toasts added in the same millisecond are both gone after the first timer fires |
| `Placeholder.ToInt32` | dashboard-agente/src/components/ArticleImage.jsx:9 | the conversion `<<` applies to its operand: the signed 32-bit value congruent to `x` modulo 2^32 |
| `Placeholder.ShiftLeft5` | dashboard-agente/src/components/ArticleImage.jsx:9 | `hash << 5` is 32 times the 32-bit value of `hash`, wrapped to 32 bits |
| `Placeholder.Rem360` | dashboard-agente/src/components/ArticleImage.jsx:12 | JavaScript `%` truncates: the remainder lies strictly between -360 and 360 and takes the dividend's sign |
| `Placeholder.Abs` | dashboard-agente/src/components/ArticleImage.jsx:12 | `Math.abs` is the input or its negation, never negative |
| `Placeholder.Step` | dashboard-agente/src/components/ArticleImage.jsx:9 | one turn `code + ((hash << 5) - hash)`: for a UTF-16 code unit it changes the magnitude of the hash by at most 2^31 + 2^16 |
| `Placeholder.Hash` | dashboard-agente/src/components/ArticleImage.jsx:7-10 | the hash is the left fold of `Step` from 0 over the code units; `HashBound` and `HashTitle` state its properties |
| `Placeholder.HashBound` | dashboard-agente/src/components/ArticleImage.jsx:7-10 | each character can change the hash's magnitude by at most 2^31 + 2^16, so over a title of n code units the magnitude stays at most n times that; the bound grows with the length |
| `Placeholder.HashTitle` | dashboard-agente/src/components/ArticleImage.jsx:7-10 | the loop computes the title hash over the title's UTF-16 code units, so the same title always gets the same colours |
| `Placeholder.Hue1` | dashboard-agente/src/components/ArticleImage.jsx:12 | the first hue is the hash's magnitude modulo 360 |
| `Placeholder.Hue2` | dashboard-agente/src/components/ArticleImage.jsx:13 | the second hue is 60 degrees on and wraps below 360, never equal to the first |
| `Placeholder.GradientFromTitle` | dashboard-agente/src/components/ArticleImage.jsx:6-16 | the placeholder's CSS: the gradient of the title's first hue and the hue 60 degrees on; `GradientNamesFirstHue` shows that the first hue can be read back from it |
| `Placeholder.Decimal` | dashboard-agente/src/components/ArticleImage.jsx:15 | a number prints as a non-empty run of digits, one digit exactly below 10 |
| `Placeholder.DecimalRoundTrip` | dashboard-agente/src/components/ArticleImage.jsx:15 | reading the printed digits back gives the number |
| `Placeholder.DecimalInjective` | dashboard-agente/src/components/ArticleImage.jsx:15 | two numbers print the same exactly when they are equal |
| `Placeholder.GradientLayout` | dashboard-agente/src/components/ArticleImage.jsx:15 | the gradient text holds the first hue's digits right after its fixed head, followed by a comma |
| `Placeholder.GradientNamesFirstHue` | dashboard-agente/src/components/ArticleImage.jsx:15 | two gradients are equal only when their first hues are |
| `Placeholder.EmptyTitleGradient` | dashboard-agente/src/components/ArticleImage.jsx:6-15 | an empty title hashes to 0 and gets hues 0 and 60 |
| `Placeholder.SourceConfig` | dashboard-agente/src/components/ArticleImage.jsx:19-40 | exactly the four listed sources have a fixed look |
| `Placeholder.ConfigFor` | dashboard-agente/src/components/ArticleImage.jsx:42-46 | a listed source uses its fixed look; any other uses the title's gradient with the newspaper icon and `#BFF549` |
| `Placeholder.KnownSourceIgnoresTitle` | dashboard-agente/src/components/ArticleImage.jsx:19-46 | for a listed source the title does not matter; for an unlisted one the look is the title's gradient |
| `Placeholder.HackerNewsAiFallsBack` | dashboard-agente/src/components/ArticleImage.jsx:42-46 | `hacker_news_ai`, the source the scraper writes, is not a listed source and gets the title's gradient |
| `Placeholder.Render` | dashboard-agente/src/components/ArticleImage.jsx:48-91 | a picture is shown exactly when `image_url` is non-empty, with the title as alt text; the source's look is its fallback, and is drawn otherwise |
| `EnvFile.SplitOnce` | tools/db_manager.py:13 | `split('=', 1)` yields two pieces exactly when `=` occurs; they are the text before the first `=` and the rest |
| `EnvFile.IsComment` | tools/db_manager.py:12 | a comment is a line whose first character, before any stripping, is `#` |
| `EnvFile.ParseLine` | tools/db_manager.py:12-13 | a line is skipped exactly when it strips to nothing or starts with `#`; otherwise it is malformed exactly when its stripped text has no `=`, and else it assigns the parts around the first `=` |
| `EnvFile.Parse` | tools/db_manager.py:11-13 | every line of the file is classified, one result per line |
| `EnvFile.Settable` | tools/db_manager.py:14 | `os.environ[key] = value` succeeds exactly for a non-empty name, with no NUL in the name or the value |
| `EnvFile.Raises` | tools/db_manager.py:13-14 | a line raises when it cannot be unpacked or when its pair cannot be written |
| `EnvFile.Load` | tools/db_manager.py:11-14 | a recorded failure points at a line that raises: one that cannot be unpacked, or whose write is refused |
| `EnvFile.LoadStopsAtFailure` | tools/verify_supabase.py:12-15 | after a line raises, the lines that follow change nothing |
| `EnvFile.FailureIsFirstRaising` | tools/verify_supabase.py:12-15 | the load fails exactly when some line raises, whether at unpacking or at the write, and it fails at the first such line |
| `EnvFile.LastAssignmentWins` | tools/verify_supabase.py:12-15 | a key ends with its last assignment in the file; a key the file never assigns keeps its previous value or stays unset |
| `EnvFile.SplitOnceAtFirst` | tools/db_manager.py:13 | splitting `a=b` with no `=` in `a` gives `a` and `b`, even when `b` holds `=` |
| `EnvFile.AssignmentLine` | tools/verify_supabase.py:13-15 | a `KEY=VALUE` line with its newline assigns `VALUE` to `KEY` |
| `EnvFile.IndentedHashIsAssignment` | tools/verify_supabase.py:13-14 | an indented `#KEY=VALUE` is not a comment: it assigns the key `#KEY` |
| `EnvFile.EmptyNameRaises` | tools/verify_supabase.py:14-15 | a `=VALUE` line unpacks into an empty name, and its write raises |
| `EnvFile.IsSet` | tools/verify_supabase.py:23 | `not url` is false exactly when the key is present with a non-empty value |
| `EnvFile.Environ.Get` | tools/verify_supabase.py:20-21 | `os.environ.get` is the value when the key is set and `None` otherwise |
| `EnvFile.Environ.LoadLines` | tools/db_manager.py:10-14 | the loop leaves the environment and the failing line exactly as the specification function `Load` gives them |
| `Database.ImportEnv` | tools/db_manager.py:7-16 | when `SUPABASE_URL` is set the file is not read; a missing file changes nothing; otherwise the file is loaded as `Load` says, stopping at the first line that raises: one that cannot be unpacked, or whose write is refused |
| `Database.GetClient` | tools/db_manager.py:18-23 | a client exists exactly when both settings are set and non-empty and `create_client` accepts them, and it is built from them; missing settings give the `ValueError` message, a refusal gives the `create_client` error |
| `Database.WithStoredFlag` | tools/db_manager.py:34-38 | when the url is stored, the record carries the stored `is_saved`; otherwise it is unchanged |
| `Database.UpsertArticle` | tools/db_manager.py:25-50 | missing settings or a refused client raise, exactly those, and change nothing; a failing call returns `None` and changes nothing; otherwise the row for the url is written with the stored bookmark kept. A row is returned exactly on a healthy call, and no stored bookmark ever changes |
| `Database.RescrapeKeepsBookmark` | tools/db_manager.py:29-42 | re-scraping keeps every bookmark; a new url starts unbookmarked; at most one row is added |
| `Database.ToggleSaveStatus` | tools/db_manager.py:68-83 | missing settings or a refused client raise, exactly those, and change nothing; a failing call returns `False` and changes nothing; otherwise the row with the id gets `not current_status` |
| `Database.ToggleTwiceRestores` | tools/db_manager.py:75-80 | toggling twice from the stored status restores the table |
| `Store.Merged` | tools/db_manager.py:42 | an upserted row takes the record's fields; it keeps the stored id and picture when the url exists; its bookmark is the record's or the stored one, else false |
| `Store.WithSaved` | tools/db_manager.py:76-79 | `update(is_saved).eq(id)` sets the flag on the rows with that id and leaves all else unchanged |
| `Store.WithSavedLastWins` | dashboard-agente/src/components/ArticleCard.jsx:18-21 | of two writes to the same id, the last one wins |
| `Store.WithSavedUnchanged` | tools/db_manager.py:75-79 | writing the flag a row already has changes nothing |
| `Store.ArticlesTable.SavedFlag` | tools/db_manager.py:34-38 | `select("is_saved").eq("url")` finds the row's flag exactly when the url is stored |
| `Store.ArticlesTable.Upsert` | tools/db_manager.py:42-45 | `upsert(on_conflict="url")` replaces or inserts the one row for the url and returns it; the table stays keyed by url |
| `Store.ArticlesTable.UpdateSaved` | tools/db_manager.py:76-80 | the update writes the flag as `WithSaved` says and reports whether any row matched |
| `Verify.LoadEnv` | tools/verify_supabase.py:9-15 | a missing file raises and changes nothing; otherwise the file is loaded as `Load` says, with the index of the line that raised, at unpacking or at the write |
| `Verify.VerifyConnection` | tools/verify_supabase.py:17-39 | a load error exits with status 1 before any query; a missing setting returns quietly; a refused query exits with status 1; an answer reports at most one row; the environment ends as the file left it, unchanged when the file is missing |
| `Scraper.Take` | tools/scraper_engine.py:61 | `[:10]` is the first `min(n, len)` records, in order |
| `Scraper.AllText` | tools/scraper_engine.py:79 | `get_text()` is the anchor's text nodes joined in order |
| `Scraper.StrippedText` | tools/scraper_engine.py:46 | `get_text(strip=True)` is each text node stripped, joined in order |
| `Scraper.DictKeys` | tools/scraper_engine.py:60 | the dict's keys are the distinct urls, no url twice |
| `Scraper.DictValues` | tools/scraper_engine.py:60 | the dict holds one record per scraped url, and that record carries the url |
| `Scraper.Dedupe` | tools/scraper_engine.py:60 | the deduplicated list is no longer than the input, follows the dict's keys and holds only scraped records |
| `Scraper.ValuesAreLast` | tools/scraper_engine.py:60 | the record kept for a url is the last one scraped with that url |
| `Scraper.DedupeOnePerUrl` | tools/scraper_engine.py:60 | after deduplication no url appears twice, every scraped url remains, and each record is the last with its url |
| `Scraper.DedupeFirstOccurrenceOrder` | tools/scraper_engine.py:60 | urls come out in the order of their first occurrence |
| `Scraper.DuplicateUrlKeepsLast` | tools/scraper_engine.py:60 | with `a, b, c` where `c` repeats `a`'s url, the result is `[c, b]`: last value, first position |
| `Scraper.KeepsBensBitesLink` | tools/scraper_engine.py:49 | a link is kept exactly when its text is longer than 20 characters and its href contains `http` but not `bensbites` |
| `Scraper.BensBitesCandidates` | tools/scraper_engine.py:43-57 | at most one record per anchor |
| `Scraper.BensBitesCandidatesKept` | tools/scraper_engine.py:49-57 | every candidate has text longer than 20 characters and an href that contains `http` but not `bensbites`; it is labelled `bens_bites`, stamped `now` and carries no bookmark |
| `Scraper.BensBitesCandidatesConcat` | tools/scraper_engine.py:44-57 | the loop is a filter: the candidates of two runs of anchors are those of the first run followed by those of the second |
| `Scraper.BensBitesCandidatesOne` | tools/scraper_engine.py:44-57 | an anchor yields its record exactly when it has an href that passes the heuristic, so with the previous row every passing link is kept, in page order |
| `Scraper.BensBitesResult` | tools/scraper_engine.py:31-65 | the records of a page: none on a failed request, else the candidates deduplicated by url and cut to ten |
| `Scraper.ScrapeBensBites` | tools/scraper_engine.py:22-65 | the loop yields exactly the specified Ben's Bites result |
| `Scraper.BensBitesResultShape` | tools/scraper_engine.py:32-61 | at most ten records, none on a failed request, no url twice, each a Ben's Bites record |
| `Scraper.HackerNewsCandidates` | tools/scraper_engine.py:78-90 | at most one record per item |
| `Scraper.HackerNewsCandidatesKept` | tools/scraper_engine.py:82-90 | every candidate's url contains `http` and has source `hacker_news_ai` |
| `Scraper.HackerNewsCandidatesConcat` | tools/scraper_engine.py:79-90 | the loop is a filter: the candidates of two runs of items are those of the first run followed by those of the second |
| `Scraper.HackerNewsCandidatesOne` | tools/scraper_engine.py:79-90 | an item yields its record exactly when its href contains `http` |
| `Scraper.HackerNewsResult` | tools/scraper_engine.py:67-94 | the records of a page: none when the request raises or when an item lacks `href`, whatever the status code; else the kept items cut to ten |
| `Scraper.ScrapeHackerNews` | tools/scraper_engine.py:67-94 | the loop yields exactly the specified Hacker News result |
| `Scraper.CandidatesCountHttp` | tools/scraper_engine.py:82 | there are as many candidates as items whose href contains `http` |
| `Scraper.HackerNewsFiltersThenTruncates` | tools/scraper_engine.py:82-91 | the filter runs before the truncation: the result holds `min(10, matching items)` records, each a Hacker News record |
| `Scraper.MissingHrefLosesBatch` | tools/scraper_engine.py:78-94 | one item without `href` raises, and the whole batch is lost |
| `Scraper.ReturnedAtMost` | tools/scraper_engine.py:107-111 | the success count never exceeds the number of upserts |
| `Scraper.UpsertRaisesSomewhere` | tools/scraper_engine.py:108-109 | some upsert raises exactly when there is a record and either a setting is missing or some call's `create_client` refuses the settings |
| `Scraper.UpsertAll` | tools/scraper_engine.py:107-111 | the count is the number of upserts that returned a row; the loop raises exactly when some upsert raises, with the `ValueError` message when settings are missing; every record whose call got through is stored; no bookmark changes |
| `Scraper.RunPipeline` | tools/scraper_engine.py:96-113 | the Ben's Bites records come first, then the Hacker News ones; at most 20 records and at most that many counted; the run raises exactly when some upsert raises; no bookmark changes |

## Left out

- The Supabase service is modelled by `Store.ArticlesTable`, a url-keyed map. Its failures are inputs (`Database.Fault`, including `create_client` refusing the settings, `Verify.Reply`, `Dashboard.FetchResponse`, `Card.WriteOutcome`); the network, pagination and row-level security are not modelled.
- `requests` and BeautifulSoup are not modelled. A page arrives as its status and the anchors the CSS selection would return, each with its optional `href` and its text strings.
- `tools/scheduler.py` and `tools/test_scraper.py` are not part of this model. They are a cron wrapper and a manual test.
- `StatCard.jsx`, `ViewToggle.jsx`, the `view` state, animations and every JSX layout detail are not part of this model.
- `isNew` in `ArticleCard.jsx` is left out because it reads the wall clock.
- `fetch_articles` in `db_manager.py` is left out. Nothing in the core calls it; the dashboard queries the table itself (`Dashboard.BuildQuery`).
- The image `onError` handler is left out. It switches DOM nodes' display style, which is not state the model keeps.
- `sourceConfig[source]` on an object literal also finds inherited keys such as `constructor`. The model treats such sources as unlisted.
- The scraper calls `datetime.now()` once per record. The model uses one timestamp `now` for a whole run.
- `Database.GetClient`: whether `create_client` accepts the url and key is an input (`accepted`, the `ClientRefused` fault, the `refused` flag of `ToggleSaveStatus`). The Supabase library's own checks on the url and key, and the text of its exception, are not modelled; `ClientError` stands for that text.
- `Database.ImportEnv`, `Verify.LoadEnv`: the only I/O failure modelled is a missing file. Other `OSError`s on open or read, and decoding errors, are not modelled. The file arrives as already-decoded lines.
- `EnvFile.Settable`: the only failures of `os.environ[key] = value` modelled are an empty name and a NUL. A name or value that the file-system encoding cannot encode is treated as written.
- `Text.Lower`: only ASCII and Latin-1 capitals are lower-cased. `toLowerCase` applies the full Unicode case mapping, which also lowers Greek, Cyrillic and Latin Extended capitals and can change a string's length ("İ" becomes two code units). So the search in `Dashboard.FilterArticles` misses such case-insensitive matches in the model: the query "α" does not find the title "Α".
- Console output (`print`) and its messages are left out, except the error texts the code returns or raises.
- React renders and asynchronous completions are modelled as sequential events. Interleavings can be built only from two explicit splits: `Card.ArticleCard.BeginToggle` / `CompleteToggle` and `Dashboard.Dashboard.BeginFetch` / `CompleteFetch`.
- `Placeholder.HashTitle`: the hash is exact with unbounded integers. `Placeholder.HashBound` shows it stays far below 2^53, where JavaScript numbers would lose precision, for titles of realistic length.
- `Date.now()` and the current hour are parameters.
