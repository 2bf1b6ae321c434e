/** One article card (dashboard-agente/src/components/ArticleCard.jsx): its local
    bookmark flag with the optimistic toggle, and the two labels it derives from the
    article (the cleaned source name and the reading time). */
module Card {
  import opened Wrappers
  import opened Text
  import opened Schema
  import Store
  import Toasts
  import Dashboard

  // ----- `cleanSource` -----

  /** `source.replace(/_/g, ' ')`. */
  function UnderscoresToSpaces(s: string): (r: string)
    ensures |r| == |s|
    ensures forall i :: 0 <= i < |s| ==> r[i] == if s[i] == '_' then ' ' else s[i]
  {
    seq(|s|, i requires 0 <= i < |s| => if s[i] == '_' then ' ' else s[i])
  }

  /** `.replace(/(^\w|\s\w)/g, m => m.toUpperCase())` on `s`, where `atStart` tells
      whether `s` begins where `^` or a preceding `\s` allows a match. Matches never
      overlap, because the `\w` that ends one match is not a `\s`. */
  function CapitalizeWords(s: string, atStart: bool): (r: string)
    ensures |r| == |s|
    ensures forall i {:trigger r[i]} :: 0 <= i < |s| ==> r[i] == if CapitalizedAt(s, atStart, i) then UpperAscii(s[i]) else s[i]
  {
    if s == [] then []
    else
      var rest := CapitalizeWords(s[1..], IsJsSpace(s[0]));
      var r := [if IsWordChar(s[0]) && atStart then UpperAscii(s[0]) else s[0]] + rest;
      assert forall j :: 0 <= j < |rest| ==>
               r[j + 1] == rest[j] && s[j + 1] == s[1..][j] &&
               CapitalizedAt(s, atStart, j + 1) == CapitalizedAt(s[1..], IsJsSpace(s[0]), j);
      r
  }

  /** A match of `^\w` or `\s\w` ends at `i`: a word character at the start of the
      text (when `atStart`) or right after a blank. */
  predicate CapitalizedAt(s: string, atStart: bool, i: int)
    requires 0 <= i < |s|
  {
    IsWordChar(s[i]) && if i == 0 then atStart else IsJsSpace(s[i - 1])
  }

  /** A word starts at `i` of the raw source key: at the beginning, or after an
      underscore or a blank. */
  ghost predicate WordStart(s: string, i: int)
    requires 0 <= i < |s|
  {
    i == 0 || s[i - 1] == '_' || IsJsSpace(s[i - 1])
  }

  /** `cleanSource(source)`: underscores become spaces and the first letter of each
      word is upper-cased; the length is kept and no underscore is left. */
  function CleanSource(source: string): (r: string)
    ensures |r| == |source|
    ensures forall i :: 0 <= i < |r| ==> r[i] != '_'
    ensures forall i {:trigger r[i]} :: 0 <= i < |source| ==>
              r[i] == if source[i] == '_' then ' '
                      else if IsWordChar(source[i]) && WordStart(source, i) then UpperAscii(source[i])
                      else source[i]
  {
    var spaced := UnderscoresToSpaces(source);
    assert forall i :: 0 <= i < |source| ==> (IsJsSpace(spaced[i]) <==> source[i] == '_' || IsJsSpace(source[i]));
    var capped := CapitalizeWords(spaced, true);
    assert forall i :: 0 <= i < |source| && source[i] != '_' ==>
             CapitalizedAt(spaced, true, i) == (IsWordChar(source[i]) && WordStart(source, i));
    capped
  }

  predicate IsLowerWord(w: string) {
    w != [] && forall i :: 0 <= i < |w| ==> IsLowerAscii(w[i])
  }

  predicate IsLowerAscii(c: char) {
    'a' <= c <= 'z'
  }

  /** A lower-case letter at the start of the key or after an `_` is upper-cased. */
  lemma CleanWordStart(s: string, i: nat)
    requires i < |s| && IsLowerAscii(s[i]) && (i == 0 || s[i - 1] == '_')
    ensures CleanSource(s)[i] == UpperAscii(s[i])
  {
    assert WordStart(s, i);
  }

  /** A lower-case letter after another one is kept. */
  lemma CleanWordInner(s: string, i: nat)
    requires 0 < i < |s| && IsLowerAscii(s[i]) && IsLowerAscii(s[i - 1])
    ensures CleanSource(s)[i] == s[i]
  {
    assert !WordStart(s, i);
  }

  /** A lower-case word that starts the key or follows an `_` gets its first letter
      upper-cased and keeps the rest. */
  lemma CleanWord(s: string, off: nat, w: string)
    requires IsLowerWord(w) && off + |w| <= |s| && s[off..off + |w|] == w
    requires off == 0 || s[off - 1] == '_'
    ensures CleanSource(s)[off..off + |w|] == [UpperAscii(w[0])] + w[1..]
  {
    var r := CleanSource(s);
    var e := [UpperAscii(w[0])] + w[1..];
    assert s[off] == w[0];
    CleanWordStart(s, off);
    forall k | 0 < k < |w|
      ensures r[off + k] == e[k]
    {
      var t := s[off..off + |w|];
      assert s[off + k] == t[k] == w[k] && s[off + k - 1] == t[k - 1] == w[k - 1];
      CleanWordInner(s, off + k);
      assert e[k] == w[1..][k - 1] == w[k];
    }
  }

  /** A key made of two lower-case words joined by `_` (such as `bens_bites`) is
      shown as the two words, each with its first letter upper-cased, separated by
      a space. */
  lemma SnakeCaseTwoWords(a: string, b: string)
    requires IsLowerWord(a) && IsLowerWord(b)
    ensures CleanSource(a + "_" + b) == ([UpperAscii(a[0])] + a[1..]) + " " + ([UpperAscii(b[0])] + b[1..])
  {
    var s := a + "_" + b;
    var n := |a|;
    assert s[0..0 + n] == a && s[n] == '_' && s[n + 1..n + 1 + |b|] == b;
    CleanWord(s, 0, a);
    CleanWord(s, n + 1, b);
    Around(CleanSource(s), n, [UpperAscii(a[0])] + a[1..], [UpperAscii(b[0])] + b[1..]);
  }

  /** A text cut at position `n` around a blank. */
  lemma Around(r: string, n: nat, left: string, right: string)
    requires |r| == n + 1 + |right| && r[0..0 + n] == left && r[n] == ' ' && r[n + 1..n + 1 + |right|] == right
    ensures r == left + " " + right
  {
    assert r == r[..n] + [r[n]] + r[n + 1..];
  }

  // ----- `getReadTime` -----

  function CountChar(s: string, c: char): nat {
    if s == [] then 0 else (if s[0] == c then 1 else 0) + CountChar(s[1..], c)
  }

  /** `s.split(sep)` with a one-character separator: the pieces between separators,
      including empty ones, so there is always one more piece than separators. */
  function SplitOn(s: string, sep: char): (r: seq<string>)
    ensures |r| == CountChar(s, sep) + 1
    ensures forall k :: 0 <= k < |r| ==> sep !in r[k]
  {
    if s == [] then [""]
    else
      var rest := SplitOn(s[1..], sep);
      if s[0] == sep then [""] + rest
      else [[s[0]] + rest[0]] + rest[1..]
  }

  /** `parts.join(sep)`. */
  function Join(parts: seq<string>, sep: char): string {
    if parts == [] then ""
    else if |parts| == 1 then parts[0]
    else parts[0] + [sep] + Join(parts[1..], sep)
  }

  /** Splitting loses nothing: joining the pieces with the separator gives the text back. */
  lemma {:induction false} SplitJoin(s: string, sep: char)
    ensures Join(SplitOn(s, sep), sep) == s
  {
    if s != [] {
      SplitJoin(s[1..], sep);
      var rest := SplitOn(s[1..], sep);
      if s[0] == sep {
        assert SplitOn(s, sep)[1..] == rest;
        assert s == [sep] + s[1..];
      } else {
        var parts := SplitOn(s, sep);
        assert parts[0] == [s[0]] + rest[0] && parts[1..] == rest[1..];
        if |rest| == 1 {
          assert s == [s[0]] + rest[0];
        } else {
          assert Join(rest, sep) == rest[0] + [sep] + Join(rest[1..], sep);
          assert s == [s[0]] + s[1..];
        }
      }
    }
  }

  /** `(article.summary || '').split(' ').length`. */
  function WordCount(summary: Option<string>): (n: nat)
    ensures n == CountChar(summary.GetOr(""), ' ') + 1
  {
    |SplitOn(summary.GetOr(""), ' ')|
  }

  /** The label the card shows: `'< 1 min'` or `` `${minutes} min` ``. */
  datatype ReadTime = UnderAMinute | Minutes(n: nat)

  /** `getReadTime()`: whole minutes at 200 words per minute, rounded up. A summary
      always has at least one word, so the result is at least one minute and the
      `'< 1 min'` label is never shown. */
  function GetReadTime(summary: Option<string>): (r: ReadTime)
    ensures r.Minutes? && r.n >= 1
    ensures (r.n - 1) * 200 < WordCount(summary) <= r.n * 200
  {
    var words := WordCount(summary);
    var minutes := (words + 199) / 200;
    if minutes < 1 then UnderAMinute else Minutes(minutes)
  }

  // ----- `toggleSave` -----

  /** What the awaited `update` resolves to. */
  datatype WriteOutcome = Written | WriteFailed(error: string)

  /** The success toast's text for the new flag. */
  function SavedMessage(newStatus: bool): (m: string)
    ensures newStatus <==> m == "Artigo salvo!"
    ensures m != ErrorMessage
  {
    if newStatus then "Artigo salvo!" else "Removido dos salvos"
  }

  const ErrorMessage: string := "Erro ao salvar artigo"

  class ArticleCard {
    /** The `article` prop; the card never changes it. */
    const article: Article
    /** The card's own `isSaved` state. */
    var isSaved: bool

    constructor (article: Article)
      ensures this.article == article && isSaved == article.isSaved
    {
      this.article := article;
      isSaved := article.isSaved;
    }

    /** `toggleSave` up to its `await`: flip the local flag at once and send
        `update({is_saved: newStatus}).eq('id', article.id)`. */
    method BeginToggle() returns (newStatus: bool)
      modifies this`isSaved
      ensures newStatus == !old(isSaved)
      ensures isSaved == newStatus
    {
      newStatus := !isSaved;
      isSaved := newStatus;
    }

    /** `toggleSave` after its `await`, for the request that sent `newStatus`: on
        success the row with the card's id now holds `newStatus`, the local flag is
        left alone and one success toast is shown; on error the local flag is set to
        `!newStatus` and one error toast is shown. */
    method CompleteToggle(newStatus: bool, outcome: WriteOutcome, table: Store.ArticlesTable,
                          center: Toasts.ToastCenter, now: int)
      requires table.Valid() && center.Valid()
      modifies this`isSaved, table, center
      ensures table.Valid() && center.Valid()
      ensures outcome.Written? ==> isSaved == old(isSaved)
      ensures outcome.Written? ==> table.rows == Store.WithSaved(old(table.rows), article.id, newStatus)
      ensures outcome.Written? ==>
                center.toasts == old(center.toasts) + [Toasts.Toast(now, SavedMessage(newStatus), Toasts.Success)]
      ensures outcome.WriteFailed? ==> isSaved == !newStatus
      ensures outcome.WriteFailed? ==> table.rows == old(table.rows)
      ensures outcome.WriteFailed? ==>
                center.toasts == old(center.toasts) + [Toasts.Toast(now, ErrorMessage, Toasts.Error)]
    {
      match outcome
      case WriteFailed(_) =>
        isSaved := !newStatus;
        center.AddToast(ErrorMessage, Some(Toasts.Error), now);
      case Written =>
        var _ := table.UpdateSaved(article.id, newStatus);
        center.AddToast(SavedMessage(newStatus), Some(Toasts.Success), now);
    }

    /** One click whose request resolves before any other event: on success the flag
        is flipped for good, on error it is back where it was; exactly one toast
        either way, a success toast exactly when the write went through. */
    method ToggleSave(outcome: WriteOutcome, table: Store.ArticlesTable, center: Toasts.ToastCenter, now: int)
      requires table.Valid() && center.Valid()
      modifies this`isSaved, table, center
      ensures table.Valid() && center.Valid()
      ensures isSaved == if outcome.Written? then !old(isSaved) else old(isSaved)
      ensures |center.toasts| == |old(center.toasts)| + 1
      ensures center.toasts[..|old(center.toasts)|] == old(center.toasts)
      ensures center.toasts[|center.toasts| - 1].kind == if outcome.Written? then Toasts.Success else Toasts.Error
      ensures outcome.Written? ==> table.rows == Store.WithSaved(old(table.rows), article.id, !old(isSaved))
      ensures outcome.WriteFailed? ==> table.rows == old(table.rows)
    {
      var newStatus := BeginToggle();
      CompleteToggle(newStatus, outcome, table, center, now);
    }
  }

  /** Toggling a card leaves the page's article list, and so its counters, as they were. */
  method ToggleLeavesPageCounters(page: Dashboard.Dashboard, card: ArticleCard, outcome: WriteOutcome,
                                  table: Store.ArticlesTable, center: Toasts.ToastCenter, now: int)
    requires table.Valid() && center.Valid()
    modifies card`isSaved, table, center
    ensures page.articles == old(page.articles)
    ensures page.CurrentStats() == old(page.CurrentStats())
  {
    card.ToggleSave(outcome, table, center, now);
  }

  /** Three clicks before any request resolves (false, then true, false, true), and
      then the first request fails: its rollback writes `!true`, so the card shows
      "not saved" although the latest click asked for "saved". */
  method SupersededRollback() returns (shown: bool, lastIntent: bool)
    ensures lastIntent && !shown
  {
    var table := new Store.ArticlesTable();
    var center := new Toasts.ToastCenter();
    var card := new ArticleCard(Article(1, "t", "reddit", "https://a", None, 0, None, false, ""));
    var first := card.BeginToggle();
    var second := card.BeginToggle();
    lastIntent := card.BeginToggle();
    card.CompleteToggle(first, WriteFailed("network"), table, center, 0);
    shown := card.isSaved;
  }
}
