/** The picture at the top of a card (dashboard-agente/src/components/ArticleImage.jsx):
    the article's own image when it has one, otherwise a placeholder whose colours
    come from a fixed table for the known sources and from a hash of the title for
    any other source. Titles are hashed over their UTF-16 code units, with the
    JavaScript semantics of `<<` (ToInt32) and `%` (truncating) written out. */
module Placeholder {
  import opened Wrappers
  import opened Text
  import opened Schema

  // ----- JavaScript number operations -----

  const TwoTo32: int := 0x1_0000_0000
  const TwoTo31: int := 0x8000_0000

  /** ToInt32: the integer congruent to `x` modulo 2^32 in [-2^31, 2^31). */
  function ToInt32(x: int): (r: int)
    ensures -TwoTo31 <= r < TwoTo31
    ensures (x - r) % TwoTo32 == 0
  {
    var m := x % TwoTo32;
    if m >= TwoTo31 then m - TwoTo32 else m
  }

  /** `h << 5`: both the operand and the result go through ToInt32. */
  function ShiftLeft5(h: int): (r: int)
    ensures -TwoTo31 <= r < TwoTo31
    ensures (ToInt32(h) * 32 - r) % TwoTo32 == 0
  {
    ToInt32(ToInt32(h) * 32)
  }

  /** `a % 360`: the remainder takes the sign of the dividend. */
  function Rem360(a: int): (r: int)
    ensures -360 < r < 360
    ensures (a - r) % 360 == 0
    ensures a >= 0 ==> r >= 0
    ensures a <= 0 ==> r <= 0
  {
    if a >= 0 then a % 360 else -((-a) % 360)
  }

  function Abs(x: int): (r: nat)
    ensures r == x || r == -x
  {
    if x >= 0 then x else -x
  }

  // ----- `getGradientFromTitle` -----

  /** One turn of the loop: `hash = code + ((hash << 5) - hash)`. */
  function Step(hash: int, code: int): (r: int)
    ensures 0 <= code < 0x1_0000 ==> Abs(r) <= Abs(hash) + StepBound
  {
    code + (ShiftLeft5(hash) - hash)
  }

  /** The hash of a sequence of code units: a left fold of `Step` from 0. */
  function Hash(units: seq<int>): int {
    if units == [] then 0 else Step(Hash(units[..|units| - 1]), units[|units| - 1])
  }

  /** The largest change one turn can make to the magnitude of the hash. */
  const StepBound: int := TwoTo31 + 0x1_0000

  /** The hash grows by at most `StepBound` per code unit, so it is 0 for the empty
      title and stays far inside the exactly representable doubles for any title
      shorter than a million code units. */
  lemma {:induction false} HashBound(units: seq<int>)
    requires forall k :: 0 <= k < |units| ==> 0 <= units[k] < 0x1_0000
    ensures Abs(Hash(units)) <= |units| * StepBound
  {
    if units != [] {
      var init := units[..|units| - 1];
      HashBound(init);
      assert |init| * StepBound + StepBound == |units| * StepBound;
    }
  }

  /** The loop of `getGradientFromTitle` over `title.charCodeAt(i)`. */
  method HashTitle(title: string) returns (hash: int)
    ensures hash == Hash(Utf16(title))
  {
    var units := Utf16(title);
    hash := 0;
    for i := 0 to |units|
      invariant hash == Hash(units[..i])
    {
      assert units[..i + 1][..i] == units[..i];
      hash := units[i] + ((ShiftLeft5(hash)) - hash);
    }
    assert units[..|units|] == units;
  }

  /** `Math.abs(hash % 360)`. */
  function Hue1(hash: int): (r: int)
    ensures 0 <= r < 360
    ensures r == Abs(hash) % 360
  {
    Abs(Rem360(hash))
  }

  /** `(hue1 + 60) % 360`: another hue in range, never the first one. */
  function Hue2(hue1: int): (r: int)
    ensures 0 <= hue1 < 360 ==> 0 <= r < 360 && r != hue1
    ensures 0 <= hue1 < 300 ==> r == hue1 + 60
    ensures 300 <= hue1 < 360 ==> r == hue1 - 300
  {
    Rem360(hue1 + 60)
  }

  // ----- decimal rendering of a hue -----

  function DigitChar(d: int): char
    requires 0 <= d < 10
  {
    ('0' as int + d) as char
  }

  predicate IsDigit(c: char) {
    '0' <= c <= '9'
  }

  /** `${n}` for a natural number: its decimal digits, without leading zeros. */
  function Decimal(n: nat): (r: string)
    ensures |r| >= 1
    ensures forall k :: 0 <= k < |r| ==> IsDigit(r[k])
    ensures n < 10 <==> |r| == 1
  {
    if n < 10 then [DigitChar(n)] else Decimal(n / 10) + [DigitChar(n % 10)]
  }

  /** Reads a string of decimal digits back as a number. */
  function DecimalValue(s: string): nat
    requires forall k :: 0 <= k < |s| ==> IsDigit(s[k])
  {
    if s == [] then 0
    else
      var last := s[|s| - 1];
      assert IsDigit(last);
      DecimalValue(s[..|s| - 1]) * 10 + (last as int - '0' as int)
  }

  /** The decimal rendering loses nothing. */
  lemma {:induction false} DecimalRoundTrip(n: nat)
    ensures DecimalValue(Decimal(n)) == n
  {
    if n >= 10 {
      DecimalRoundTrip(n / 10);
      var s := Decimal(n);
      assert s[..|s| - 1] == Decimal(n / 10);
    }
  }

  /** Different numbers are written differently. */
  lemma DecimalInjective(m: nat, n: nat)
    ensures Decimal(m) == Decimal(n) <==> m == n
  {
    if Decimal(m) == Decimal(n) {
      DecimalRoundTrip(m);
      DecimalRoundTrip(n);
    }
  }

  const GradientHead: string := "linear-gradient(135deg, hsl("
  const GradientMiddle: string := ", 70%, 50%) 0%, hsl("
  const GradientTail: string := ", 70%, 30%) 100%)"

  /** The CSS the placeholder gets for the two hues. */
  function Gradient(hue1: nat, hue2: nat): string {
    GradientHead + Decimal(hue1) + GradientMiddle + Decimal(hue2) + GradientTail
  }

  /** `getGradientFromTitle(title)`. */
  function GradientFromTitle(title: string): string {
    var hue1 := Hue1(Hash(Utf16(title)));
    Gradient(hue1, Hue2(hue1))
  }

  /** Where the middle piece of a three-piece text sits. */
  lemma MiddlePiece(head: string, mid: string, tail: string)
    requires tail != []
    ensures forall k :: 0 <= k < |mid| ==> (head + mid + tail)[|head| + k] == mid[k]
    ensures (head + mid + tail)[|head| + |mid|] == tail[0]
    ensures (head + mid + tail)[|head|..|head| + |mid|] == mid
  {
  }

  /** Where the first hue's digits sit in the gradient, and what follows them. */
  lemma GradientLayout(hue1: nat, hue2: nat)
    ensures forall k :: 0 <= k < |Decimal(hue1)| ==> Gradient(hue1, hue2)[|GradientHead| + k] == Decimal(hue1)[k]
    ensures Gradient(hue1, hue2)[|GradientHead| + |Decimal(hue1)|] == ','
    ensures Gradient(hue1, hue2)[|GradientHead|..|GradientHead| + |Decimal(hue1)|] == Decimal(hue1)
  {
    var tail := GradientMiddle + Decimal(hue2) + GradientTail;
    assert tail[0] == GradientMiddle[0] == ',';
    assert Gradient(hue1, hue2) == GradientHead + Decimal(hue1) + tail;
    MiddlePiece(GradientHead, Decimal(hue1), tail);
  }

  /** The gradient names its first hue: two gradients with different first hues
      are different strings. */
  lemma GradientNamesFirstHue(a: nat, x: nat, b: nat, y: nat)
    ensures Gradient(a, x) == Gradient(b, y) ==> a == b
  {
    if Gradient(a, x) == Gradient(b, y) {
      var da, db := Decimal(a), Decimal(b);
      var g := Gradient(a, x);
      var p := |GradientHead|;
      // Right after the digits of the first hue comes the comma of the middle part,
      // so neither rendering can be longer than the other.
      GradientLayout(a, x);
      GradientLayout(b, y);
      assert |da| == |db|;
      assert da == g[p..p + |da|] == db;
      DecimalInjective(a, b);
    }
  }

  /** The empty title hashes to 0, so its hues are 0 and 60, written "0" and "60". */
  lemma EmptyTitleGradient()
    ensures Hash(Utf16("")) == 0
    ensures GradientFromTitle("") == Gradient(0, 60)
    ensures Decimal(0) == "0" && Decimal(60) == "60"
  {
    assert Utf16("") == [];
    assert Decimal(60) == Decimal(6) + "0";
  }

  // ----- `sourceConfig` -----

  datatype Icon = Newspaper | Zap | MessageCircle

  datatype Config = Config(gradient: string, icon: Icon, color: string)

  /** The fixed table of known sources. */
  function SourceConfig(source: string): (r: Option<Config>)
    ensures r.Some? <==> source in {"hacker_news", "bens_bites", "ai_rundown", "reddit"}
  {
    if source == "hacker_news" then
      Some(Config("linear-gradient(135deg, #ff6600 0%, #cc5200 100%)", MessageCircle, "#ff6600"))
    else if source == "bens_bites" then
      Some(Config("linear-gradient(135deg, #BFF549 0%, #8BC34A 100%)", Zap, "#BFF549"))
    else if source == "ai_rundown" then
      Some(Config("linear-gradient(135deg, #60a5fa 0%, #3b82f6 100%)", Newspaper, "#60a5fa"))
    else if source == "reddit" then
      Some(Config("linear-gradient(135deg, #ff4500 0%, #cc3700 100%)", MessageCircle, "#ff4500"))
    else None
  }

  /** `sourceConfig[article.source] || { …fallback… }`. */
  function ConfigFor(source: string, title: string): (r: Config)
    ensures SourceConfig(source).Some? ==> r == SourceConfig(source).value
    ensures SourceConfig(source).None? ==> r == Config(GradientFromTitle(title), Newspaper, "#BFF549")
  {
    match SourceConfig(source)
    case Some(c) => c
    case None => Config(GradientFromTitle(title), Newspaper, "#BFF549")
  }

  /** A known source's look does not depend on the title; any other source's
      gradient does, through the first hue of the title's hash. */
  lemma KnownSourceIgnoresTitle(source: string, t1: string, t2: string)
    ensures source in {"hacker_news", "bens_bites", "ai_rundown", "reddit"} ==> ConfigFor(source, t1) == ConfigFor(source, t2)
    ensures source !in {"hacker_news", "bens_bites", "ai_rundown", "reddit"} &&
            Hue1(Hash(Utf16(t1))) != Hue1(Hash(Utf16(t2))) ==>
              ConfigFor(source, t1) != ConfigFor(source, t2)
  {
    var h1, h2 := Hue1(Hash(Utf16(t1))), Hue1(Hash(Utf16(t2)));
    GradientNamesFirstHue(h1, Hue2(h1), h2, Hue2(h2));
  }

  /** The key the Hacker News scraper writes is not in the table, so those cards
      always take the title-derived look. */
  lemma HackerNewsAiFallsBack(title: string)
    ensures ConfigFor("hacker_news_ai", title) == Config(GradientFromTitle(title), Newspaper, "#BFF549")
  {
    assert "hacker_news_ai" != "hacker_news" by { assert |"hacker_news_ai"| != |"hacker_news"|; }
    assert "hacker_news_ai"[0] != "bens_bites"[0];
    assert "hacker_news_ai"[0] != "ai_rundown"[0];
    assert "hacker_news_ai"[0] != "reddit"[0];
  }

  // ----- what is rendered -----

  /** The article's image (with the placeholder look kept behind it for a load
      error), or the placeholder alone. */
  datatype Picture = Photo(src: string, alt: string, fallback: Config) | Plain(look: Config)

  /** `ArticleImage({article})`: an image exactly when `image_url` is a non-empty
      string; both forms carry the same look. */
  function Render(article: Article): (p: Picture)
    ensures p.Photo? <==> article.imageUrl.Some? && article.imageUrl.value != ""
    ensures p.Photo? ==> p.src == article.imageUrl.value && p.alt == article.title
    ensures (if p.Photo? then p.fallback else p.look) == ConfigFor(article.source, article.title)
  {
    var config := ConfigFor(article.source, article.title);
    match article.imageUrl
    case Some(url) => if url != "" then Photo(url, article.title, config) else Plain(config)
    case None => Plain(config)
  }
}
