/**
 The map from trending repository records to launcher display items: a bold
 title with the owner, and a description that starts with a coloured
 language badge, then the star count and the repository's own description.
 */
module Formatter {
  import opened TrendingData
  import opened Text

  /** Badge colours keyed by lower-case language name. */
  const LangColors: map<string, string> := map[
    "c" := "#ff5252",
    "c#" := "#ff4081",
    "c++" := "#e040fb",
    "css" := "#7c4dff",
    "html" := "#303f9f",
    "javascript" := "#1976d2",
    "python" := "#0288d1",
    "java" := "#0097a7",
    "go" := "#00796b",
    "swift" := "#2e7d32"
  ]

  /** The colour of every language the table does not know. */
  const DefaultColor: string := "#e65100"

  /** Badge text shown for a repository without a language. */
  const NoLanguage: string := "None"

  /** The fixed markup around the badge colour and the badge text. */
  const BadgeHead: string := "<span style='border-radius: 5px; background-color: "
  const BadgeMid: string := "; color: #ffffff; padding: 2px'>"
  const BadgeTail: string := "</span>"
  const Separator: string := " / "

  /** The fixed markup around the repository title. */
  const TitleOpen: string := "<b>"
  const TitleClose: string := "</b> by "

  /** A "#rrggbb" colour in lower-case hexadecimal. */
  predicate IsHexColor(c: string)
  {
    && |c| == 7 && c[0] == '#'
    && IsHexDigit(c[1]) && IsHexDigit(c[2]) && IsHexDigit(c[3])
    && IsHexDigit(c[4]) && IsHexDigit(c[5]) && IsHexDigit(c[6])
  }

  predicate IsHexDigit(c: char)
  {
    IsDigit(c) || 'a' <= c <= 'f'
  }

  /** Every key of the table is lower-case. */
  lemma LangColorKeysLowerCase()
    ensures forall k :: k in LangColors ==> IsLowerCase(k)
  {
    forall k | k in LangColors
      ensures IsLowerCase(k)
    {
      assert k == "c" || k == "c#" || k == "c++" || k == "css" || k == "html" || k == "javascript"
          || k == "python" || k == "java" || k == "go" || k == "swift";
    }
  }

  /** Every colour of the table is a "#rrggbb" string. */
  lemma LangColorValuesHex()
    ensures forall k :: k in LangColors ==> IsHexColor(LangColors[k])
  {
    assert forall c :: c in LangColors.Values ==> IsHexColor(c);
    forall k | k in LangColors
      ensures IsHexColor(LangColors[k])
    {
      assert LangColors[k] in LangColors.Values;
    }
  }

  /** Every key of the table is lower-case and every colour is well formed. */
  lemma LangColorsWellFormed()
    ensures forall k :: k in LangColors ==> IsLowerCase(k)
    ensures forall k :: k in LangColors ==> IsHexColor(LangColors[k])
    ensures IsHexColor(DefaultColor)
  {
    LangColorKeysLowerCase();
    LangColorValuesHex();
  }

  /** Case-insensitive table lookup with the default colour on a miss. */
  function LangColor(lang: string): (c: string)
    ensures IsHexColor(c)
  {
    LangColorsWellFormed();
    var key := Lower(lang);
    if key in LangColors then LangColors[key] else DefaultColor
  }

  /**
   The lookup agrees with a definition that never lower-cases: a language
   gets a table colour exactly when it equals that key ignoring case, and
   the default colour when it matches no key.
   */
  lemma LangColorMatchesTable(lang: string)
    ensures forall k :: k in LangColors && EqualIgnoringCase(lang, k) ==> LangColor(lang) == LangColors[k]
    ensures (forall k :: k in LangColors ==> !EqualIgnoringCase(lang, k)) ==> LangColor(lang) == DefaultColor
  {
    LangColorsWellFormed();
    forall k | k in LangColors
      ensures EqualIgnoringCase(lang, k) <==> Lower(lang) == k
    {
      LowerOfLowerCase(k);
      LowerEqualIffEqualIgnoringCase(lang, k);
    }
  }

  /** Two spellings of a language that differ only in case get the same colour. */
  lemma LangColorIgnoresCase(a: string, b: string)
    requires EqualIgnoringCase(a, b)
    ensures LangColor(a) == LangColor(b)
  {
    LowerEqualIffEqualIgnoringCase(a, b);
  }

  /** The badge text: the language as given, or "None" when it is empty. */
  function BadgeText(language: string): (t: string)
    ensures |t| > 0
    ensures |language| > 0 ==> t == language
  {
    if |language| == 0 then NoLanguage else language
  }

  function BadgeSpan(color: string, text: string): string
  {
    BadgeHead + color + BadgeMid + text + BadgeTail
  }

  /** One record as a display item. */
  function FormatRepo(repo: Repo): (item: DisplayItem)
    ensures item.id == repo.url
    ensures item.icon.None?
  {
    var lang := BadgeText(repo.language);
    DisplayItem(
      repo.url,
      TitleOpen + repo.title + TitleClose + repo.owner,
      BadgeSpan(LangColor(lang), lang) + Separator + Decimal(repo.star) + Separator + repo.description,
      None)
  }

  /** Every record of the list, in order. */
  function Format(repos: seq<Repo>): (items: seq<DisplayItem>)
    ensures |items| == |repos|
    ensures forall i :: 0 <= i < |repos| ==> items[i] == FormatRepo(repos[i])
  {
    if |repos| == 0 then [] else [FormatRepo(repos[0])] + Format(repos[1..])
  }

  /** The title is "<b>", the repository title, "</b> by ", then the owner. */
  lemma TitleLayout(repo: Repo)
    ensures var t := FormatRepo(repo).title;
            var n := |TitleOpen| + |repo.title|;
            && |t| == n + |TitleClose| + |repo.owner|
            && t[..|TitleOpen|] == TitleOpen
            && t[|TitleOpen|..n] == repo.title
            && t[n..n + |TitleClose|] == TitleClose
            && t[n + |TitleClose|..] == repo.owner
  {
    FourPieces(TitleOpen, repo.title, TitleClose, repo.owner);
  }

  /** Offsets in a four-part concatenation, with the markup left abstract. */
  lemma FourPieces(a: string, b: string, c: string, d: string)
    ensures var t := a + b + c + d;
            && |t| == |a| + |b| + |c| + |d|
            && t[..|a|] == a
            && t[|a|..|a| + |b|] == b
            && t[|a| + |b|..|a| + |b| + |c|] == c
            && t[|a| + |b| + |c|..] == d
  {
    var t := a + b + c + d;
    assert t[..|a|] == a;
    SliceMiddle(a, b, c + d);
    assert t == a + b + (c + d);
    SliceMiddle(a + b, c, d);
  }

  /**
   The description in reading order: the span opening, the badge colour at a
   fixed offset, the rest of the span style, the badge text, the span close
   and separator, the star count (which reads back to the record's count),
   and finally a separator and the record's description.
   */
  lemma DescLayout(repo: Repo)
    ensures var d := FormatRepo(repo).desc;
            var lang := BadgeText(repo.language);
            var p := |BadgeHead| + 7 + |BadgeMid|;
            var q := p + |lang| + |BadgeTail| + |Separator|;
            var stars := Decimal(repo.star);
            && |d| == q + |stars| + |Separator| + |repo.description|
            && d[..|BadgeHead|] == BadgeHead
            && d[|BadgeHead|..|BadgeHead| + 7] == LangColor(lang)
            && d[|BadgeHead| + 7..p] == BadgeMid
            && d[p..p + |lang|] == lang
            && d[p + |lang|..q] == BadgeTail + Separator
            && ParseDecimal(d[q..q + |stars|]) == repo.star
            && d[q + |stars|..] == Separator + repo.description
  {
    var lang := BadgeText(repo.language);
    var color := LangColor(lang);
    var stars := Decimal(repo.star);
    var d := FormatRepo(repo).desc;
    assert d == BadgeSpan(color, lang) + Separator + stars + Separator + repo.description;
    assert |color| == 7;
    DescPieces(color, lang, stars, repo.description);
    var q := |BadgeHead| + 7 + |BadgeMid| + |lang| + |BadgeTail| + |Separator|;
    assert d[q..q + |stars|] == stars;
    ParseDecimalOfDecimal(repo.star);
  }

  /** Where each piece of a description sits, for any colour, text and count. */
  lemma DescPieces(color: string, lang: string, stars: string, description: string)
    ensures var d := BadgeSpan(color, lang) + Separator + stars + Separator + description;
            var p := |BadgeHead| + |color| + |BadgeMid|;
            var q := p + |lang| + |BadgeTail| + |Separator|;
            && |d| == q + |stars| + |Separator| + |description|
            && d[..|BadgeHead|] == BadgeHead
            && d[|BadgeHead|..|BadgeHead| + |color|] == color
            && d[|BadgeHead| + |color|..p] == BadgeMid
            && d[p..p + |lang|] == lang
            && d[p + |lang|..q] == BadgeTail + Separator
            && d[q..q + |stars|] == stars
            && d[q + |stars|..] == Separator + description
  {
    DescParts(BadgeHead, color, BadgeMid, lang, BadgeTail, Separator, stars, description);
  }

  /**
   Offsets in a description-shaped concatenation, whose separator `u`
   occurs twice, with the markup left abstract.
   */
  lemma DescParts(h: string, c: string, m: string, l: string, t: string, u: string, s: string, e: string)
    ensures var d := h + c + m + l + t + u + s + u + e;
            var p := |h| + |c| + |m|;
            var q := p + |l| + |t| + |u|;
            && |d| == q + |s| + |u| + |e|
            && d[..|h|] == h
            && d[|h|..|h| + |c|] == c
            && d[|h| + |c|..p] == m
            && d[p..p + |l|] == l
            && d[p + |l|..q] == t + u
            && d[q..q + |s|] == s
            && d[q + |s|..] == u + e
  {
    assert h + c + m + l + t + u + s + u + e == h + c + m + l + (t + u) + s + (u + e);
    LayoutPieces(h, c, m, l, t + u, s, u + e);
  }

  /** Offsets in a seven-part concatenation, with the markup left abstract. */
  lemma LayoutPieces(h: string, c: string, m: string, l: string, t: string, s: string, e: string)
    ensures var d := h + c + m + l + t + s + e;
            && d[..|h|] == h
            && d[|h|..|h| + |c|] == c
            && d[|h| + |c|..|h| + |c| + |m|] == m
            && d[|h| + |c| + |m|..|h| + |c| + |m| + |l|] == l
            && d[|h| + |c| + |m| + |l|..|h| + |c| + |m| + |l| + |t|] == t
            && d[|h| + |c| + |m| + |l| + |t|..|h| + |c| + |m| + |l| + |t| + |s|] == s
            && d[|h| + |c| + |m| + |l| + |t| + |s|..] == e
  {
    var d := h + c + m + l + t + s + e;
    assert d[..|h|] == h;
    SliceMiddle(h, c, m + l + t + s + e);
    assert d == h + c + (m + l + t + s + e);
    SliceMiddle(h + c, m, l + t + s + e);
    assert d == (h + c) + m + (l + t + s + e);
    SliceMiddle(h + c + m, l, t + s + e);
    assert d == (h + c + m) + l + (t + s + e);
    SliceMiddle(h + c + m + l, t, s + e);
    assert d == (h + c + m + l) + t + (s + e);
    SliceMiddle(h + c + m + l + t, s, e);
  }

  /** The middle part of a three-part concatenation sits at a known offset. */
  lemma SliceMiddle(a: string, b: string, c: string)
    ensures (a + b + c)[|a|..|a| + |b|] == b
    ensures (a + b + c)[|a| + |b|..] == c
  {
    assert (a + b + c)[|a|..|a| + |b|] == b;
    assert (a + b + c)[|a| + |b|..] == c;
  }

  /** A record without a language shows the badge "None" in the default colour. */
  lemma EmptyLanguageBadge(repo: Repo)
    requires repo.language == ""
    ensures FormatRepo(repo).desc == BadgeSpan(DefaultColor, "None") + Separator + Decimal(repo.star) + Separator + repo.description
  {
  }

  /** A known language keeps its spelling in the badge and gets its table colour. */
  lemma KnownLanguageBadge(repo: Repo)
    requires |repo.language| > 0 && Lower(repo.language) in LangColors
    ensures FormatRepo(repo).desc ==
              BadgeSpan(LangColors[Lower(repo.language)], repo.language) + Separator + Decimal(repo.star) + Separator + repo.description
  {
  }

  /** "Go" gets the configured green, whatever its case. */
  lemma GoIsGreen()
    ensures LangColor("Go") == "#00796b"
    ensures LangColor("GO") == "#00796b"
  {
    assert Lower("Go") == "go";
    assert Lower("GO") == "go";
  }

  /** A language the table does not know gets the default colour. */
  lemma UnknownLanguageIsDefault()
    ensures LangColor("Brainfuck") == DefaultColor
  {
  }
}
