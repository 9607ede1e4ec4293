/**
 * The string helpers of the book search page, MINIPROYECTO/app.js: the text
 * truncation of the cards, the cover URL rewriting, the themed background
 * chosen from the query, and the blank-query guard of the search. The
 * request to the books service and the page itself are not modelled.
 */
module Books {
  import opened Wrappers
  import opened Strings

  // ---------------------------------------------------------------------
  // truncateText
  // ---------------------------------------------------------------------

  /**
   * `truncateText(text, maxLength)`; `None` stands for a missing text, and
   * the empty text is falsy too. A negative `maxLength` makes
   * `substring(0, maxLength)` empty.
   */
  function TruncateText(text: Option<string>, maxLength: int): string
  {
    match text
    case None => ""
    case Some(t) =>
      if t == "" then ""
      else if |t| > maxLength then t[..if maxLength < 0 then 0 else maxLength] + "..."
      else t
  }

  /**
   * A missing or empty text gives "", a text that fits is kept, and a longer
   * one is cut to its first `maxLength` characters followed by "...", so the
   * result is never more than 3 characters over the limit.
   */
  lemma TruncateTextSpec(text: Option<string>, maxLength: nat)
    ensures text.None? || text == Some("") ==> TruncateText(text, maxLength) == ""
    ensures text.Some? && |text.value| <= maxLength ==> TruncateText(text, maxLength) == text.value
    ensures text.Some? && |text.value| > maxLength ==>
              var r := TruncateText(text, maxLength);
              |r| == maxLength + 3 && r[..maxLength] == text.value[..maxLength] && r[maxLength..] == "..."
    ensures |TruncateText(text, maxLength)| <= maxLength + 3
  {
  }

  /**
   * Whatever the limit, a missing or empty text gives ""; under a negative
   * limit any other text is cut to nothing and shows only "...".
   */
  lemma TruncateTextNegative(text: Option<string>, maxLength: int)
    ensures text.None? || text == Some("") ==> TruncateText(text, maxLength) == ""
    ensures maxLength < 0 && text.Some? && text.value != "" ==> TruncateText(text, maxLength) == "..."
  {
  }

  // ---------------------------------------------------------------------
  // getHighResImage
  // ---------------------------------------------------------------------

  /** The cover sizes of a book's `imageLinks`; `None` for an absent field. */
  datatype ImageLinks = ImageLinks(
    extraLarge: Option<string>, large: Option<string>, medium: Option<string>,
    thumbnail: Option<string>, smallThumbnail: Option<string>)

  const Placeholder: string := "https://via.placeholder.com/300x450/1a1a2e/d4af37?text=Sin+Portada"

  /** A field `||` accepts: present and not "". */
  predicate Truthy(f: Option<string>) { f.Some? && f.value != "" }

  /** The fields in the order `||` tries them. */
  function Candidates(links: ImageLinks): seq<Option<string>>
  {
    [links.extraLarge, links.large, links.medium, links.thumbnail, links.smallThumbnail]
  }

  /** `a || b || ...`, with `None` when every operand is falsy. */
  function FirstTruthy(fs: seq<Option<string>>): Option<string>
  {
    if fs == [] then None
    else if Truthy(fs[0]) then fs[0]
    else FirstTruthy(fs[1..])
  }

  /**
   * `||` picks the first truthy field: `None` exactly when there is none, and
   * otherwise a field that is truthy with every field before it falsy.
   */
  lemma {:induction false} FirstTruthyIff(fs: seq<Option<string>>)
    ensures FirstTruthy(fs).None? <==> forall i :: 0 <= i < |fs| ==> !Truthy(fs[i])
    ensures FirstTruthy(fs).Some? ==>
              exists i :: 0 <= i < |fs| && fs[i] == FirstTruthy(fs) && Truthy(fs[i]) &&
                          forall j :: 0 <= j < i ==> !Truthy(fs[j])
    decreases |fs|
  {
    if fs != [] && !Truthy(fs[0]) {
      FirstTruthyIff(fs[1..]);
      if FirstTruthy(fs).Some? {
        var i :| 0 <= i < |fs[1..]| && fs[1..][i] == FirstTruthy(fs[1..]) && Truthy(fs[1..][i]) &&
                 forall j :: 0 <= j < i ==> !Truthy(fs[1..][j]);
        assert fs[i + 1] == FirstTruthy(fs) && forall j :: 0 <= j < i + 1 ==> !Truthy(fs[j]);
      }
    } else if fs != [] {
      assert fs[0] == FirstTruthy(fs);
    }
  }

  /** `url.replace('http://', 'https://')`. */
  function ForceHttps(url: string): string
  {
    ReplaceFirst(url, "http://", "https://")
  }

  /** The edits made to a Google Books cover URL. */
  function Sharpen(url: string): string
  {
    if Includes(url, "books.google.com")
    then ReplaceFirst(ReplaceFirst(url, "&edge=curl", ""), "zoom=1", "zoom=0")
    else url
  }

  /** The URL `getHighResImage` returns. */
  function HighRes(links: Option<ImageLinks>): string
  {
    if links.None? then Placeholder
    else match FirstTruthy(Candidates(links.value))
      case None => Placeholder
      case Some(u) => Sharpen(ForceHttps(u))
  }

  /** `getHighResImage(imageLinks)`: `url` is reassigned step by step. */
  method GetHighResImage(links: Option<ImageLinks>) returns (url: string)
    ensures url == HighRes(links)
  {
    if links.None? {
      return Placeholder;
    }
    var l := links.value;
    var chosen: Option<string> := None;
    if Truthy(l.extraLarge) {
      chosen := l.extraLarge;
    } else if Truthy(l.large) {
      chosen := l.large;
    } else if Truthy(l.medium) {
      chosen := l.medium;
    } else if Truthy(l.thumbnail) {
      chosen := l.thumbnail;
    } else if Truthy(l.smallThumbnail) {
      chosen := l.smallThumbnail;
    }
    assert chosen == FirstTruthy(Candidates(l)) by {
      var f4 := [l.smallThumbnail];
      var f3 := [l.thumbnail] + f4;
      var f2 := [l.medium] + f3;
      var f1 := [l.large] + f2;
      var f0 := [l.extraLarge] + f1;
      assert f4[1..] == [] && f3[1..] == f4 && f2[1..] == f3 && f1[1..] == f2 && f0[1..] == f1;
      assert FirstTruthy(f4) == if Truthy(l.smallThumbnail) then l.smallThumbnail else None;
      assert FirstTruthy(f3) == if Truthy(l.thumbnail) then l.thumbnail else FirstTruthy(f4);
      assert FirstTruthy(f2) == if Truthy(l.medium) then l.medium else FirstTruthy(f3);
      assert FirstTruthy(f1) == if Truthy(l.large) then l.large else FirstTruthy(f2);
      assert FirstTruthy(f0) == if Truthy(l.extraLarge) then l.extraLarge else FirstTruthy(f1);
      assert Candidates(l) == f0;
    }
    if chosen.None? {
      return Placeholder;
    }
    url := chosen.value;
    url := ReplaceFirst(url, "http://", "https://");
    if Includes(url, "books.google.com") {
      url := ReplaceFirst(url, "&edge=curl", "");
      url := ReplaceFirst(url, "zoom=1", "zoom=0");
    }
  }

  /** Without a truthy size, the placeholder cover is used. */
  lemma HighResPlaceholder(links: Option<ImageLinks>)
    ensures links.None? || (forall i :: 0 <= i < 5 ==> !Truthy(Candidates(links.value)[i])) ==>
              HighRes(links) == Placeholder
  {
    if links.Some? {
      FirstTruthyIff(Candidates(links.value));
    }
  }

  /**
   * With a truthy size, the cover comes from the first truthy size in the
   * order extraLarge, large, medium, thumbnail, smallThumbnail.
   */
  lemma HighResPriority(l: ImageLinks)
    requires exists i :: 0 <= i < 5 && Truthy(Candidates(l)[i])
    ensures exists i :: 0 <= i < 5 && Truthy(Candidates(l)[i]) &&
                        (forall j :: 0 <= j < i ==> !Truthy(Candidates(l)[j])) &&
                        HighRes(Some(l)) == Sharpen(ForceHttps(Candidates(l)[i].value))
  {
    FirstTruthyIff(Candidates(l));
  }

  /** `replace` keeps a prefix that does not contain the first character of the pattern. */
  lemma ReplaceFirstKeepsPrefix(s: string, pat: string, rep: string, p: string)
    requires p <= s && pat != [] && pat[0] !in p
    ensures p <= ReplaceFirst(s, pat, rep)
  {
    match IndexOf(s, pat)
    case None =>
    case Some(i) =>
      assert s[i..i + |pat|][0] == s[i] == pat[0];
      assert forall k :: 0 <= k < |p| ==> s[k] == p[k];
      assert i >= |p|;
      assert p <= s[..i];
  }

  /** The Google Books edits keep an "https://" at the front. */
  lemma SharpenKeepsHttps(v: string)
    requires "https://" <= v
    ensures "https://" <= Sharpen(v)
  {
    ReplaceFirstKeepsPrefix(v, "&edge=curl", "", "https://");
    ReplaceFirstKeepsPrefix(ReplaceFirst(v, "&edge=curl", ""), "zoom=1", "zoom=0", "https://");
  }

  /** An "http://" cover is served over "https://", whatever the Google Books edits do afterwards. */
  lemma HighResUpgradesHttp(l: ImageLinks, rest: string)
    requires FirstTruthy(Candidates(l)) == Some("http://" + rest)
    ensures "https://" <= HighRes(Some(l))
  {
    var u := "http://" + rest;
    assert HighRes(Some(l)) == Sharpen(ForceHttps(u));
    ForceHttpsOfHttp(rest);
    SharpenKeepsHttps("https://" + rest);
  }

  lemma ForceHttpsOfHttp(rest: string)
    ensures ForceHttps("http://" + rest) == "https://" + rest
  {
    var u := "http://" + rest;
    assert OccursAt(u, "http://", 0);
    assert u[7..] == rest;
  }

  /** A cover outside Google Books only has its first "http://" rewritten. */
  lemma HighResOtherHosts(l: ImageLinks, u: string)
    requires FirstTruthy(Candidates(l)) == Some(u)
    requires !Includes(ForceHttps(u), "books.google.com")
    ensures HighRes(Some(l)) == ForceHttps(u)
    ensures !Includes(u, "http://") ==> HighRes(Some(l)) == u
  {
  }

  // ---------------------------------------------------------------------
  // changeBackground
  // ---------------------------------------------------------------------

  /** An entry of the `themes` table: a search word and its gradient. */
  datatype Theme = Theme(key: string, gradient: string)

  /** `themes`, in the order `Object.entries` lists it. */
  const Themes: seq<Theme> := [
    Theme("ficción", "linear-gradient(135deg, #667eea 0%, #764ba2 100%)"),
    Theme("ciencia", "linear-gradient(135deg, #f093fb 0%, #f5576c 100%)"),
    Theme("historia", "linear-gradient(135deg, #4facfe 0%, #00f2fe 100%)"),
    Theme("arte", "linear-gradient(135deg, #43e97b 0%, #38f9d7 100%)"),
    Theme("tecnología", "linear-gradient(135deg, #fa709a 0%, #fee140 100%)"),
    Theme("fantasía", "linear-gradient(135deg, #30cfd0 0%, #330867 100%)"),
    Theme("romance", "linear-gradient(135deg, #ff9a9e 0%, #fecfef 100%)"),
    Theme("terror", "linear-gradient(135deg, #2c3e50 0%, #000000 100%)"),
    Theme("biografía", "linear-gradient(135deg, #ffecd2 0%, #fcb69f 100%)"),
    Theme("cocina", "linear-gradient(135deg, #ff6e7f 0%, #bfe9ff 100%)")
  ]

  const DefaultGradient: string := "linear-gradient(135deg, #1a1a2e 0%, #16213e 50%, #0f3460 100%)"

  /** Whether theme `i` is the first one whose word occurs in the lower-cased query. */
  predicate FirstMatch(lq: string, i: int)
  {
    0 <= i < |Themes| && Includes(lq, Themes[i].key) &&
    forall j :: 0 <= j < i ==> !Includes(lq, Themes[j].key)
  }

  /**
   * The gradient `changeBackground(query)` sets: the first theme in table
   * order whose word occurs in the lower-cased query, or the default one.
   */
  method ChangeBackground(query: string) returns (gradient: string)
    ensures (forall i :: 0 <= i < |Themes| ==> !Includes(Lower(query), Themes[i].key)) ==> gradient == DefaultGradient
    ensures forall i :: FirstMatch(Lower(query), i) ==> gradient == Themes[i].gradient
  {
    gradient := DefaultGradient;
    var lq := Lower(query);
    var i := 0;
    while i < |Themes|
      invariant 0 <= i <= |Themes|
      invariant forall j :: 0 <= j < i ==> !Includes(lq, Themes[j].key)
      invariant gradient == DefaultGradient
    {
      if Includes(lq, Themes[i].key) {
        gradient := Themes[i].gradient;
        assert FirstMatch(lq, i);
        return;
      }
      i := i + 1;
    }
  }

  // ---------------------------------------------------------------------
  // searchBooks
  // ---------------------------------------------------------------------

  /** What `searchBooks` does with a query before the request. */
  datatype SearchOutcome = BlankWarning | Searching

  /** The search state of the page. */
  class BookSearch {
    var currentSearchTerm: string

    constructor ()
      ensures currentSearchTerm == ""
    {
      currentSearchTerm := "";
    }

    /**
     * The start of `searchBooks(query)`: a blank query is answered with a
     * warning and changes nothing; any other becomes the current search term.
     */
    method SearchBooks(query: string) returns (outcome: SearchOutcome)
      modifies this
      ensures outcome == BlankWarning <==> IsBlank(query)
      ensures outcome == BlankWarning ==> currentSearchTerm == old(currentSearchTerm)
      ensures outcome == Searching ==> currentSearchTerm == query
    {
      TrimEmptyIffBlank(query);
      if Trim(query) == [] {
        return BlankWarning;
      }
      currentSearchTerm := query;
      return Searching;
    }
  }
}
