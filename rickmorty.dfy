/**
 * The character browser of API-RICK-MORTY/api.js: the Spanish labels, the
 * character id taken from its URL, the request URL, the page buttons, and
 * the page, filter and search state the handlers update. The requests and
 * the page markup are not modelled.
 */
module RickMorty {
  import opened Wrappers
  import opened Strings

  // ---------------------------------------------------------------------
  // translate
  // ---------------------------------------------------------------------

  /** `translations`: category, then English label, then Spanish label. */
  const Translations: map<string, map<string, string>> := map[
    "status" := map["Alive" := "Vivo", "Dead" := "Muerto", "unknown" := "Desconocido"],
    "gender" := map["Male" := "Masculino", "Female" := "Femenino", "Genderless" := "Sin género",
                    "unknown" := "Desconocido"],
    "species" := map["Human" := "Humano", "Alien" := "Alienígena", "Humanoid" := "Humanoide",
                     "Robot" := "Robot", "Cronenberg" := "Cronenberg", "Disease" := "Enfermedad",
                     "Animal" := "Animal", "Poopybutthole" := "Poopybutthole",
                     "Mythological Creature" := "Criatura Mitológica", "unknown" := "Desconocido"]
  ]

  /** `translate(category, text)`: the table's label when there is a non-empty one, else `text`. */
  function Translate(category: string, text: string): string
  {
    if category in Translations && text in Translations[category] && Translations[category][text] != ""
    then Translations[category][text]
    else text
  }

  /** The label is the table's entry when both keys exist, and the text itself otherwise. */
  lemma TranslateSpec(category: string, text: string)
    ensures category in Translations && text in Translations[category] ==>
              Translate(category, text) == Translations[category][text]
    ensures !(category in Translations && text in Translations[category]) ==>
              Translate(category, text) == text
  {
  }

  /** Every label of a category that is also a key of it is its own label. */
  predicate LabelsFinal(m: map<string, string>)
  {
    forall k :: k in m && m[k] in m ==> m[m[k]] == m[k]
  }

  lemma StatusLabelsFinal()
    ensures LabelsFinal(Translations["status"])
  {
    var m := Translations["status"];
    assert m.Keys == {"Alive", "Dead", "unknown"};
    assert "Vivo" !in m && "Muerto" !in m && "Desconocido" !in m;
  }

  lemma GenderLabelsFinal()
    ensures LabelsFinal(Translations["gender"])
  {
    var m := Translations["gender"];
    assert m.Keys == {"Male", "Female", "Genderless", "unknown"};
    assert "Masculino" !in m && "Femenino" !in m && "Sin género" !in m && "Desconocido" !in m;
  }

  lemma SpeciesKeys()
    ensures Translations["species"].Keys ==
              {"Human", "Alien", "Humanoid", "Robot", "Cronenberg", "Disease", "Animal",
               "Poopybutthole", "Mythological Creature", "unknown"}
  {
  }

  lemma SpeciesLabelsNotKeys()
    ensures var m := Translations["species"];
            "Humano" !in m && "Alienígena" !in m && "Humanoide" !in m &&
            "Enfermedad" !in m && "Criatura Mitológica" !in m && "Desconocido" !in m
  {
    SpeciesKeys();
  }

  lemma SpeciesLabelsFinal()
    ensures LabelsFinal(Translations["species"])
  {
    SpeciesKeys();
    SpeciesLabelsNotKeys();
  }

  /** Translating a translated label changes nothing more. */
  lemma TranslateIdempotent(category: string, text: string)
    ensures Translate(category, Translate(category, text)) == Translate(category, text)
  {
    assert Translations.Keys == {"status", "gender", "species"};
    StatusLabelsFinal();
    GenderLabelsFinal();
    SpeciesLabelsFinal();
  }

  // ---------------------------------------------------------------------
  // The character id
  // ---------------------------------------------------------------------

  /** `filter(Boolean)` on strings: the non-empty ones, in order. */
  function NonEmpty(parts: seq<string>): (r: seq<string>)
    ensures forall k :: 0 <= k < |r| ==> r[k] != "" && r[k] in parts
  {
    if parts == [] then []
    else NonEmpty(parts[..|parts| - 1]) + (if parts[|parts| - 1] != "" then [parts[|parts| - 1]] else [])
  }

  /** `url.split('/').filter(Boolean).pop()`, with `None` for `undefined`. */
  function CharacterId(url: string): (id: Option<string>)
    ensures id.Some? ==> id.value != "" && '/' !in id.value
  {
    var segments := NonEmpty(Split(url, '/'));
    if segments == [] then None else Some(segments[|segments| - 1])
  }

  /** Splitting text that ends in a '/' and then a segment ends in that segment. */
  lemma {:induction false} SplitLastSegment(s: string, segment: string)
    requires '/' !in segment
    ensures Split(s + "/" + segment, '/') == Split(s, '/') + [segment]
    decreases |segment|
  {
    if segment == [] {
      assert (s + "/" + segment)[..|s + "/" + segment| - 1] == s;
    } else {
      var t := s + "/" + segment;
      var init := segment[..|segment| - 1];
      assert t[..|t| - 1] == s + "/" + init;
      SplitLastSegment(s, init);
      assert init + [segment[|segment| - 1]] == segment;
    }
  }

  /** The id of ".../<segment>" is the segment. */
  lemma CharacterIdOfUrl(prefix: string, segment: string)
    requires segment != "" && '/' !in segment
    ensures CharacterId(prefix + "/" + segment) == Some(segment)
  {
    SplitLastSegment(prefix, segment);
    var p := Split(prefix, '/');
    assert (p + [segment])[..|p + [segment]| - 1] == p;
  }

  /** A trailing '/' does not change the id. */
  lemma CharacterIdTrailingSlash(url: string)
    ensures CharacterId(url + "/") == CharacterId(url)
  {
    SplitLastSegment(url, "");
    assert url + "/" + "" == url + "/";
    var p := Split(url, '/');
    assert (p + [""])[..|p + [""]| - 1] == p;
  }

  // ---------------------------------------------------------------------
  // The request URL
  // ---------------------------------------------------------------------

  const CharacterApi: string := "https://rickandmortyapi.com/api/character"

  /** Whether `loadCharacters` sends a status filter. */
  predicate FiltersStatus(status: string) { status != "" && status != "all" }

  /** The query parameters `loadCharacters` sends, in order. */
  function QueryParams(page: int, status: string, name: string): seq<(string, string)>
  {
    [("page", IntToDecimal(page))]
    + (if FiltersStatus(status) then [("status", status)] else [])
    + (if name != "" then [("name", name)] else [])
  }

  /** "k1=v1&k2=v2..." */
  function QueryString(params: seq<(string, string)>): string
  {
    if params == [] then ""
    else if |params| == 1 then params[0].0 + "=" + params[0].1
    else QueryString(params[..|params| - 1]) + "&" + params[|params| - 1].0 + "=" + params[|params| - 1].1
  }

  /** The URL `loadCharacters(page, status, name)` builds with `+=`. */
  method LoadCharactersUrl(page: int, status: string, name: string) returns (url: string)
    ensures url == CharacterApi + "?" + QueryString(QueryParams(page, status, name))
  {
    url := CharacterApi + "?page=" + IntToDecimal(page);
    var params := [("page", IntToDecimal(page))];
    assert url == CharacterApi + "?" + QueryString(params);
    if FiltersStatus(status) {
      AddParam(url, params, "&status=", "status", status);
      url := url + "&status=" + status;
      params := params + [("status", status)];
    }
    if name != "" {
      AddParam(url, params, "&name=", "name", name);
      url := url + "&name=" + name;
      params := params + [("name", name)];
    }
    assert params == QueryParams(page, status, name);
  }

  /** Appending "&key=value" to the URL adds one parameter to its query. */
  lemma AddParam(url: string, params: seq<(string, string)>, text: string, key: string, value: string)
    requires params != [] && url == CharacterApi + "?" + QueryString(params)
    requires text == "&" + key + "="
    ensures url + text + value == CharacterApi + "?" + QueryString(params + [(key, value)])
  {
    var ps := params + [(key, value)];
    assert ps[..|ps| - 1] == params && |ps| > 1 && ps[|ps| - 1] == (key, value);
    var q := QueryString(params);
    assert QueryString(ps) == q + "&" + key + "=" + value;
    assert url + text + value == CharacterApi + "?" + (q + "&" + key + "=" + value);
  }

  /** The page always comes first; a status is sent only when set and not "all"; a name only when set, last. */
  lemma QueryParamsShape(page: int, status: string, name: string)
    ensures var ps := QueryParams(page, status, name);
            ps[0] == ("page", IntToDecimal(page)) &&
            (exists k :: 0 <= k < |ps| && ps[k] == ("status", status)) == FiltersStatus(status) &&
            (name != "" <==> ps[|ps| - 1] == ("name", name)) &&
            |ps| == 1 + (if FiltersStatus(status) then 1 else 0) + (if name != "" then 1 else 0)
  {
    var ps := QueryParams(page, status, name);
    if exists k :: 0 <= k < |ps| && ps[k] == ("status", status) {
      var k :| 0 <= k < |ps| && ps[k] == ("status", status);
      assert ps[k].0 == "status";
      assert ps[k] != ("page", IntToDecimal(page)) by { assert "status" != "page"; }
      assert ps[k].0 != "name" by { assert "status" != "name"; }
    }
    if FiltersStatus(status) {
      assert ps[1] == ("status", status);
    }
    if name == "" {
      assert ps[|ps| - 1].0 != "name" by {
        assert "status" != "name" && "page" != "name";
      }
    }
  }

  // ---------------------------------------------------------------------
  // updatePagination
  // ---------------------------------------------------------------------

  /** A numbered page button and whether it is marked active. */
  datatype PageButton = PageButton(number: int, active: bool)

  function Max(a: int, b: int): int { if a >= b then a else b }
  function Min(a: int, b: int): int { if a <= b then a else b }

  /**
   * The numbered buttons of `updatePagination`: the pages from
   * max(1, current - 2) to min(total, current + 2), the current one active.
   */
  method PageButtons(currentPage: int, totalPages: int) returns (buttons: seq<PageButton>)
    ensures |buttons| <= 5
    ensures forall k :: 0 <= k < |buttons| ==>
              buttons[k].number == Max(1, currentPage - 2) + k &&
              1 <= buttons[k].number <= totalPages &&
              currentPage - 2 <= buttons[k].number <= currentPage + 2 &&
              (buttons[k].active <==> buttons[k].number == currentPage)
    ensures |buttons| == Max(0, Min(totalPages, currentPage + 2) - Max(1, currentPage - 2) + 1)
    ensures 1 <= currentPage <= totalPages ==>
              exists k :: 0 <= k < |buttons| && buttons[k].number == currentPage && buttons[k].active
  {
    var startPage := Max(1, currentPage - 2);
    var endPage := Min(totalPages, currentPage + 2);
    buttons := [];
    var i := startPage;
    while i <= endPage
      invariant startPage <= i <= Max(startPage, endPage + 1)
      invariant |buttons| == i - startPage
      invariant forall k :: 0 <= k < |buttons| ==>
                  buttons[k].number == startPage + k &&
                  (buttons[k].active <==> buttons[k].number == currentPage)
    {
      buttons := buttons + [PageButton(i, i == currentPage)];
      i := i + 1;
    }
    if 1 <= currentPage <= totalPages {
      assert buttons[currentPage - startPage].number == currentPage;
    }
  }

  /** The state the handlers share: `currentPage`, `currentFilter` and `searchQuery`. */
  class Browser {
    var currentPage: int
    var currentFilter: string
    var searchQuery: string

    constructor ()
      ensures currentPage == 1 && currentFilter == "all" && searchQuery == ""
    {
      currentPage := 1;
      currentFilter := "all";
      searchQuery := "";
    }

    /** The URL `loadCharacters(currentPage, currentFilter, searchQuery)` requests. */
    function RequestUrl(): string
      reads this
    {
      CharacterApi + "?" + QueryString(QueryParams(currentPage, currentFilter, searchQuery))
    }

    /** The previous-page button: `None` when it does nothing, otherwise the URL it loads. */
    method Previous() returns (load: Option<string>)
      modifies this
      ensures old(currentPage) > 1 ==> currentPage == old(currentPage) - 1 && load == Some(RequestUrl())
      ensures old(currentPage) <= 1 ==> currentPage == old(currentPage) && load == None
      ensures currentPage == PageAfter(old(currentPage), old(currentPage), [], PreviousPage)
      ensures currentFilter == old(currentFilter) && searchQuery == old(searchQuery)
    {
      if currentPage > 1 {
        currentPage := currentPage - 1;
        var url := LoadCharactersUrl(currentPage, currentFilter, searchQuery);
        return Some(url);
      }
      return None;
    }

    /** The next-page button, with `totalPages` from the last response. */
    method Next(totalPages: int) returns (load: Option<string>)
      modifies this
      ensures old(currentPage) < totalPages ==> currentPage == old(currentPage) + 1 && load == Some(RequestUrl())
      ensures old(currentPage) >= totalPages ==> currentPage == old(currentPage) && load == None
      ensures currentPage == PageAfter(old(currentPage), totalPages, [], NextPage)
      ensures currentFilter == old(currentFilter) && searchQuery == old(searchQuery)
    {
      if currentPage < totalPages {
        currentPage := currentPage + 1;
        var url := LoadCharactersUrl(currentPage, currentFilter, searchQuery);
        return Some(url);
      }
      return None;
    }

    /**
     * The `k`-th of the numbered page buttons `buttons` that `PageButtons`
     * made for `totalPages` pages.
     */
    method GoTo(buttons: seq<PageButton>, k: nat, totalPages: int) returns (load: string)
      requires k < |buttons|
      modifies this
      ensures currentPage == buttons[k].number && load == RequestUrl()
      ensures currentPage == PageAfter(old(currentPage), totalPages, buttons, PageNumber(k))
      ensures currentFilter == old(currentFilter) && searchQuery == old(searchQuery)
    {
      currentPage := buttons[k].number;
      load := LoadCharactersUrl(currentPage, currentFilter, searchQuery);
    }

    /** The search button or Enter in the search box: the trimmed input from page 1. */
    method Search(input: string) returns (load: string)
      modifies this
      ensures searchQuery == Trim(input) && currentPage == 1 && load == RequestUrl()
      ensures currentPage == PageAfter(old(currentPage), 0, [], NewSearch)
      ensures currentFilter == old(currentFilter)
    {
      searchQuery := Trim(input);
      currentPage := 1;
      load := LoadCharactersUrl(currentPage, currentFilter, searchQuery);
    }

    /** A filter button, whose `data-filter` is `filter`: that filter from page 1. */
    method Filter(filter: string) returns (load: string)
      modifies this
      ensures currentFilter == filter && currentPage == 1 && load == RequestUrl()
      ensures currentPage == PageAfter(old(currentPage), 0, [], NewFilter)
      ensures searchQuery == old(searchQuery)
    {
      currentFilter := filter;
      currentPage := 1;
      load := LoadCharactersUrl(currentPage, currentFilter, searchQuery);
    }
  }

  /**
   * The page moves of the buttons and handlers; each `Browser` method
   * states that it moves the page as `PageAfter` says.
   */
  datatype Move = PreviousPage | NextPage | PageNumber(k: nat) | NewSearch | NewFilter

  /**
   * The page after a move, with `buttons` the numbered buttons on screen: a
   * numbered move clicks the k-th of them, if there is one.
   */
  function PageAfter(page: int, totalPages: int, buttons: seq<PageButton>, m: Move): int
  {
    match m
    case PreviousPage => if page > 1 then page - 1 else page
    case NextPage => if page < totalPages then page + 1 else page
    case PageNumber(k) => if k < |buttons| then buttons[k].number else page
    case NewSearch => 1
    case NewFilter => 1
  }

  /** Buttons whose numbers all lie in [1, totalPages], as `PageButtons` makes them. */
  predicate ButtonsInRange(buttons: seq<PageButton>, totalPages: int)
  {
    forall k :: 0 <= k < |buttons| ==> 1 <= buttons[k].number <= totalPages
  }

  /** A page in [1, totalPages] stays there whatever the user clicks. */
  lemma PageStaysInRange(page: int, totalPages: int, buttons: seq<PageButton>, m: Move)
    requires 1 <= page <= totalPages
    requires ButtonsInRange(buttons, totalPages)
    ensures 1 <= PageAfter(page, totalPages, buttons, m) <= totalPages
  {
  }

  /** Moves taken one after another. */
  function PageAfterAll(page: int, totalPages: int, buttons: seq<PageButton>, ms: seq<Move>): int
    decreases |ms|
  {
    if ms == [] then page
    else PageAfterAll(PageAfter(page, totalPages, buttons, ms[0]), totalPages, buttons, ms[1..])
  }

  /** Any sequence of moves keeps the page in [1, totalPages]. */
  lemma {:induction false} PageStaysInRangeAll(page: int, totalPages: int, buttons: seq<PageButton>, ms: seq<Move>)
    requires 1 <= page <= totalPages
    requires ButtonsInRange(buttons, totalPages)
    ensures 1 <= PageAfterAll(page, totalPages, buttons, ms) <= totalPages
    decreases |ms|
  {
    if ms != [] {
      PageStaysInRange(page, totalPages, buttons, ms[0]);
      PageStaysInRangeAll(PageAfter(page, totalPages, buttons, ms[0]), totalPages, buttons, ms[1..]);
    }
  }
}
