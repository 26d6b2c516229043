/**
 * The gallery component of src/App.js: the article list it loads, the two
 * facet option lists derived from it, and the filtered view that the two
 * `<select>` controls drive.
 */
module AppComponent {
  import opened JsValues
  import opened Sequences
  import opened Wrappers

  /** One success-story record as the component reads it. Each attribute is
      whatever the JSON carried: a string, `null`, or absent (`undefined`). */
  datatype Article = Article(
    id: JsValue,
    programDetail: JsValue,
    companyName: JsValue,
    learnerImage: JsValue)

  /** The two attributes the component offers as filters. */
  datatype Facet = Program | Company

  function FacetOf(a: Article, f: Facet): JsValue
  {
    match f
    case Program => a.programDetail
    case Company => a.companyName
  }

  /** `articles.map(article => article.program_detail)` (or `company_name`). */
  function FacetValues(articles: seq<Article>, f: Facet): seq<JsValue>
  {
    seq(|articles|, i requires 0 <= i < |articles| => FacetOf(articles[i], f))
  }

  /** `[...new Set(articles.map(...))]`: the option list of one facet. */
  function Options(articles: seq<Article>, f: Facet): (r: seq<JsValue>)
    ensures NoDuplicates(r)
    ensures |r| <= |articles|
  {
    Distinct(FacetValues(articles, f))
  }

  /** One facet test of the filter callback: a falsy selection (the empty
      string that the "All ..." option carries) accepts every article;
      otherwise the attribute must be `===` to the selected string, so no
      case folding, no trimming, and a `null` or absent attribute never
      matches. */
  predicate FacetAccepts(a: Article, f: Facet, selected: string)
  {
    selected == "" || FacetOf(a, f) == Str(selected)
  }

  /** The whole filter callback: both facet tests, joined by `&&`. */
  predicate Selected(a: Article, programFilter: string, companyFilter: string)
  {
    FacetAccepts(a, Program, programFilter) && FacetAccepts(a, Company, companyFilter)
  }

  /** `articles.filter(...)`: the selected articles, in list order. */
  function FilterArticles(articles: seq<Article>, programFilter: string, companyFilter: string): (r: seq<Article>)
    ensures |r| <= |articles|
    ensures forall i :: 0 <= i < |r| ==> Selected(r[i], programFilter, companyFilter)
  {
    if articles == [] then []
    else
      var rest := FilterArticles(articles[1..], programFilter, companyFilter);
      if Selected(articles[0], programFilter, companyFilter) then [articles[0]] + rest else rest
  }

  /** Line 59: `${endpoint}/assets/${article.learner_image}`. */
  function ImageUrl(endpoint: JsValue, image: JsValue): string
  {
    TemplateString(endpoint) + "/assets/" + TemplateString(image)
  }

  /** Reads the image reference back out of an asset URL built on `base`. */
  function AssetOf(base: string, url: string): Option<string>
  {
    var prefix := base + "/assets/";
    if |prefix| <= |url| && url[..|prefix|] == prefix then Some(url[|prefix|..]) else None
  }

  // ---------------------------------------------------------------------
  // Properties of the option lists (lines 19 and 20)
  // ---------------------------------------------------------------------

  /** An option is offered iff some loaded article carries that value. */
  lemma OptionsSoundAndComplete(articles: seq<Article>, f: Facet, v: JsValue)
    ensures v in Options(articles, f) <==> exists i :: 0 <= i < |articles| && FacetOf(articles[i], f) == v
  {
    var vs := FacetValues(articles, f);
    if v in Options(articles, f) {
      var i :| 0 <= i < |vs| && vs[i] == v;
      assert FacetOf(articles[i], f) == v;
    }
    if exists i :: 0 <= i < |articles| && FacetOf(articles[i], f) == v {
      var i :| 0 <= i < |articles| && FacetOf(articles[i], f) == v;
      assert vs[i] == v;
    }
  }

  /** Each value is offered once, and the options come in the order in which
      the values first appear among the loaded articles; no other list does
      both. */
  lemma OptionsDistinctInFirstSeenOrder(articles: seq<Article>, f: Facet)
    ensures NoDuplicates(Options(articles, f))
    ensures InFirstSeenOrder(Options(articles, f), FacetValues(articles, f))
    ensures forall r ::
              ((forall x :: x in r <==> x in FacetValues(articles, f)) && InFirstSeenOrder(r, FacetValues(articles, f)))
              ==> r == Options(articles, f)
  {
    DistinctFirstSeenOrder(FacetValues(articles, f));
    forall r | (forall x :: x in r <==> x in FacetValues(articles, f)) && InFirstSeenOrder(r, FacetValues(articles, f))
      ensures r == Options(articles, f)
    {
      DistinctUnique(FacetValues(articles, f), r);
    }
  }

  /** Every string option offered by a `<select>` picks at least one article
      when chosen on its own. */
  lemma OptionSelectsSomeArticle(articles: seq<Article>, f: Facet, selected: string)
    requires Str(selected) in Options(articles, f)
    ensures exists a :: a in articles && FacetAccepts(a, f, selected)
  {
    OptionsSoundAndComplete(articles, f, Str(selected));
    var i :| 0 <= i < |articles| && FacetOf(articles[i], f) == Str(selected);
    assert FacetAccepts(articles[i], f, selected);
  }

  // ---------------------------------------------------------------------
  // Properties of the filter (lines 30-36)
  // ---------------------------------------------------------------------

  /** An article is in the view iff it is in the full list and passes both
      facet tests, and it occurs there as often as in the full list. */
  lemma {:induction false} FilterKeepsExactlySelected(articles: seq<Article>, programFilter: string, companyFilter: string)
    ensures var r := FilterArticles(articles, programFilter, companyFilter);
            && (forall a :: a in r <==> a in articles && Selected(a, programFilter, companyFilter))
            && (forall a :: multiset(r)[a] == if Selected(a, programFilter, companyFilter) then multiset(articles)[a] else 0)
  {
    if articles != [] {
      FilterKeepsExactlySelected(articles[1..], programFilter, companyFilter);
      assert articles == [articles[0]] + articles[1..];
    }
  }

  /** The filtered view keeps the relative order of the full list. */
  lemma {:induction false} FilterIsSubsequence(articles: seq<Article>, programFilter: string, companyFilter: string)
    ensures IsSubsequence(FilterArticles(articles, programFilter, companyFilter), articles)
  {
    if articles != [] {
      FilterIsSubsequence(articles[1..], programFilter, companyFilter);
      var rest := FilterArticles(articles[1..], programFilter, companyFilter);
      if !Selected(articles[0], programFilter, companyFilter) && rest != [] {
        assert IsSubsequence(rest, articles);
      }
    }
  }

  /** With both selects on their "All ..." entry the view is the full list. */
  lemma {:induction false} FilterNothingSelected(articles: seq<Article>)
    ensures FilterArticles(articles, "", "") == articles
  {
    if articles != [] {
      FilterNothingSelected(articles[1..]);
      assert articles == [articles[0]] + articles[1..];
    }
  }

  /** The filter works element by element: it distributes over concatenation. */
  lemma {:induction false} FilterAppend(s: seq<Article>, t: seq<Article>, programFilter: string, companyFilter: string)
    ensures FilterArticles(s + t, programFilter, companyFilter)
         == FilterArticles(s, programFilter, companyFilter) + FilterArticles(t, programFilter, companyFilter)
  {
    if s == [] {
      assert s + t == t;
    } else {
      assert (s + t)[0] == s[0];
      assert (s + t)[1..] == s[1..] + t;
      FilterAppend(s[1..], t, programFilter, companyFilter);
    }
  }

  /** Filtering twice with the same selection changes nothing more. */
  lemma {:induction false} FilterIdempotent(articles: seq<Article>, programFilter: string, companyFilter: string)
    ensures var once := FilterArticles(articles, programFilter, companyFilter);
            FilterArticles(once, programFilter, companyFilter) == once
  {
    if articles != [] {
      FilterIdempotent(articles[1..], programFilter, companyFilter);
      var rest := FilterArticles(articles[1..], programFilter, companyFilter);
      if Selected(articles[0], programFilter, companyFilter) {
        assert ([articles[0]] + rest)[1..] == rest;
      }
    }
  }

  /** The two facets are combined by logical AND: filtering by both is
      filtering by the program alone, then by the company alone. */
  lemma {:induction false} FilterIsConjunction(articles: seq<Article>, programFilter: string, companyFilter: string)
    ensures FilterArticles(articles, programFilter, companyFilter)
         == FilterArticles(FilterArticles(articles, programFilter, ""), "", companyFilter)
  {
    if articles != [] {
      FilterIsConjunction(articles[1..], programFilter, companyFilter);
      var byProgram := FilterArticles(articles[1..], programFilter, "");
      if Selected(articles[0], programFilter, "") {
        assert ([articles[0]] + byProgram)[1..] == byProgram;
      }
    }
  }

  /** Matching is exact string equality: a label that differs only in case
      selects nothing, and a `null` or absent attribute is not matched by a
      filter. */
  lemma SelectionIsCaseSensitive(a: Article)
    requires a.companyName == Str("Acme")
    ensures FilterArticles([a], "", "Acme") == [a]
    ensures FilterArticles([a], "", "acme") == []
    ensures FilterArticles([a], "", "Acme ") == []
    ensures FilterArticles([a.(companyName := Null)], "", "Acme") == []
    ensures FilterArticles([a.(companyName := Undefined)], "", "Acme") == []
  {
  }

  // ---------------------------------------------------------------------
  // The image URL (line 59)
  // ---------------------------------------------------------------------

  /** The asset URL starts with the endpoint followed by `/assets/`, and the
      image reference can be read back from what follows. */
  lemma ImageUrlRoundTrip(endpoint: JsValue, image: JsValue)
    ensures AssetOf(TemplateString(endpoint), ImageUrl(endpoint, image)) == Some(TemplateString(image))
  {
  }

  /** Two articles get the same URL only if their image references render the
      same; an unset endpoint renders as the text "undefined". */
  lemma ImageUrlInjective(endpoint: JsValue, x: JsValue, y: JsValue)
    ensures ImageUrl(endpoint, x) == ImageUrl(endpoint, y) <==> TemplateString(x) == TemplateString(y)
    ensures ImageUrl(Undefined, x) == "undefined/assets/" + TemplateString(x)
  {
    if ImageUrl(endpoint, x) == ImageUrl(endpoint, y) {
      ImageUrlRoundTrip(endpoint, x);
      ImageUrlRoundTrip(endpoint, y);
    }
  }

  // ---------------------------------------------------------------------
  // The component state
  // ---------------------------------------------------------------------

  /** The four `useState` slots of the component. */
  class App {
    var articles: seq<Article>
    var programs: seq<JsValue>
    var companies: seq<JsValue>
    var filteredArticles: seq<Article>

    /** The option lists are always those of the full list, and the view
        is always an order-preserving part of it. */
    ghost predicate Valid()
      reads this
    {
      && programs == Options(articles, Program)
      && companies == Options(articles, Company)
      && IsSubsequence(filteredArticles, articles)
    }

    /** `useState([])` four times. */
    constructor ()
      ensures Valid()
      ensures articles == [] && programs == [] && companies == [] && filteredArticles == []
    {
      articles, programs, companies, filteredArticles := [], [], [], [];
    }

    /** The state updates of `fetchData` once the content has arrived. */
    method Load(content: seq<Article>)
      modifies this
      ensures Valid()
      ensures articles == content && filteredArticles == content
      ensures programs == Options(content, Program)
      ensures companies == Options(content, Company)
    {
      articles := content;
      programs := Options(content, Program);
      companies := Options(content, Company);
      filteredArticles := content;
      SubsequenceReflexive(content);
    }

    /** `filterContent`: recomputes the view from the full list (never from
        the previous view) and touches nothing else. */
    method FilterContent(programFilter: string, companyFilter: string)
      requires Valid()
      modifies this`filteredArticles
      ensures Valid()
      ensures filteredArticles == FilterArticles(articles, programFilter, companyFilter)
      ensures articles == old(articles) && programs == old(programs) && companies == old(companies)
    {
      filteredArticles := FilterArticles(articles, programFilter, companyFilter);
      FilterIsSubsequence(articles, programFilter, companyFilter);
    }
  }
}
