/** The public blog listing (app/blog/page.tsx): the published articles are
    fetched once, and a search box narrows them to the articles whose title
    or excerpt contains the query, ignoring case. */
module BlogSearch {
  import opened Types
  import opened Text
  import opened Seqs

  /** Whether `article` matches an already lower-cased query: its lower-cased
      title contains it, or it has an excerpt whose lower-cased text does. */
  predicate Matches(article: Article, query: string) {
    || Includes(ToLower(article.title), query)
    || (article.excerpt.Some? && Includes(ToLower(article.excerpt.value), query))
  }

  /** The callback handed to `filter` for a lower-cased query. */
  function Matcher(query: string): Article -> bool {
    a => Matches(a, query)
  }

  /** The articles the page shows for `searchQuery`: all of them when the
      query is blank; otherwise, in their order, those matching the query
      lower-cased but not trimmed (`SearchFilterSelects`). */
  function SearchFilter(articles: seq<Article>, searchQuery: string): (r: seq<Article>)
    ensures IsBlank(searchQuery) ==> r == articles
    ensures |r| <= |articles|
  {
    if IsBlank(searchQuery) then articles
    else Filter(Matcher(ToLower(searchQuery)), articles)
  }

  /** The search keeps the articles' order and keeps exactly the articles
      whose title or excerpt contains the lower-cased query, each as often
      as the fetched list holds it. */
  lemma SearchFilterSelects(articles: seq<Article>, searchQuery: string)
    ensures IsSubsequence(SearchFilter(articles, searchQuery), articles)
    ensures !IsBlank(searchQuery) ==> forall a ::
      multiset(SearchFilter(articles, searchQuery))[a] == if Matches(a, ToLower(searchQuery)) then multiset(articles)[a] else 0
    ensures !IsBlank(searchQuery) ==> forall a ::
      a in SearchFilter(articles, searchQuery) <==> a in articles && Matches(a, ToLower(searchQuery))
  {
    if IsBlank(searchQuery) {
      SubsequenceOfSelf(articles);
    } else {
      FilterSelects(Matcher(ToLower(searchQuery)), articles);
    }
  }

  /** Searching the search result again with the same query changes nothing. */
  lemma SearchFilterIdempotent(articles: seq<Article>, searchQuery: string)
    ensures SearchFilter(SearchFilter(articles, searchQuery), searchQuery) == SearchFilter(articles, searchQuery)
  {
    if !IsBlank(searchQuery) {
      FilterIdempotent(Matcher(ToLower(searchQuery)), articles);
    }
  }

  /** Lowering a string keeps each character's whitespace status. */
  lemma LowerKeepsWhitespace(s: string)
    ensures AllWhitespace(ToLower(s)) <==> AllWhitespace(s)
  {
    if AllWhitespace(ToLower(s)) {
      forall i | 0 <= i < |s| ensures IsWhitespace(s[i]) {
        assert IsWhitespace(ToLower(s)[i]);
      }
    }
  }

  /** The search ignores the case of the query: typing it in upper case
      shows the same articles as typing it in lower case. */
  lemma SearchIgnoresQueryCase(articles: seq<Article>, searchQuery: string)
    ensures SearchFilter(articles, ToLower(searchQuery)) == SearchFilter(articles, searchQuery)
  {
    LowerKeepsWhitespace(searchQuery);
    BlankIffAllWhitespace(searchQuery);
    BlankIffAllWhitespace(ToLower(searchQuery));
    ToLowerIdempotent(searchQuery);
  }

  /** The query is trimmed only to decide whether it is blank: a trailing
      space stays part of the searched text, so "FLU " misses the title
      "Flu" that "FLU" finds. */
  lemma TrailingSpaceIsSearched()
    ensures var a := Article(1, "Flu", "flu", "", None, None, 1, true, "", None);
      && SearchFilter([a], "FLU") == [a]
      && SearchFilter([a], "FLU ") == []
  {
    var a := Article(1, "Flu", "flu", "", None, None, 1, true, "", None);
    assert ToLower("Flu") == "flu";
    assert ToLower("FLU") == "flu";
    assert ToLower("FLU ") == "flu ";
    assert !IsBlank("FLU") by {
      assert !IsWhitespace("FLU"[0]);
      BlankIffAllWhitespace("FLU");
    }
    assert !IsBlank("FLU ") by {
      assert !IsWhitespace("FLU "[0]);
      BlankIffAllWhitespace("FLU ");
    }
    IncludesEmptyAndSelf("flu");
    IncludesNoLonger("flu", "flu ");
    assert Matches(a, "flu") && !Matches(a, "flu ");
    assert a in SearchFilter([a], "FLU");
    assert a !in SearchFilter([a], "FLU ");
  }

  /** The page's state: the fetched articles, the ones on screen, whether
      the fetch is outstanding, and the text in the search box. The filter
      effect runs whenever `articles` or `searchQuery` change, so between
      events the list on screen is always the search result. */
  class BlogPage {
    var articles: seq<Article>
    var filteredArticles: seq<Article>
    var isLoading: bool
    var searchQuery: string

    ghost predicate Valid()
      reads this
    {
      filteredArticles == SearchFilter(articles, searchQuery)
    }

    /** The first render: nothing fetched yet, loading, an empty query. */
    constructor()
      ensures articles == [] && filteredArticles == [] && isLoading && searchQuery == ""
      ensures Valid()
    {
      articles, filteredArticles := [], [];
      isLoading, searchQuery := true, "";
    }

    /** The search effect: show the articles matching the current query. */
    method ApplySearchFilter()
      modifies this
      ensures filteredArticles == SearchFilter(articles, searchQuery)
      ensures articles == old(articles) && searchQuery == old(searchQuery) && isLoading == old(isLoading)
    {
      if IsBlank(searchQuery) {
        filteredArticles := articles;
      } else {
        filteredArticles := Filter(Matcher(ToLower(searchQuery)), articles);
      }
    }

    /** The fetch of the published articles settles. On success the list
        becomes the fetched one (and is then searched); on failure the lists
        stay as they were. Either way loading is over. */
    method FetchCompleted(reply: Reply<seq<Article>>)
      requires Valid()
      modifies this
      ensures Valid()
      ensures reply.Ok? ==> articles == reply.value
      ensures reply.Fail? ==> articles == old(articles) && filteredArticles == old(filteredArticles)
      ensures reply.Ok? && IsBlank(searchQuery) ==> filteredArticles == reply.value
      ensures searchQuery == old(searchQuery) && !isLoading
    {
      match reply {
        case Ok(data) =>
          articles := data;
          filteredArticles := data;
          isLoading := false;
          ApplySearchFilter();
        case Fail(_) =>
          isLoading := false;
      }
    }

    /** The user edits the search box. */
    method SetSearchQuery(query: string)
      requires Valid()
      modifies this
      ensures Valid()
      ensures searchQuery == query && articles == old(articles) && isLoading == old(isLoading)
    {
      searchQuery := query;
      ApplySearchFilter();
    }
  }
}
