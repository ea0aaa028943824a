/**
 * The four search handlers. Each checks the query length first; only a
 * query that passes becomes a call on the searcher. A handler is modelled as
 * the call it would make (or the error it raises instead), followed by
 * running that call on the searcher.
 */
module Search {
  import opened Wrappers
  import opened Filters

  /** A search hit: field name to string value, as the searcher returns it. */
  type Record = map<string, string>

  /** The body of the two filtered search endpoints. */
  datatype SearchRequest = SearchRequest(query: string, filters: Option<seq<Filter>>)

  /**
   * The searcher library, whose behaviour is not part of this model: each
   * operation is an arbitrary function of the arguments it is given.
   */
  datatype Searcher = Searcher(
    searchTitle: string -> seq<Record>,
    searchAuthor: string -> seq<Record>,
    searchTitleFiltered: (string, map<string, string>, bool) -> seq<Record>,
    searchAuthorFiltered: (string, map<string, string>, bool) -> seq<Record>)

  /** A call a handler makes on the searcher, with its exact arguments. */
  datatype SearcherCall =
    | SearchTitle(query: string)
    | SearchAuthor(query: string)
    | SearchTitleFiltered(query: string, filters: map<string, string>, exactMatch: bool)
    | SearchAuthorFiltered(query: string, filters: map<string, string>, exactMatch: bool)
  {
    /** The query string the call forwards. */
    function Query(): string
    {
      match this
      case SearchTitle(q) => q
      case SearchAuthor(q) => q
      case SearchTitleFiltered(q, _, _) => q
      case SearchAuthorFiltered(q, _, _) => q
    }
  }

  const MinQueryLength: nat := 3
  const TooShortDetail: string := "Query must be at least 3 characters long."

  /** The error every search handler raises for a short query. */
  const TooShortQuery: HttpError := HttpError(400, TooShortDetail)

  /** Runs one call on the searcher. */
  function Run(searcher: Searcher, call: SearcherCall): seq<Record>
  {
    match call
    case SearchTitle(q) => searcher.searchTitle(q)
    case SearchAuthor(q) => searcher.searchAuthor(q)
    case SearchTitleFiltered(q, m, e) => searcher.searchTitleFiltered(q, m, e)
    case SearchAuthorFiltered(q, m, e) => searcher.searchAuthorFiltered(q, m, e)
  }

  /** Answers a request: the error if one was raised, else what the call returns. */
  function Respond(searcher: Searcher, plan: Result<SearcherCall, HttpError>): Result<seq<Record>, HttpError>
  {
    match plan
    case Failure(e) => Failure(e)
    case Success(call) => Success(Run(searcher, call))
  }

  /** The call `search_by_title` makes, or its error. */
  function TitleCall(query: string): (r: Result<SearcherCall, HttpError>)
    ensures r.Success? <==> |query| >= MinQueryLength
    ensures r.Failure? ==> r.error == TooShortQuery
    ensures r.Success? ==> r.value.SearchTitle? && r.value.Query() == query
  {
    if |query| < 3 then Failure(TooShortQuery) else Success(SearchTitle(query))
  }

  /** The call `search_by_author` makes, or its error. */
  function AuthorCall(query: string): (r: Result<SearcherCall, HttpError>)
    ensures r.Success? <==> |query| >= MinQueryLength
    ensures r.Failure? ==> r.error == TooShortQuery
    ensures r.Success? ==> r.value.SearchAuthor? && r.value.Query() == query
  {
    if |query| < 3 then Failure(TooShortQuery) else Success(SearchAuthor(query))
  }

  /** The call `search_title_filtered` makes, or its error. */
  function TitleFilteredCall(request: SearchRequest): (r: Result<SearcherCall, HttpError>)
    ensures r.Success? <==> |request.query| >= MinQueryLength
    ensures r.Failure? ==> r.error == TooShortQuery
    ensures r.Success? ==> r.value.SearchTitleFiltered? && r.value.Query() == request.query
    ensures r.Success? ==> r.value.filters == RequestFilterMap(request.filters)
    ensures r.Success? ==> r.value.exactMatch == RequestExactMatch(request.filters)
    ensures r.Success? ==> r.value.filters.Keys == Fields(OrEmpty(request.filters))
    ensures r.Success? ==> (r.value.exactMatch <==>
      forall i :: 0 <= i < |OrEmpty(request.filters)| ==> Truthy(OrEmpty(request.filters)[i].exactMatch))
  {
    if |request.query| < 3 then Failure(TooShortQuery)
    else
      Success(SearchTitleFiltered(request.query, RequestFilterMap(request.filters), RequestExactMatch(request.filters)))
  }

  /** The call `search_author_filtered` makes, or its error. */
  function AuthorFilteredCall(request: SearchRequest): (r: Result<SearcherCall, HttpError>)
    ensures r.Success? <==> |request.query| >= MinQueryLength
    ensures r.Failure? ==> r.error == TooShortQuery
    ensures r.Success? ==> r.value.SearchAuthorFiltered? && r.value.Query() == request.query
    ensures r.Success? ==> r.value.filters == RequestFilterMap(request.filters)
    ensures r.Success? ==> r.value.exactMatch == RequestExactMatch(request.filters)
    ensures r.Success? ==> r.value.filters.Keys == Fields(OrEmpty(request.filters))
    ensures r.Success? ==> (r.value.exactMatch <==>
      forall i :: 0 <= i < |OrEmpty(request.filters)| ==> Truthy(OrEmpty(request.filters)[i].exactMatch))
  {
    if |request.query| < 3 then Failure(TooShortQuery)
    else
      Success(SearchAuthorFiltered(request.query, RequestFilterMap(request.filters), RequestExactMatch(request.filters)))
  }

  /** `GET /search/title`. */
  function SearchByTitle(searcher: Searcher, query: string): (r: Result<seq<Record>, HttpError>)
    ensures |query| < MinQueryLength ==> r == Failure(TooShortQuery)
    ensures |query| >= MinQueryLength ==> r == Success(searcher.searchTitle(query))
  {
    Respond(searcher, TitleCall(query))
  }

  /** `GET /search/author`. */
  function SearchByAuthor(searcher: Searcher, query: string): (r: Result<seq<Record>, HttpError>)
    ensures |query| < MinQueryLength ==> r == Failure(TooShortQuery)
    ensures |query| >= MinQueryLength ==> r == Success(searcher.searchAuthor(query))
  {
    Respond(searcher, AuthorCall(query))
  }

  /** `POST /search/title/filtered`. */
  function SearchTitleFilteredHandler(searcher: Searcher, request: SearchRequest): (r: Result<seq<Record>, HttpError>)
    ensures |request.query| < MinQueryLength ==> r == Failure(TooShortQuery)
    ensures |request.query| >= MinQueryLength ==> r == Success(searcher.searchTitleFiltered(
      request.query, RequestFilterMap(request.filters), RequestExactMatch(request.filters)))
  {
    Respond(searcher, TitleFilteredCall(request))
  }

  /** `POST /search/author/filtered`. */
  function SearchAuthorFilteredHandler(searcher: Searcher, request: SearchRequest): (r: Result<seq<Record>, HttpError>)
    ensures |request.query| < MinQueryLength ==> r == Failure(TooShortQuery)
    ensures |request.query| >= MinQueryLength ==> r == Success(searcher.searchAuthorFiltered(
      request.query, RequestFilterMap(request.filters), RequestExactMatch(request.filters)))
  {
    Respond(searcher, AuthorFilteredCall(request))
  }

  /**
   * A short query never reaches the searcher: the four handlers answer it
   * with the same 400 error whatever the searcher would have returned.
   */
  lemma ShortQueryNeverReachesSearcher(s1: Searcher, s2: Searcher, query: string, filters: Option<seq<Filter>>)
    requires |query| < MinQueryLength
    ensures SearchByTitle(s1, query) == SearchByTitle(s2, query) == Failure(TooShortQuery)
    ensures SearchByAuthor(s1, query) == SearchByAuthor(s2, query) == Failure(TooShortQuery)
    ensures SearchTitleFilteredHandler(s1, SearchRequest(query, filters))
         == SearchTitleFilteredHandler(s2, SearchRequest(query, filters)) == Failure(TooShortQuery)
    ensures SearchAuthorFilteredHandler(s1, SearchRequest(query, filters))
         == SearchAuthorFilteredHandler(s2, SearchRequest(query, filters)) == Failure(TooShortQuery)
  {
  }

  /**
   * The two filtered endpoints flatten a request the same way: they differ
   * only in which searcher operation receives the arguments.
   */
  lemma FilteredEndpointsAgree(request: SearchRequest)
    requires |request.query| >= MinQueryLength
    ensures var t := TitleFilteredCall(request).value;
      var a := AuthorFilteredCall(request).value;
      t.query == a.query && t.filters == a.filters && t.exactMatch == a.exactMatch
  {
  }

  /** Without a filter list the filtered search gets an empty dictionary and strict matching. */
  lemma MissingFiltersMeanNoFiltersStrict(query: string)
    requires |query| >= MinQueryLength
    ensures TitleFilteredCall(SearchRequest(query, None))
         == TitleFilteredCall(SearchRequest(query, Some([])))
         == Success(SearchTitleFiltered(query, map[], true))
  {
  }
}
