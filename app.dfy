/**
 * The `/search` handler of the Margie's Travel web front end
 * (01-azure-search/margies-travel/app.py). The handler reads the query
 * parameters `search`, `facet` and `sort`, turns them into a search
 * request (trimmed search text, optional author filter, sort expression),
 * hands that request once to `search_query`, and renders either a results
 * page or an error page.
 *
 * The search service is not part of this model: `search_query` forwards to
 * a client function given as a parameter, which either returns an opaque
 * result object of type `R` or raises with a message.
 */
module MargiesTravel {
  import opened Wrappers
  import opened PyStr
  import opened OData

  /** The query string, `request.args`, one value per key. */
  type Args = map<string, string>

  /** `request.args.get(key, default)`: the value under `key`, or `default` when the key is absent. */
  function ArgOr(args: Args, key: string, default: string): string {
    if key in args then args[key] else default
  }

  const EmptyTermMessage: string := "Search term cannot be empty."

  // The five sort expressions the handler can send.
  const ScoreOrder: string := "search.score()"
  const NameOrder: string := "metadata_storage_name asc"
  const SizeOrder: string := "metadata_storage_size desc"
  const DateOrder: string := "metadata_storage_last_modified desc"
  const SentimentOrder: string := "sentiment desc"

  /** The sort choices the results page offers, with the expression each one stands for. */
  const SortTable: map<string, string> := map[
    "relevance" := ScoreOrder,
    "file_name" := NameOrder,
    "size" := SizeOrder,
    "date" := DateOrder,
    "sentiment" := SentimentOrder
  ]

  // ---------------------------------------------------------------------
  // Request translation
  // ---------------------------------------------------------------------

  /**
   * The search text: the `search` parameter, `""` when missing, stripped of
   * surrounding whitespace. It is empty exactly when the parameter is
   * missing or all whitespace, and otherwise neither starts nor ends with
   * whitespace.
   */
  function SearchText(args: Args): (r: string)
    ensures Trimmed(r)
    ensures r == [] <==> AllSpace(ArgOr(args, "search", ""))
  {
    StripEmptyIffAllSpace(ArgOr(args, "search", ""));
    Strip(ArgOr(args, "search", ""))
  }

  /** The author filter: present exactly when a `facet` key is, the facet interpolated without escaping. */
  function FilterExpression(args: Args): (r: Option<string>)
    ensures r.Some? <==> "facet" in args
  {
    if "facet" in args then Some(AuthorFilterPrefix + args["facet"] + [Quote]) else None
  }

  /** The `sort` parameter, `"relevance"` when missing. */
  function SortField(args: Args): string {
    ArgOr(args, "sort", "relevance")
  }

  /** The if/elif chain on the sort field: whatever the field, one of the five sort expressions. */
  function SortExpression(sortField: string): (r: string)
    ensures r == ScoreOrder || r == NameOrder || r == SizeOrder || r == DateOrder || r == SentimentOrder
  {
    if sortField == "file_name" then NameOrder
    else if sortField == "size" then SizeOrder
    else if sortField == "date" then DateOrder
    else if sortField == "sentiment" then SentimentOrder
    else ScoreOrder
  }

  /** The arguments of one `search_query` call. */
  datatype SearchRequest = SearchRequest(text: string, filter: Option<string>, sort: string)

  datatype Translation =
    | EmptyTerm
    | Query(request: SearchRequest)

  /**
   * The parameter-translation part of the handler, before the remote call.
   * The term is rejected exactly when `search` is missing or blank; an
   * accepted request has a non-empty trimmed text, a filter exactly when a
   * `facet` key is given, and one of the five sort expressions.
   */
  function Translate(args: Args): (r: Translation)
    ensures r.EmptyTerm? <==> AllSpace(ArgOr(args, "search", ""))
    ensures r.Query? ==>
              && r.request.text != [] && Trimmed(r.request.text)
              && (r.request.filter.Some? <==> "facet" in args)
              && r.request.sort in SortTable.Values
  {
    var text := SearchText(args);
    if text == [] then EmptyTerm
    else
      var sort := SortExpression(SortField(args));
      assert sort == SortTable[if sort == ScoreOrder then "relevance"
                               else if sort == NameOrder then "file_name"
                               else if sort == SizeOrder then "size"
                               else if sort == DateOrder then "date"
                               else "sentiment"];
      Query(SearchRequest(text, FilterExpression(args), sort))
  }

  // ---------------------------------------------------------------------
  // The remote call
  // ---------------------------------------------------------------------

  // Fixed arguments `search_query` passes to the search client.
  const SearchMode: string := "all"
  const FacetFields: seq<string> := ["metadata_author"]
  const HighlightFields: string := "merged_content-3,imageCaption-3"
  const SelectFields: string :=
    "metadata_storage_name,metadata_author,metadata_storage_size,"
    + "metadata_storage_last_modified,language,merged_content,"
    + "keyphrases,locations,imageTags,imageCaption, sentiment"

  /** The arguments of one `SearchClient.search` call. */
  datatype ClientCall = ClientCall(
    searchText: string,
    searchMode: string,
    includeTotalCount: bool,
    filter: Option<string>,
    orderBy: Option<string>,
    facets: seq<string>,
    highlightFields: string,
    select: string)

  /** What a call into the search service does: return a result object, or raise with a message. */
  datatype Reply<R> = Returned(results: R) | Raised(message: string)

  /** The client call `search_query` makes: the request as given, and the fixed arguments. */
  function SearchCall(text: string, filterBy: Option<string>, sortOrder: Option<string>): ClientCall {
    ClientCall(text, SearchMode, true, filterBy, sortOrder, FacetFields, HighlightFields, SelectFields)
  }

  /**
   * `search_query`: one client call; a result is returned as it is, and a
   * failure is logged and re-raised unchanged.
   */
  function SearchQuery<R>(client: ClientCall -> Reply<R>, text: string, filterBy: Option<string>, sortOrder: Option<string>): Reply<R> {
    client(SearchCall(text, filterBy, sortOrder))
  }

  // ---------------------------------------------------------------------
  // The handler
  // ---------------------------------------------------------------------

  datatype Page<R> = ErrorPage(message: string) | ResultsPage(results: R, terms: string)

  /** What `search_query(text, filter, sort)` answers to an accepted request. */
  function ReplyTo<R>(q: SearchRequest, client: ClientCall -> Reply<R>): Reply<R> {
    SearchQuery(client, q.text, q.filter, Some(q.sort))
  }

  /** The page the handler renders, with the `search_query` calls it made, in order. */
  datatype Handled<R> = Handled(page: Page<R>, calls: seq<SearchRequest>)

  /**
   * `search()`: an empty term is rejected before any call; otherwise one
   * `search_query` call, whose failure becomes an error page carrying its
   * message. At most one call is made, none exactly for a blank term, and
   * a results page shows a non-empty stripped term.
   */
  function Search<R>(args: Args, client: ClientCall -> Reply<R>): (r: Handled<R>)
    ensures |r.calls| <= 1
    ensures r.calls == [] <==> AllSpace(ArgOr(args, "search", ""))
    ensures r.page.ResultsPage? ==> r.page.terms != [] && Trimmed(r.page.terms)
  {
    match Translate(args)
    case EmptyTerm => Handled(ErrorPage(EmptyTermMessage), [])
    case Query(q) =>
      var page :=
        match ReplyTo(q, client)
        case Returned(results) => ResultsPage(results, q.text)
        case Raised(message) => ErrorPage(message);
      Handled(page, [q])
  }

  // ---------------------------------------------------------------------
  // Properties of the translation
  // ---------------------------------------------------------------------

  /** A request without a `search` parameter is rejected: the missing term reads as `""`. */
  lemma MissingSearchRejected(args: Args)
    requires "search" !in args
    ensures Translate(args) == EmptyTerm
  {
  }

  /**
   * An accepted term is the `search` parameter less a leading and a
   * trailing whitespace run.
   */
  lemma TranslateText(args: Args) returns (lead: string, trail: string)
    requires Translate(args).Query?
    ensures ArgOr(args, "search", "") == lead + Translate(args).request.text + trail
    ensures AllSpace(lead) && AllSpace(trail)
  {
    lead, trail := StripDecomposes(ArgOr(args, "search", ""));
  }

  /**
   * With a `facet` key, even one with an empty value, the filter is the
   * facet pasted verbatim between `metadata_author eq '` and `'`. Read in
   * the search service's literal syntax it denotes the facet value exactly
   * when that value holds no quote: a quote passes through unescaped and
   * changes the filter.
   */
  lemma FilterCarriesFacet(args: Args)
    requires "facet" in args
    ensures FilterExpression(args) == Some(AuthorFilterPrefix + args["facet"] + [Quote])
    ensures AuthorOf(FilterExpression(args).value) == Some(args["facet"]) <==> Quote !in args["facet"]
  {
    AuthorRecoveredIffQuoteFree(args["facet"]);
  }

  /**
   * The if/elif chain agrees with the sort table, and anything the table
   * does not list falls back to relevance order.
   */
  lemma SortFollowsTable(sortField: string)
    ensures SortExpression(sortField) == if sortField in SortTable then SortTable[sortField] else ScoreOrder
  {
  }

  /**
   * The request sorts by relevance exactly when `sort` is missing or is
   * none of the four other choices (`relevance` and unknown values alike).
   */
  lemma SortDefaultsToRelevance(args: Args)
    ensures SortExpression(SortField(args)) == ScoreOrder
        <==> "sort" !in args || args["sort"] !in {"file_name", "size", "date", "sentiment"}
  {
  }

  // ---------------------------------------------------------------------
  // Properties of the handler
  // ---------------------------------------------------------------------

  /** A blank term makes no `search_query` call and gives the fixed error page. */
  lemma BlankTermMakesNoCall<R>(args: Args, client: ClientCall -> Reply<R>)
    requires AllSpace(ArgOr(args, "search", ""))
    ensures Search(args, client) == Handled(ErrorPage(EmptyTermMessage), [])
  {
  }

  /** The client is never consulted for a blank term: any two clients give the same outcome. */
  lemma BlankIgnoresClient<R>(args: Args, c1: ClientCall -> Reply<R>, c2: ClientCall -> Reply<R>)
    requires AllSpace(ArgOr(args, "search", ""))
    ensures Search(args, c1) == Search(args, c2)
  {
  }

  /**
   * A non-blank term makes exactly one `search_query` call, with the
   * stripped text, the author filter and the sort expression.
   */
  lemma TermMakesOneCall<R>(args: Args, client: ClientCall -> Reply<R>)
    requires !AllSpace(ArgOr(args, "search", ""))
    ensures Search(args, client).calls
         == [SearchRequest(SearchText(args), FilterExpression(args), SortExpression(SortField(args)))]
  {
  }

  /**
   * For a non-blank term the outcome depends on the client only through
   * its answer to that one call.
   */
  lemma OneCallDecides<R>(args: Args, c1: ClientCall -> Reply<R>, c2: ClientCall -> Reply<R>)
    requires !AllSpace(ArgOr(args, "search", ""))
    requires var q := Translate(args).request;
             c1(SearchCall(q.text, q.filter, Some(q.sort))) == c2(SearchCall(q.text, q.filter, Some(q.sort)))
    ensures Search(args, c1) == Search(args, c2)
  {
  }

  /**
   * The results page appears exactly when the term is not blank and the
   * client returns; it shows the client's result object and the stripped
   * search text.
   */
  lemma ResultsPageIffReturned<R>(args: Args, client: ClientCall -> Reply<R>)
    ensures Search(args, client).page.ResultsPage?
        <==> Translate(args).Query? && ReplyTo(Translate(args).request, client).Returned?
    ensures Search(args, client).page.ResultsPage? ==>
              && Search(args, client).page.results == ReplyTo(Translate(args).request, client).results
              && Search(args, client).page.terms == SearchText(args)
  {
  }

  /**
   * Every error page carries either the fixed empty-term message, for a
   * blank term, or the message the client raised with.
   */
  lemma ErrorPageMessage<R>(args: Args, client: ClientCall -> Reply<R>)
    requires Search(args, client).page.ErrorPage?
    ensures if AllSpace(ArgOr(args, "search", ""))
            then Search(args, client).page.message == EmptyTermMessage
            else ReplyTo(Translate(args).request, client) == Raised(Search(args, client).page.message)
  {
  }

  /** A failing remote call is caught: the page is the error page with the failure's message. */
  lemma FailureBecomesErrorPage<R>(args: Args, client: ClientCall -> Reply<R>, message: string)
    requires !AllSpace(ArgOr(args, "search", ""))
    requires ReplyTo(Translate(args).request, client) == Raised(message)
    ensures Search(args, client).page == ErrorPage(message)
  {
  }

  /** The terms shown on a results page are already stripped: stripping them again changes nothing. */
  lemma ResultsTermsAreStripped<R>(args: Args, client: ClientCall -> Reply<R>)
    requires Search(args, client).page.ResultsPage?
    ensures Strip(Search(args, client).page.terms) == Search(args, client).page.terms
  {
    StripIdempotent(ArgOr(args, "search", ""));
  }

  // ---------------------------------------------------------------------
  // Worked requests
  // ---------------------------------------------------------------------

  /**
   * `/search?search=budget&sort=size`: no filter, largest files first, one
   * call, and a results page with `budget` as its terms.
   */
  lemma BudgetBySize<R>(args: Args, client: ClientCall -> Reply<R>, res: R)
    requires args == map["search" := "budget", "sort" := "size"]
    requires forall c :: client(c) == Returned(res)
    ensures Translate(args) == Query(SearchRequest("budget", None, SizeOrder))
    ensures Search(args, client) == Handled(ResultsPage(res, "budget"), [SearchRequest("budget", None, SizeOrder)])
  {
    assert SearchText(args) == "budget" by {
      StripOfTrimmed(args["search"]);
    }
    assert FilterExpression(args) == None;
    assert SortExpression(SortField(args)) == SizeOrder;
  }

  /** `/search?search=paris&facet=jsmith`: an author filter, relevance order. */
  lemma ParisByAuthor(args: Args)
    requires args == map["search" := "paris", "facet" := "jsmith"]
    ensures Translate(args) == Query(SearchRequest("paris", Some("metadata_author eq 'jsmith'"), ScoreOrder))
  {
    assert SearchText(args) == "paris" by {
      StripOfTrimmed(args["search"]);
    }
    assert FilterExpression(args) == Some("metadata_author eq 'jsmith'") by {
      assert AuthorFilterPrefix + args["facet"] + [Quote] == "metadata_author eq 'jsmith'";
    }
    assert SortExpression(SortField(args)) == ScoreOrder;
  }

  /** `/search?search=%20%20%20`. */
  lemma SpacesOnly<R>(args: Args, client: ClientCall -> Reply<R>)
    requires args == map["search" := "   "]
    ensures Search(args, client) == Handled(ErrorPage(EmptyTermMessage), [])
  {
    AllSpaceStripsToEmpty(args["search"]);
  }
}
