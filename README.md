# Margie's Travel search front end: the `/search` request translator

This project models the decision logic of the Margie's Travel web front
end (`01-azure-search/margies-travel/app.py`). The front end is a Flask
application over a hosted Azure Cognitive Search index. Its `/search`
handler does the following:

- It reads the query parameters `search`, `facet` and `sort`.
- It strips the search term with Python's `str.strip()`. A missing or blank term becomes the error page "Search term cannot be empty.", and the search service is not called.
- It builds the author filter `metadata_author eq '<facet>'` whenever a `facet` key is present. The value is pasted in without escaping.
- It picks the sort expression from a fixed five-entry table. Relevance (`search.score()`) is the default.
- It calls `search_query` once with `(text, filter, sort)`. It renders the results page with the stripped text as `search_terms`, or the error page with the failure's message when the call raises.

The handler is pure decision logic, so the model is written as functions and lemmas:

- `wrappers.dfy`: `Option`, for Python's `None`-or-value locals.
- `pystr.dfy` (module `PyStr`): `str.strip()` as CPython implements it. It uses index spans over the 29 code points for which `str.isspace()` is true. The lemmas characterise `Strip` completely: it is the unique trimmed core between two whitespace runs. It is empty exactly on all-whitespace input, and it is idempotent.
- `odata.dfy` (module `OData`): reads back the author value of a filter `metadata_author eq '...'` by the OData string-literal rule: a quote inside a literal is written twice. It inverts the handler's filter construction exactly on quote-free facets: the filter denotes the facet exactly when the facet holds no quote.
- `app.dfy` (module `MargiesTravel`): the parameters as `map<string, string>` and the translation into `EmptyTerm | Query(request)`, where a request is the triple (text, filter, sort). It also holds `search_query`, with its fixed client arguments recorded as constants, and the handler `Search`. `Search` returns the rendered page (`ErrorPage(message) | ResultsPage(results, terms)`) together with the log of `search_query` calls it made, so "called exactly once" and "never called" can both be stated.

The search service is a parameter: a function from the client call's arguments to either `Returned(results)` with an opaque result object, or `Raised(message)`.

## Model

| member | source | states |
|---|---|---|
| `PyStr.SkipSpace` | 01-azure-search/margies-travel/app.py:74 | the index reached from `i` is past a whitespace run and at a non-space or the end of the string |
| `PyStr.SkipSpaceBack` | 01-azure-search/margies-travel/app.py:74 | going back from `j`, the index reached is before a whitespace run and after a non-space or the lower bound |
| `PyStr.Strip` | 01-azure-search/margies-travel/app.py:74 | `strip()` returns a string with no whitespace at either end, never longer than its input |
| `PyStr.StripUnique` | 01-azure-search/margies-travel/app.py:74 | whenever the input is whitespace + a trimmed string + whitespace, `strip()` returns exactly that middle string |
| `PyStr.StripDecomposes` | 01-azure-search/margies-travel/app.py:74 | the input is a whitespace run, then `strip()` of it, then a whitespace run: only surrounding whitespace is removed |
| `PyStr.StripEmptyIffAllSpace` | 01-azure-search/margies-travel/app.py:74-75 | `strip()` gives `""` exactly when every character of the input is whitespace |
| `PyStr.AllSpaceStripsToEmpty` | 01-azure-search/margies-travel/app.py:74-75 | an all-whitespace string, `""` included, strips to `""` |
| `PyStr.StripOfTrimmed` | 01-azure-search/margies-travel/app.py:74 | a string without surrounding whitespace is returned unchanged |
| `PyStr.StripIdempotent` | 01-azure-search/margies-travel/app.py:74 | stripping twice is the same as stripping once |
| `OData.LiteralValue` | 01-azure-search/margies-travel/app.py:81 | a literal body that reads back gives a value shorter than the body, since the closing quote is consumed |
| `OData.AuthorRecoveredIffQuoteFree` | 01-azure-search/margies-travel/app.py:81 | the unescaped filter `metadata_author eq '<facet>'` reads back as the facet exactly when the facet contains no single quote |
| `MargiesTravel.SearchText` | 01-azure-search/margies-travel/app.py:74-75 | the search text has no surrounding whitespace, and is empty exactly when `search` is missing or all whitespace |
| `MargiesTravel.Translate` | 01-azure-search/margies-travel/app.py:74-93 | the term is rejected exactly when `search` is missing or blank; an accepted request has a non-empty trimmed text, a filter exactly when `facet` is present, and a sort expression from the table |
| `MargiesTravel.Search` | 01-azure-search/margies-travel/app.py:68-104 | the handler makes at most one `search_query` call, none exactly for a blank term, and a results page always shows a non-empty stripped term |
| `MargiesTravel.FilterExpression` | 01-azure-search/margies-travel/app.py:79-81 | a filter is produced exactly when the `facet` key is present, whatever its value |
| `MargiesTravel.SortExpression` | 01-azure-search/margies-travel/app.py:84-93 | the sort expression is always one of the five strings `search.score()`, `metadata_storage_name asc`, `metadata_storage_size desc`, `metadata_storage_last_modified desc`, `sentiment desc` |
| `MargiesTravel.SortFollowsTable` | 01-azure-search/margies-travel/app.py:84-93 | the if/elif chain agrees with the table relevance→`search.score()`, file_name→`metadata_storage_name asc`, size→`metadata_storage_size desc`, date→`metadata_storage_last_modified desc`, sentiment→`sentiment desc`; any other value gives `search.score()` and no error |
| `MargiesTravel.SortDefaultsToRelevance` | 01-azure-search/margies-travel/app.py:84-85 | the request sorts by `search.score()` exactly when `sort` is absent or is not one of `file_name`, `size`, `date`, `sentiment` |
| `MargiesTravel.MissingSearchRejected` | 01-azure-search/margies-travel/app.py:74-76 | a request without a `search` parameter reads the term as `""` and is rejected |
| `MargiesTravel.TranslateText` | 01-azure-search/margies-travel/app.py:74 | an accepted search text is the `search` parameter with a leading and a trailing whitespace run removed |
| `MargiesTravel.FilterCarriesFacet` | 01-azure-search/margies-travel/app.py:79-81 | with a `facet` key the filter is exactly `metadata_author eq '` + facet + `'`, and it denotes the facet exactly when the facet has no quote |
| `MargiesTravel.BlankTermMakesNoCall` | 01-azure-search/margies-travel/app.py:74-76 | a blank term gives the error page "Search term cannot be empty." and no `search_query` call |
| `MargiesTravel.BlankIgnoresClient` | 01-azure-search/margies-travel/app.py:74-76 | for a blank term the outcome is the same whatever the search client does: the client is never consulted |
| `MargiesTravel.TermMakesOneCall` | 01-azure-search/margies-travel/app.py:96 | a non-blank term makes exactly one `search_query` call, with (stripped text, filter, sort expression) |
| `MargiesTravel.OneCallDecides` | 01-azure-search/margies-travel/app.py:96-104 | for a non-blank term the outcome depends on the client only through its answer to that one call |
| `MargiesTravel.ResultsPageIffReturned` | 01-azure-search/margies-travel/app.py:96-99 | the results page appears exactly when the term is non-blank and the call returns; it shows the returned object and the stripped text as `search_terms` |
| `MargiesTravel.ErrorPageMessage` | 01-azure-search/margies-travel/app.py:72-104 | every error page carries either the empty-term message, for a blank term, or the message of the failed call |
| `MargiesTravel.FailureBecomesErrorPage` | 01-azure-search/margies-travel/app.py:101-104 | when the remote call raises, the handler catches the failure and renders the error page with that message |
| `MargiesTravel.ResultsTermsAreStripped` | 01-azure-search/margies-travel/app.py:74-99 | the `search_terms` shown with results are already stripped: stripping them again changes nothing |
| `MargiesTravel.BudgetBySize` | 01-azure-search/margies-travel/app.py:72-99 | `search=budget&sort=size` gives text `budget`, no filter, `metadata_storage_size desc`; with a client that returns, one call and a results page with `search_terms` `budget` |
| `MargiesTravel.ParisByAuthor` | 01-azure-search/margies-travel/app.py:72-93 | `search=paris&facet=jsmith` gives filter `metadata_author eq 'jsmith'` and `search.score()` |
| `MargiesTravel.SpacesOnly` | 01-azure-search/margies-travel/app.py:74-76 | `search=   ` gives the empty-term error page and no call |

## Left out

- ArgOr: a plain definition of `request.args.get(key, default)` with no contract of its own; the `""` default for `search` is stated by `SearchText` and `MissingSearchRejected`.
- SortField: a plain definition of the `sort` lookup with no contract of its own; its `relevance` default is stated by `SortDefaultsToRelevance`.
- SearchCall: a plain definition of the fixed client arguments (app.py:37-50) with no contract of its own; they are recorded as constants only.
- SearchQuery: a plain definition of the forwarding `search_query` wrapper with no contract of its own; the single forwarded call and the unchanged re-raise are stated by `OneCallDecides`, `ResultsPageIffReturned` and `FailureBecomesErrorPage`.
- Flask setup, routing, the `home()` route and `render_template` are web plumbing. Pages are modelled only as the `ErrorPage` and `ResultsPage` outcomes.
- Loading the environment (`load_dotenv`, `os.getenv`) and the startup `ValueError` when a setting is missing (app.py:13-20) are process configuration, not request handling.
- The Azure `SearchClient` and `AzureKeyCredential` run over the network in a library outside this model. Ranking, faceting and highlighting happen remotely. The client is a function parameter. Its fixed arguments are recorded as constants: `search_mode="all"`, `include_total_count=True`, `facets`, `highlight_fields` and `select`.
- The result object is opaque, of type parameter `R`. It is iterated lazily when the results template renders. A failure during that iteration is also caught by the handler's `except`, but rendering is not modelled.
- The `print` logging (app.py:55, app.py:103) and `app.run` are I/O.
- `request.args` is a multi-valued dictionary. The model keeps one value per key, the first, which is what `get` and `[]` return.
- `search_query` is called with no default arguments, because the handler always passes both a filter, possibly `None`, and a sort expression. `SearchQuery` takes both arguments explicitly.
