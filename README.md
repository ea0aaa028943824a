# Libgen API gateway: request shaping and download framing

This project models the logic of the FastAPI gateway in `app.py`, which sits in front of the
`LibgenSearch` catalogue library. The model covers the parts of the handlers that compute
something themselves:

- **Query validation.** All four search endpoints reject a query shorter than three characters
  with HTTP 400 and the detail `Query must be at least 3 characters long.`. The check runs before
  the searcher is called (module `Search`).
- **Filter flattening.** The two filtered endpoints turn the optional list of
  `Filter(field, value, exact_match)` into two values. The first is a field-to-value dictionary,
  where the last filter on a field wins. The second is one `exact_match` flag, equal to `all(...)`
  over the per-filter flags (module `Filters`). `exact_match` is `Optional[bool]` with default
  `True`, so it is modelled as `Option<bool>`, and `None` counts as falsy.
- **Download framing.** The `/download` handler takes the file name from the text after the last
  `/` of the URL (Python's `split("/")[-1]`, modelled in `PyStr`). It passes the upstream
  `Content-Type` through, or uses `application/octet-stream` when the header is missing. It sets
  `Content-Disposition: attachment; filename="<name>"`. A transport error becomes 500, and an
  upstream error status is passed through unchanged. Two failures escape both `except` clauses
  and reach the client as a bare 500 `Internal Server Error`. One is a fetch that fails before any
  request is sent, such as an invalid URL. The other is a file name or content type that cannot be
  encoded as Latin-1, which response headers require (module `Download`).
- **Column vocabulary.** `/columns` returns a fixed list of 15 field names (module `Columns`).

The searcher library is a value of type `Search.Searcher`. It holds four arbitrary functions and
nothing is assumed about what they return. Each search handler is split into two steps. The first
computes the `SearcherCall` the handler would make, with its exact arguments, or the error it
raises instead. The second runs that call. A rejected query has no call at all, and this is how
the model states that no searcher call is made. The outcome of the one HTTP GET in `/download` is
an input, `Download.FetchOutcome`. It is a transport failure with its message, a failure the
handler does not catch, or the upstream status, `Content-Type` header, body and text.

The gateway selects no records itself: it hands a dictionary and a flag to `LibgenSearch`, which
does the filtering. `/download` checks no URL, so every URL is fetched, and it passes the upstream
`Content-Type` through.

## Model

| member | source | states |
|---|---|---|
| `Filters.DefaultFilter` | app.py:25-28 | a filter whose body leaves `exact_match` out gets the flag `True`, which counts as truthy |
| `Filters.OrEmpty` | app.py:56 | `request.filters or []`: a missing list acts as the empty list, and a given list is used as is |
| `Filters.FieldValueMap` | app.py:56 | the keys of the filter dictionary are exactly the set of `field`s in the list |
| `Filters.LastFilterWins` | app.py:56 | the value under each field is the `value` of the last filter that names that field |
| `Filters.LastFiltersWin` | app.py:56 | the last-wins property holds for every position of the list at once |
| `Filters.FieldValueMapAppend` | app.py:56 | flattening `a + b` is the map union of the two flattenings, with `b` winning on shared fields |
| `Filters.AllExactIff` | app.py:57 | `all(f.exact_match ...)` is true iff every flag is `True`; an explicit `None` or `False` makes it false, and `all([])` is true |
| `Filters.AllExactAppend` | app.py:57 | the flag over `a + b` is the conjunction of the flags over `a` and over `b` |
| `Filters.RequestFilterMap` | app.py:56 | the dictionary keys are the fields of `request.filters or []`, each field maps to the value of the last filter naming it, and a missing list gives the empty dictionary |
| `Filters.RequestExactMatch` | app.py:57 | the flag is true iff every filter's flag is `True`; a missing list gives `True` |
| `Filters.OverriddenFilterStillDecidesMode` | app.py:56-57 | the flag is global: a `False` filter whose value a later filter on the same field overwrites still turns exact matching off |
| `Search.TitleCall` | app.py:37-39 | a call is made iff the query has at least 3 characters; a call is `search_title` on the query verbatim; otherwise the error is 400 with the fixed detail |
| `Search.AuthorCall` | app.py:46-48 | the same as `TitleCall`, for `search_author` |
| `Search.TitleFilteredCall` | app.py:54-58 | a call is made iff the query has at least 3 characters; it passes the query verbatim, the last-wins dictionary of `request.filters or []` and the flag that is true iff every filter flag is `True`; otherwise the error is 400 with the fixed detail |
| `Search.AuthorFilteredCall` | app.py:64-68 | the same as `TitleFilteredCall`, for `search_author_filtered` |
| `Search.SearchByTitle` | app.py:35-41 | a short query gives 400 and the fixed detail; any other query gives the searcher's title results for that query |
| `Search.SearchByAuthor` | app.py:44-49 | a short query gives 400 and the fixed detail; any other query gives the searcher's author results for that query |
| `Search.SearchTitleFilteredHandler` | app.py:52-59 | a short query gives 400; any other query gives the searcher's filtered title results for the query, the flattened dictionary and the flag |
| `Search.SearchAuthorFilteredHandler` | app.py:62-69 | a short query gives 400; any other query gives the searcher's filtered author results for the query, the flattened dictionary and the flag |
| `Search.ShortQueryNeverReachesSearcher` | app.py:34-69 | for a short query all four handlers give the same 400 error whatever the searcher does, so the searcher's answer is never used |
| `Search.FilteredEndpointsAgree` | app.py:54-68 | both filtered endpoints pass the same query, dictionary and flag; they differ only in which searcher operation gets them |
| `Search.MissingFiltersMeanNoFiltersStrict` | app.py:56-58 | with no filter list, or with an empty one, the filtered search gets an empty dictionary and `exact_match=True` |
| `PyStr.Split` | app.py:120 | `str.split(sep)` gives at least one piece, and no piece contains the separator |
| `PyStr.JoinSplit` | app.py:120 | joining the pieces of a split with the separator gives back the original string |
| `PyStr.SplitJoin` | app.py:120 | splitting a join of separator-free pieces gives back the pieces |
| `PyStr.SplitLast` | app.py:120 | the last piece is a suffix of the string; it is the whole string iff there is one piece, and otherwise a separator comes right before it |
| `Download.FileName` | app.py:120 | the file name contains no `/`, is a suffix of the URL, and is either the whole URL or preceded by a `/` |
| `Download.FileNameUnique` | app.py:120 | those three properties determine the file name: it is the longest suffix of the URL without a slash |
| `Download.FileNameWithoutSlash` | app.py:120 | a URL without `/` is its own file name |
| `Download.FileNameAfterTrailingSlash` | app.py:120-123 | a URL ending in `/` gives an empty file name and the header `attachment; filename=""` |
| `Download.MirrorLinkFileName` | app.py:120 | the file name of a typical mirror link is its last path segment, `book.pdf` |
| `Download.ContentType` | app.py:117 | the media type is the upstream `Content-Type` header when present, even when empty, and `application/octet-stream` otherwise |
| `Download.ContentDisposition` | app.py:123 | the header is `attachment; filename="` + name + `"`, and reading the name back out of it gives the name |
| `Download.FrameDownload` | app.py:110-130 | a transport error gives 500 with the error text appended to `Error downloading file: `; an uncaught fetch failure gives a bare 500; a non-2xx upstream gives its own status with the upstream text; a 2xx whose file name or content type is not Latin-1 gives a bare 500; any other 2xx gives 200 with the upstream body, the content type above and one `Content-Disposition` header naming the URL's file name |
| `Download.DownloadFile` | app.py:104-130 | no URL is rejected: for every URL the handler succeeds iff the fetch returned a 2xx response and the file name and content type are Latin-1; an upstream error status reaches the client unchanged; transport and uncaught failures give 500; on success the client gets the upstream body |
| `Download.DispositionLatin1` | app.py:123-124 | the `Content-Disposition` value can be encoded as Latin-1 iff the file name can |
| `Download.CyrillicFileNameFails` | app.py:120-130 | a 200 upstream for `https://h/к.pdf` still ends in a bare 500, because the file name is not Latin-1 |
| `Columns.ColumnNames` | app.py:83-86 | 15 pairwise-distinct names, in the order ID, Author, Title, Publisher, Year, Pages, Language, Size, Extension, Mirror_1 to Mirror_5, Edit |
| `Columns.ColumnSetSize` | app.py:83-86 | as a set the vocabulary has exactly 15 elements |

## Left out

- The FastAPI application, route decorators and CORS middleware (app.py:10-19) are framework setup.
- Pydantic parsing of query parameters and bodies (app.py:25-32) is left out. The model starts
  from parsed values, so a malformed body that FastAPI would reject with 422 is not modelled.
- What `LibgenSearch` does (searching, filtering records, resolving mirrors) is not part of this
  model. Its operations are arbitrary functions, so no property of the returned records is claimed.
- An exception raised by the searcher inside a search handler is not modelled. FastAPI would turn
  it into a 500.
- The `/resolve` handler (app.py:71-78) is left out. It only wraps the library's mirror resolution
  in a 500 error.
- The `/` welcome banner (app.py:89-101) and the `print` of results (app.py:40) are left out.
- The network fetch, `async`/`await` and `httpx` itself are left out. The fetch outcome is an
  input, and the model treats `raise_for_status` as raising for every status outside 200-299.
- The `Content-Type` lookup result is an input (`Option<string>`). `httpx`'s case-insensitive
  header names and the joining of repeated headers belong to that library.
- The response body is the upstream body, whole. Streaming and Starlette's own additions are left
  out, namely the `content-length` header and the `charset` it appends to `text/*` media types.
- Which fetch failures are uncaught is an input (`FetchOutcome.Uncaught`): the model does not say
  which URLs `httpx` refuses to parse.
- The file name is put into the header without escaping. A `"` in the URL therefore ends up in
  the header as is; the model shows this through `ContentDisposition` but does not model how
  clients read such a header.
- Query length is counted in Unicode scalar values (Dafny `char`), the same as Python's `len` on
  `str` for every string without lone surrogates.
