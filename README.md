# Static blog generator: string and ordering layer

A model of the decision logic of the blog's site generator (`generator/main.go`).
The generator walks a content tree and mirrors it into a target tree. Each HTML page is wrapped in a
shared template. Every article page (an `index.html` whose path mentions `articles`) gets a
metadata banner and is registered. Afterwards a homepage lists the registered articles, newest first.

The model keeps the parts that decide what the site looks like:

- mapping a content path to its target path;
- deriving an article's canonical URL;
- building the metadata banner, including Go's `%d` formatting;
- dispatching walk entries, using `filepath.Ext` semantics;
- detecting articles, using `strings.Contains` and `filepath.Base` semantics;
- validating release dates the way `time.Parse("2006-01-02", …)` does, and ordering them by `After`;
- the append-only `articles` registry;
- the homepage's sort and its preview-concatenation loop.

The CONTENT_PATH and TARGET_PATH lookups become the `contentDir` and `targetDir` of a
`Site.Generator` object. Everything the original reads from disk or gets from goquery or JSON
decoding is passed in as a parameter:

- the body and document serialisations of a parsed page;
- the decoded `metadata.json`, or the error reading it produced;
- the heading-to-link rewrite applied to each article on the homepage.

Each file-system effect a handler would perform comes back as a `Site.Action` value.

Modules:

- `Strings`: prefix, suffix, `Index`, `Contains` and digits.
- `Paths`: path mapping, URL, `Ext`, `Base`.
- `Dates`: the date layout and calendar.
- `Banner`: the banner and `%d`.
- `Content`: dispatch, detection and fragment fallback.
- `HomePage`: sorting and previews.
- `Site`: the generator object holding the registry.
- `Results`: `Option` and `Result`.

Two behaviours of the code that are easy to misread:

- Article detection tests the *content* path, not the mapped target path. It is a plain substring
  test for `articles`, not a path-segment match, so `myarticles/index.html` is an article
  (`Content.SubstringDetection`).
- The homepage sort is `sort.Slice`, which is not stable. The model promises a permutation whose
  dates never increase, and nothing about the order of articles with equal dates. Equal dates can
  occur, so the order is non-increasing rather than strictly descending.

## Model

| member | source | states |
|---|---|---|
| Strings.Index | generator/main.go:120 | `strings.Index`: a non-negative result is an occurrence with no earlier one; -1 exactly when the pattern occurs nowhere |
| Strings.Contains | generator/main.go:159 | `strings.Contains` holds exactly when the pattern occurs at some index |
| Paths.TargetPathFromContentPath | generator/main.go:76-84 | a path under the content root becomes the target root followed by the same remainder; any other path is returned unchanged |
| Paths.MappingRoundTrip | generator/main.go:80-83 | mapping a path under the content root and mapping back with the roots swapped restores it, so the remainder is preserved verbatim |
| Paths.MappingInjective | generator/main.go:80-83 | two content paths under the root map to the same target path only if they are equal |
| Paths.ConvertArticlePathToUrl | generator/main.go:118-126 | the result is a suffix of the path; if "/articles/" occurs, it starts with the marker and no occurrence lies before it; otherwise it is the whole path |
| Paths.UrlStartsWithMarker | generator/main.go:118-126 | the URL starts with "/articles/" exactly when the path contains it |
| Paths.Ext | generator/main.go:220 | `filepath.Ext`: a suffix of the path that is empty or starts at a '.' with no later '.' or '/'; empty only when every '.' is followed by a later '/' |
| Paths.ExtIsHtmlIff | generator/main.go:220 | `Ext(path) == ".html"` exactly when the path ends in ".html", case-sensitively |
| Paths.Base | generator/main.go:159 | `filepath.Base` is never empty; it is "/" exactly for a non-empty path of slashes only, and otherwise contains no '/' |
| Paths.BaseIsIff | generator/main.go:159 | the base name is `name` exactly when the path, with trailing slashes trimmed, is `name` or ends in "/" + `name` |
| Content.Dispatch | generator/main.go:216-223 | directories are mirrored; non-directories ending in ".html" are transformed; all other files are copied; the three cases are exclusive and exhaustive |
| Content.UpperCaseHtmlIsCopied | generator/main.go:220 | "page.HTML" is copied raw while "page.html" is transformed |
| Content.IsArticle | generator/main.go:159 | an HTML file is an article exactly when "articles" occurs anywhere in its path and its trimmed path is "index.html" or ends in "/index.html" |
| Content.SubstringDetection | generator/main.go:159 | "myarticles/index.html" is an article: the test is a substring match |
| Content.OtherPageNotArticle | generator/main.go:159 | a page under an articles directory whose name is not index.html is not an article |
| Content.ExtractFragment | generator/main.go:151-157 | the fragment is one of the two serialisations; a non-empty body is preferred; an error or an empty fragment can only come from the whole-document fallback; a document that serialises to something never yields an empty fragment |
| Dates.DaysIn | generator/main.go:167 | the number of days is fixed for every month: 28 for February of a common year, 29 for February of a leap year, 31 for months 1, 3, 5, 7, 8, 10, 12, and 30 otherwise |
| Dates.ParseDate | generator/main.go:167-170 | a parsed date is a valid calendar date whose "YYYY-MM-DD" rendering is exactly the input text |
| Dates.ParseFormatRoundTrip | generator/main.go:167-170 | every valid date written as "YYYY-MM-DD" parses back to itself; with ParseDate's contract, parsing succeeds exactly on such strings |
| Dates.LeapDayAccepted | generator/main.go:167-170 | "2024-02-29" is accepted |
| Dates.CommonYearLeapDayRejected | generator/main.go:167-170 | "2023-02-29" is rejected although it has the layout's shape |
| Dates.ShortMonthRejected | generator/main.go:167-170 | a one-digit month ("2024-1-05") is rejected |
| Dates.AfterIsStrictTotalOrder | generator/main.go:228 | `After` is irreflexive, asymmetric, transitive and total on distinct dates |
| Dates.LaterReleaseFirst | generator/main.go:227-229 | "2024-03-01" and "2024-01-01" parse, and the first is after the second |
| Banner.NatToString | generator/main.go:110-113 | decimal digits only, at least one, no leading zero unless the value is 0 |
| Banner.IntToString | generator/main.go:110-113 | `%d` output contains no space |
| Banner.IntToStringRoundTrip | generator/main.go:110-113 | reading back the `%d` text of any integer gives that integer |
| Banner.AddMetadataToArticle | generator/main.go:109-116 | the result is the article-info tag followed by the untouched fragment, and nothing else |
| Banner.BannerUnambiguous | generator/main.go:109-116 | for release dates without spaces, the banner-prefixed page determines the date, word count, minutes and original fragment |
| Banner.BannerExample | generator/main.go:110-115 | {2024-01-10, 500, 3} gives exactly "2024-01-10 • 500 words • 3 minutes" inside the article-info tag, immediately before the content |
| HomePage.InsertByDate | generator/main.go:227-229 | inserting into a list ordered newest first keeps it ordered and adds exactly the one article |
| HomePage.SortByDateDescending | generator/main.go:227-229 | the sorted registry is a permutation of the old one and its dates never increase from front to back |
| HomePage.SortExample | generator/main.go:227-229 | of two articles with different dates, the later one is listed first |
| HomePage.BuildPreviews | generator/main.go:231-253 | the builder loop produces exactly `Previews` of the articles in order |
| HomePage.PreviewsAppend | generator/main.go:231-253 | the previews of two runs of articles are the first run's previews followed by the second's |
| HomePage.PreviewsAt | generator/main.go:231-253 | every article contributes exactly one `<div class="article-preview">…</div>` block plus a newline, between the blocks of the articles before and after it |
| Site.Generator.constructor | generator/main.go:29 | the registry starts empty and the roots are the configured ones |
| Site.Generator.HandleHtmlFile | generator/main.go:151-186 | a failed fragment extraction is an error; a non-article page is written to its mapped path with the registry unchanged; for an article, a metadata error or invalid release date is an error with nothing registered or written; otherwise exactly one article is appended, holding the parsed date, banner-prefixed content and derived URL, and that content is written |
| Site.Generator.HandleEntry | generator/main.go:211-224 | according to Dispatch, a directory becomes a mirrored directory and any other non-HTML file a copy, both with the registry unchanged; an HTML file gets exactly HandleHtmlFile's outcome: the error, the written content and the single appended article in each of its five cases |
| Site.Generator.GenerateHomePage | generator/main.go:226-253 | the registry is re-ordered in place to a permutation whose dates never increase, and the preview text is the in-order concatenation of one block per article |

## Left out

- Environment lookups (generator/main.go:49-74) and their panics: the roots are constructor parameters. The template path is not needed, because template parsing is not modelled.
- File-system effects are not modelled; handlers return the `Action` they would perform. This covers `os.MkdirAll`, `os.RemoveAll`, opening the template and the source, `os.Create`/`io.Copy`, and `os.WriteFile`, with each of their errors.
- `filepath.WalkDir`: traversal order, its error callback and its panic are library behaviour. Only the dispatch of a single entry is modelled. A write failing after an article was appended aborts the run in the original; that abort is not modelled.
- goquery (a foreign HTML library) is not modelled. Page parsing is replaced by the `body`/`document` parameters. `#content` injection is represented by the `slot` of `WritePage`. Template serialisation is left out. The h1-to-link rewrite is the `rewrite` function parameter. The parse and serialisation panics of generateHomePage (generator/main.go:233-246) are left out, because `rewrite` is total.
- JSON decoding of metadata.json (generator/main.go:90-107): the handler receives the decoded `ArticleInfo` or the error text.
- The homepage write to `filepath.Join(targetDir, "index.html")` (generator/main.go:255-276): `GenerateHomePage` returns the preview text that would fill the template's content slot. Join's path cleaning is not modelled.
- Banner.IntToString: Go's `int` is 64 bits wide and the model's is unbounded. The JSON decoder rejects out-of-range values before formatting, so this decoding bound is not modelled.
- `time.Time` internals: times of day and zones are not modelled. Dates compare as (year, month, day) triples, which matches `After` on midnight-UTC values from this layout.
- Go strings are byte sequences; the model uses `seq<char>`. Every character compared by the modelled logic is ASCII. The "•" in the banner counts as one character here and is three UTF-8 bytes in the original.
- Path separators: `Ext`, `Base` and the article tests assume '/' is the only separator and that there are no volume names. On Windows, `filepath` also splits on '\\' and strips volume names; that is not modelled.
