# CloudScraper crawl engine in Dafny

CloudScraper fetches a target web page and extracts every `http://` or
`https://` link from it. It then crawls the in-scope links round by round,
down to a depth bound, and finally reports the visited links that contain a
cloud-storage keyword (`amazonaws.com`, `windows.net`, ...).

This project models that engine as one pipeline:

- `start`: fetch the target and gather its links.
- `spider`: the round loop over the visited list `base_urls` and the frontier
  `wannabe`.
- `parser`: the keyword match.
- The pieces these use:
  - `gather_links`: a regular-expression scan, the `checker` filter and
    deduplication.
  - `worker`: the depth gate and the fetch.
  - `cleaner`: the target normaliser.

Modules:

- `Text`: what the engine borrows from Python. This is `str.strip` with
  Python's `isspace` set, the substring test `w in s`, `str.count`,
  `list(set(xs))` and `filter`.
- `Links`: the link pattern written out as a left-to-right scanner
  (`MatchAt`, `Spans`), and `gather_links` (`GatherLinks`).
- `Crawl`: `worker`, the specification functions of a round, and the class
  `Spider`. `Spider` holds `baseUrls` and `wannabe` as fields that its methods
  update in place. `Crawl` also holds `Start`.
- `Matcher`: `parser`, the default keyword list and the keyword selection of
  `main`.
- `Targets`: `cleaner`.

The network, `rfc3987.parse` and the URL authority are parameters of the
model, bundled in `Crawl.Config`:

- `fetch` gives the page text, or `None` for a `RequestException`;
- `valid` is `checker`;
- `authority` is `parse(url)['authority']`.

`spider` loops with `while True` and stops only when a round discovers no
link. It can therefore run forever on a site that keeps producing new URLs.
`Spider.Run` and `Start` take a ghost finite set `universe` that contains
every worker's output, and prove termination under that hypothesis.

Two behaviours of `cleaner` are modelled as written:

- A line with leading whitespace and no `http` keeps that whitespace after
  the new scheme. `" example.com\n"` becomes `"https:// example.com"`.
- A host such as `httpbin.org`, written without a scheme, contains `http`,
  so it gets no scheme added.

## Model

| member | source | states |
|---|---|---|
| Text.Strip | CloudScraper.py:180-182 | `strip()` removes exactly the leading run of whitespace and a trailing run of whitespace. The result is a slice of the input, and its first and last characters are not whitespace |
| Text.StripTrimmed | CloudScraper.py:182 | a string with no whitespace at either end is unchanged by `strip()` |
| Text.StripIdempotent | CloudScraper.py:182 | `strip()` applied twice gives the same result as once |
| Text.StripKeepsWord | CloudScraper.py:179-182 | an occurrence of a word without whitespace survives `strip()` |
| Text.CountChar | CloudScraper.py:71 | `str.count` of one character is the number of its occurrences, its multiplicity in the string. It is at most the length and zero exactly when the character is absent |
| Text.Dedup | CloudScraper.py:41 | `list(set(xs))` has no duplicates and holds exactly the elements of `xs` |
| Text.Filter | CloudScraper.py:38 | `filter` keeps exactly the elements satisfying the predicate, and keeps a duplicate-free list duplicate-free |
| Links.InClass | CloudScraper.py:37 | a character is in the pattern's repeated group exactly when it lies between space and `z` and is not `"`, `#` or a backquote. So a space, `'`, `<` or `>` does not end a link |
| Links.TokenAtEnd | CloudScraper.py:37 | a slice is a whole-pattern match iff the scheme starts there and every character after the scheme, at least one, is in the class |
| Links.TokenSchemeIsLowerCase | CloudScraper.py:37 | every match starts with lower-case `http`, so `HTTP://` never matches |
| Links.MatchAt | CloudScraper.py:37 | a match found at a position is non-empty and ends inside the text |
| Links.MatchAtSpec | CloudScraper.py:37 | the scanner's match at a position is a token, and the character after it is not in the class (the `+` is greedy). When the scanner finds none, no token starts there |
| Links.Spans | CloudScraper.py:37 | every reported span lies inside the text, at or after the scan position, is non-empty and is the match found at its start |
| Links.SpansAreTokens | CloudScraper.py:37 | every span `re.findall` reports is a token that cannot be extended |
| Links.SpansOrdered | CloudScraper.py:37 | the spans are reported left to right and do not overlap |
| Links.SpansComplete | CloudScraper.py:37 | every position where a match starts lies inside a reported span, so no match is skipped |
| Links.Tokens | CloudScraper.py:37 | `re.findall` returns one string per reported span, and each of them is a whole-pattern token |
| Links.GatherLinks | CloudScraper.py:32-41 | the result has no duplicates, and a string is in it iff it is a scanned token of the page and `checker` accepts it |
| Crawl.Slashes | CloudScraper.py:71 | the depth measure `url.count("/")` is the number of `/` characters in the url |
| Crawl.Worker | CloudScraper.py:64-85 | a url with more than depth + 2 slashes gives `[]`, and so does a failed fetch. Otherwise the result is duplicate-free and is exactly the checked tokens of the fetched page |
| Crawl.DepthGateSkipsFetch | CloudScraper.py:71-85 | beyond the depth bound the result does not depend on the fetch at all: the url is never fetched |
| Crawl.Harvest | CloudScraper.py:107-111 | the flattened worker outputs hold exactly the links some frontier url's worker returned |
| Crawl.Discovered | CloudScraper.py:107-111 | a round's `new_urls` is duplicate-free and holds exactly the links some frontier url's worker returned |
| Crawl.EmptyFrontierDiscoversNothing | CloudScraper.py:107-117 | a round over an empty frontier discovers nothing, so the loop exits |
| Crawl.InScope | CloudScraper.py:128 | the scope test holds for a url with the target's own authority, and for every url when the target's authority is empty. It fails when the target's authority is longer than the url's |
| Crawl.Frontier | CloudScraper.py:101 | the frontier built from a list is exactly its in-scope elements |
| Crawl.Unseen | CloudScraper.py:121 | the appended links are exactly the discovered links not already visited |
| Crawl.RoundKeepsInvariant | CloudScraper.py:105-130 | one round keeps the crawl invariant: the visited list is the seeds plus distinct appended urls, and every in-scope visited url is crawled or waiting. Everything a crawled url's worker returned is visited, and every appended url was returned by the worker of a crawled url visited before it |
| Crawl.TracedRound | CloudScraper.py:107-130 | a round keeps the discovery order. Each link it appends was returned by the worker of a frontier url, and that url was visited before the round |
| Crawl.TracedPositions | CloudScraper.py:103-130 | every url after the seeds in the visited list was returned by the worker of an in-scope url at an earlier position |
| Crawl.FirstVisitIsASeed | CloudScraper.py:103-130 | the first visited url cannot have been discovered, so a crawl from an empty seed list visits nothing |
| Crawl.FinalVisited | CloudScraper.py:103-133 | once the frontier is empty, the visited list extends the seeds without duplicates and is closed under the workers of its in-scope urls. Every url after the seeds was discovered by an earlier in-scope url |
| Crawl.RoundOutcome | CloudScraper.py:111-130 | after a round the next frontier is exactly the new in-scope links, every discovered link is visited, and the visited list stays duplicate-free |
| Crawl.RecordNext | CloudScraper.py:120-130 | one link of the append loop: a new link is appended, counted and, when in scope, queued; a visited one changes nothing |
| Crawl.AppendShrinksRest | CloudScraper.py:103-130 | a round that appends urls leaves fewer urls of the finite universe unvisited, which is the loop's termination measure |
| Crawl.Spider.constructor | CloudScraper.py:97-101 | the target authority is computed once, `base_urls` is the initial list, and the frontier is its in-scope part |
| Crawl.Spider.Round | CloudScraper.py:105-130 | one round appends exactly the unseen discovered links to `base_urls` and keeps everything before them. The new frontier is exactly the in-scope unseen links, every discovered link is then visited, `i` counts the appended links, and the invariant holds |
| Crawl.Spider.Record | CloudScraper.py:120-130 | the append loop extends `base_urls` by the unseen links in order, and the frontier by their in-scope part. It returns their number |
| Crawl.Spider.Visit | CloudScraper.py:121-130 | the loop body appends a link exactly when it is not in `base_urls` |
| Crawl.Spider.Run | CloudScraper.py:103-133 | the loop ends, given a finite universe of urls. On exit the frontier is empty, `base_urls` only grew, and every in-scope visited url was crawled. The invariant still holds, so every appended url was returned by a crawled url visited before it |
| Crawl.Start | CloudScraper.py:44-61 | a failed first fetch gives no report. Otherwise the visited list begins with the page's checked links and is duplicate-free. It is closed under the workers of its in-scope urls. Every later url was returned by the worker of an in-scope url at an earlier position, so nothing is visited that the seed page does not reach. The matches are `parser`'s result on it |
| Matcher.Hits | CloudScraper.py:147 | the nested comprehension collects exactly the links that contain some keyword |
| Matcher.Matches | CloudScraper.py:145-148 | the matches are duplicate-free and are exactly the links containing at least one keyword |
| Matcher.NoDomainsNoMatches | CloudScraper.py:147-148 | an empty keyword list gives no matches |
| Matcher.EmptyKeywordMatchesAll | CloudScraper.py:147 | an empty keyword matches every link |
| Matcher.SelectDomains | CloudScraper.py:187-191 | a keywords file wins over `-k`. Its lines, each stripped, become the keywords, so none has whitespace at its ends. Without a file the `-k` keywords are used if given, else the defaults, so the list is never empty |
| Matcher.BlankKeywordLineMatchesAll | CloudScraper.py:189-191 | a blank line in the keywords file strips to the empty keyword, so every link matches |
| Matcher.DefaultDomainsExample | CloudScraper.py:208 | with the default keywords, an S3 link is reported and an `example.com` link is not |
| Targets.Clean | CloudScraper.py:178-182 | without `http` in the input the result is `strip("https://" + u)`, that is the scheme followed by `u` stripped on the right. Otherwise it is `strip(u)` and still contains `http`. Either way it has no whitespace at its ends |
| Targets.CleanIdempotent | CloudScraper.py:178-182 | cleaning a cleaned target changes nothing |

## Left out

- HTTP: `requests.get`, redirects, the User-Agent header, TLS verification and
  the urllib3 warning switch. These are network I/O, so the fetch is the
  parameter `Config.fetch`, and a `RequestException` is its `None`.
- The `ThreadPoolExecutor`. It is concurrency, and `executor.map` keeps the
  frontier order, so the workers run one after another in `Crawl.Harvest`.
- The `rfc3987.parse` grammar is a foreign library. `checker` is the
  parameter `Config.valid`, and `parse(url)['authority']` is
  `Config.authority`.
- A `ValueError` that `parse(target)` may raise in `spider` is not modelled,
  because `Config.authority` is total.
- Console output: the banner, the coloured messages, the `tqdm` progress bar,
  the per-round count print and the match listing in `parser`. The model
  returns the values these print instead.
- Argument parsing, the global `arguments`, and reading the target and
  keyword files. These are I/O glue. The depth is `Config.depth`, and the
  keyword file's lines are a parameter of `Matcher.SelectDomains`.
- `main`'s loop over the target list is left out: each line goes through
  `Targets.Clean` and `Crawl.Start` independently.
- Crawl.Spider.Run: termination is proved only under the hypothesis that every
  worker's output lies in a finite set `universe`. The source may loop
  forever when that fails.
- Crawl.Start: it has the same finite-universe hypothesis as `Run`.
- Text.Dedup: `list(set(xs))` has no specified order. The model keeps the
  first occurrences in order, and the contracts state only contents and the
  absence of duplicates.
