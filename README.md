# A model of a simple polite web crawler

`PycharmProjects/crawler.py` crawls the web from a seed URL. Two functions
carry its logic, and this project models both in Dafny and proves what they
promise.

- `ok_to_crawl(absolute_url)` decides whether a URL may be fetched. The
  checks run in a fixed order:
  1. a `mailto:` link is refused, in any letter case;
  2. a `javascript:` link is refused, in any letter case;
  3. a URL whose parsed scheme begins with `file` is accepted;
  4. a URL without a scheme or a hostname is refused;
  5. otherwise the host's `robots.txt` file decides for the user agent `*`.
     If that file cannot be read, the URL is refused.

  Module `Permission` (`permission.dfy`) models this. `Decide` holds the
  part taken from the URL alone. `OkToCrawl` adds the robots verdict.
  `urlparse` is the oracle `parse`, which gives a `Url` of scheme and
  hostname. Reading the robots file is the oracle `robots`, which gives
  `Unreadable` or the parsed `Rules`.
- `crawl(seed_url)` keeps two sets. `urls_tocrawl` is the frontier and
  starts as `{seed_url}`. `urls_visited` starts empty. The loop runs while
  the frontier is not empty and fewer than `MAX_URLS` (10) URLs have been
  visited. Each iteration pops an arbitrary URL. If that URL is not yet
  visited, the loop fetches it. If the page is not empty, the loop adds the
  page's links to the frontier and marks the URL visited.

  Module `Crawler` (`crawler.dfy`) models this as the method `Crawl`, with
  a `while` loop over two local sets. The pop is `:|`. Termination uses the
  measure `(MaxUrls - |visited|, |frontier|)`. `get_page` and
  `extract_links` are the oracles `page` and `links`. A ghost out-parameter
  `fetched` records every URL handed to `page`, in order. The contract is
  stated over this trace.

Module `Text` (`text.dfy`) holds the string operations the decision uses:
`str.startswith` and `str.lower`.

Behaviour of the code worth knowing, which the model keeps:
- A fetch that returns an empty page does not mark the URL visited
  (`crawler.py:86-89`). So a seed whose fetch fails gives the empty set, not
  `{seed}`.
- A URL whose fetch failed can be fetched again later in the same run, if
  another page links to it.
- Only successful fetches count toward `MAX_URLS`. `Crawl` bounds the number
  of successful fetches by 10 (`SuccessCount`), not the number of attempts.
- Any scheme that begins with `file` is accepted, for example `files` or
  `filesystem` (`crawler.py:50`).

## Model

| member | source | states |
|---|---|---|
| Text.StartsWith | PycharmProjects/crawler.py:45-50 | `str.startswith`: holds exactly when the prefix is no longer than the string and agrees with it character by character |
| Text.Lower | PycharmProjects/crawler.py:45-50 | `Lower`, the model of `str.lower()`, keeps the length and lower-cases each ASCII letter in place |
| Text.LowerStartsWith | PycharmProjects/crawler.py:45-50 | for a lower-case prefix, lower-casing and then `startswith` is exactly a case-insensitive prefix test, in both directions |
| Permission.RobotsUrl | PycharmProjects/crawler.py:58 | the robots location is 14 characters longer than scheme and hostname together, starts with the scheme, holds the hostname after "://" and ends in "/robots.txt"; its injectivity is `RobotsUrlInjective` below |
| Permission.Decide | PycharmProjects/crawler.py:45-58 | the part of `ok_to_crawl` taken from the URL alone, in the code's order; its properties are the case lemmas below (`MailLinkRefused`, `ScriptLinkRefused`, `FileSchemeAccepted`, `NotAbsoluteRefused`, `RobotsDecide`) |
| Permission.OkToCrawl | PycharmProjects/crawler.py:27-67 | `ok_to_crawl(url)`; its properties are the case lemmas below, `RobotsReadOnlyWhenAsked`, and the if-and-only-if `OkToCrawlIsPermitted` |
| Permission.CaseInsensitiveTests | PycharmProjects/crawler.py:45-50 | the three lower-casing tests of the code (`mailto:`, `javascript:`, scheme `file`) are case-insensitive prefix tests |
| Permission.MailLinkRefused | PycharmProjects/crawler.py:45-46 | a URL that begins with `mailto:` in any case is refused (`Refused(MailLink)`) whatever `urlparse` and the robots file say |
| Permission.ScriptLinkRefused | PycharmProjects/crawler.py:47-48 | a `javascript:` URL that is not a mail link is refused (`Refused(ScriptLink)`) whatever `urlparse` and the robots file say |
| Permission.FileSchemeAccepted | PycharmProjects/crawler.py:49-51 | a URL that is neither a mail nor a script link, and whose scheme begins with `file` in any case, is accepted without reading a robots file |
| Permission.NotAbsoluteRefused | PycharmProjects/crawler.py:52-55 | otherwise, an empty scheme or an empty hostname means refusal, and no robots file is read |
| Permission.RobotsDecide | PycharmProjects/crawler.py:56-67 | in the remaining case the robots location is exactly `scheme + "://" + hostname + "/robots.txt"`; the result is that file's `can_fetch("*", url)`, or false if the file cannot be read |
| Permission.RobotsReadOnlyWhenAsked | PycharmProjects/crawler.py:58-67 | two robots oracles that agree on the one location `Decide` asks about (or any two, when it asks none) give the same verdict |
| Permission.OkToCrawlIsPermitted | PycharmProjects/crawler.py:27-67 | `OkToCrawl` is true exactly when the one-formula reading `Permitted` holds: not mail, not script, and either a `file` scheme or an absolute URL whose readable robots file allows `*` |
| Permission.RobotsUrlInjective | PycharmProjects/crawler.py:58 | for schemes without ':' (`urlparse` never puts one in a scheme), different (scheme, hostname) pairs give different robots locations, so each host is asked about its own file |
| Crawler.CrawlStarts | PycharmProjects/crawler.py:80-81 | the loop invariant holds for frontier `{seed}`, empty visited set and empty trace |
| Crawler.FetchStep | PycharmProjects/crawler.py:83-89 | popping an unvisited URL and fetching it keeps the invariant: with a page, its links join the frontier and it becomes visited; with "" it is only dropped |
| Crawler.SkipStep | PycharmProjects/crawler.py:83-84 | popping an already visited URL only removes it from the frontier and keeps the invariant |
| Crawler.WaitingIsSeedOrLinked | PycharmProjects/crawler.py:80-88 | a URL waiting in the frontier is the seed, or some fetch has already succeeded |
| Crawler.CrawlEnds | PycharmProjects/crawler.py:82-90 | on exit the frontier is empty or exactly `MAX_URLS` URLs are visited; otherwise every link of a visited page was visited or fails to fetch |
| Crawler.Crawl | PycharmProjects/crawler.py:71-90 | terminates for any oracles. At most `MAX_URLS` URLs are visited. The visited set is the set of fetched URLs with a non-empty page. The first fetch is the seed. No visited URL is fetched again. Every later fetch follows a link of an earlier successful one. At most `MAX_URLS` fetches succeed. Each visited URL is the seed or a link of a visited page. The result is closed under links unless the ceiling was reached. A seed whose page is "" gives `{}` |
| Crawler.SuccessCountIsVisited | PycharmProjects/crawler.py:84-89 | because a visited URL is never fetched again, the number of successful fetches equals the number of visited URLs |
| Crawler.VisitedOnlyGrows | PycharmProjects/crawler.py:84-89 | the visited set after a prefix of the fetch trace is contained in the visited set after any longer prefix |
| Crawler.VisitedFromSeedOrLinks | PycharmProjects/crawler.py:80-89 | every visited URL is the seed or in `extract_links(v, page(v))` for some visited `v` |
| Crawler.CrawlTwoPageCycle | PycharmProjects/crawler.py:80-90 | two pages that link only to each other: crawling from one visits exactly both and stops |

## Left out

- `get_page` (`crawler.py:94-116`) does network I/O and UTF-8 decoding. It is
  the oracle `page`, a pure function in which "" means failure. So a second
  fetch of a URL whose first fetch failed gives "" again. The real network
  might answer differently. No exception of `get_page` is modelled: its
  handlers (`crawler.py:108-113`) catch only `URLError` and
  `UnicodeDecodeError`, so for example the `ValueError` that `urlopen`
  raises for a URL without a scheme (the seed of `crawl("example.com")`),
  or an exception while reading the response, would end `crawl` at
  `crawler.py:85`. In the model `page` is total and `Crawl` always returns.
- `extract_links` (`crawler.py:118-181`) is unfinished in the source. It
  collects regular-expression matches and resolves them with `urljoin`, but
  it has no `return`. As written it returns `None`, and `urls_tocrawl |
  more_urls` would then raise `TypeError`. It is the oracle `links`, which
  gives a finite set. The regular expressions, URL joining and the intended
  filtering through `ok_to_crawl` are not modelled.
- `urllib.parse.urlparse` is the total oracle `parse`. A missing hostname is
  "". No exception raised by `urlparse` is modelled, for example its
  `ValueError` on a malformed IPv6 host or on a network location that
  changes under NFKC normalisation.
- `urllib.robotparser.RobotFileParser` (`read` and `can_fetch`) is the oracle
  `robots`. Its parsing of the exclusion rules is library code. Only an
  exception from `read()` is modelled (as `Unreadable`). An exception from
  `can_fetch`, which re-parses the URL in the `else:` branch of the
  `try` at `crawler.py:61-67` that the `except` does not cover, would escape
  `ok_to_crawl`; it is not modelled, and
  `canFetch` is total.
- Text.Lower: lower-cases ASCII letters only and keeps the length. Python's
  `str.lower` also maps non-ASCII letters, a few of them to ASCII letters
  (the Kelvin sign to `k`), and it can lengthen a string (`'\u0130'.lower()`
  is `'i\u0307'`, two characters). The three prefix tests of
  `crawler.py:45-50` are unaffected: no prefix holds `k`, and each `i` in a
  prefix is followed by an ASCII character, never by U+0307.
- `main` (`crawler.py:219-232`) has a hard-coded URL and does only I/O.
- Every `print` call.
- `MAX_URLS` is the constant `MaxUrls = 10`, as in the code. It is not a
  parameter.
