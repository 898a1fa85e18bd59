# gofile link scraper — a Dafny model

The scraper reads a list of RSS feed URLs and a ledger of gofile links it has
already handled. For each feed it fetches the body and extracts every
`https://gofile.io/d/<id>` link. It then visits the unseen links in sorted
order. Each visited link's page is opened in a headless browser: a page that
cannot be loaded or read, or whose text contains one of four "gone" phrases,
is dead. A dead link is recorded in the ledger. A live link is submitted to an
upload form and is recorded only when the submission succeeds. At the end the
ledger is rewritten, sorted, but only if something was recorded.

This project models that pipeline, with the network and the browser replaced by
inputs:

- `strings.dfy` (module `Strings`): the `[0-9A-Za-z]` character class, Python's
  substring test, Python's ordering of `str`, and `SortedList`, which is
  `sorted` applied to a set of strings.
- `extract.dfy` (module `Extract`): `set(GOFILE_REGEX.findall(text))`, written
  as the left-to-right scan that `findall` performs. A match is the literal
  prefix followed by the longest run of letters and digits. After a match the
  scan resumes at the end of the match.
- `liveness.dfy` (module `Liveness`): the verdict of `is_gofile_alive`. It
  takes the rendered page text as input, `None` when navigation or reading
  failed. The method `IsGofileAlive` keeps the source's loop, which tries the
  dead phrases in order and returns early.
- `run.dfy` (module `Run`): the body of `main` as the method `RunScraper`.
  - It has nested `for` loops over the feeds and over each feed's sorted links.
    The body of the inner loop is the method `VisitLink`.
  - It keeps the seen set and the `newSeen` flag in local variables.
  - It records each probe and each upload attempt, in order, in an event log.
  - It returns what is written to the ledger file, or `None` when nothing is.
  - The method is proved equal to a left-fold specification: `VisitUrl`,
    `VisitUrls`, `VisitSources`.
  - The ledger laws are proved about that specification through `Evolves`, a
    transitive relation between run states.
- `wrappers.dfy` (module `Wrappers`): `Option`.

The environment `Run.Env` gives two answers for the event about to be logged,
identified by its index in the log: the page text the browser renders for a
link, and whether an upload of a link succeeds. Indexing by the event lets a
link probed twice in one run get different answers. This happens when the link
appears in two feeds and its first upload failed.

## Model

| member | source | states |
|---|---|---|
| `Extract.IdEnd` | scraper.py:14 | the identifier part of a match is the longest run of `[0-9A-Za-z]` from its start: every character up to the end is a letter or digit, and the one at the end is not (or the text ends) |
| `Extract.Scan` | scraper.py:14 | the matches `findall` reports from a position on: where the pattern matches, the prefix and its longest identifier run, and the scan resumes after it; elsewhere it moves one character on |
| `Extract.FindAll` | scraper.py:73 | every element of `GOFILE_REGEX.findall(text)` is a link (the prefix and a non-empty run of letters and digits) that occurs in the text |
| `Extract.ExtractLinks` | scraper.py:73 | every element of `set(GOFILE_REGEX.findall(text))` is a link that occurs in the text |
| `Extract.ExtractedAreMaximalLinks` | scraper.py:73 | every extracted URL is `https://gofile.io/d/` followed by a non-empty run of ASCII letters and digits, occurs in the text, and is maximal there: the next character is not a letter or digit, or the text ends |
| `Extract.LinksAreExtracted` | scraper.py:73 | an occurrence of the pattern is extracted, with its whole identifier run, whenever no earlier occurrence's identifier run reaches past its start |
| `Extract.IsolatedLinksAreExtracted` | scraper.py:73 | every occurrence of the pattern that is not glued to a preceding letter, digit or `/` is extracted, with its whole identifier run |
| `Extract.LinkThenNoH` | scraper.py:73 | a link followed by text that starts with a non-alphanumeric character and contains no `h` gives exactly that one match |
| `Extract.GluedLinkSwallowed` | scraper.py:14 | in `https://gofile.io/d/<id>https://gofile.io/d/<id2>` the first match runs on to take in `https`, and the second link is not extracted |
| `Extract.FindAllSplit` | scraper.py:73 | `findall` over two texts joined by a separator character reports the matches of the first text, then those of the second; no match crosses a separator |
| `Extract.RepeatedTextSameLinks` | scraper.py:73 | a text repeated twice yields twice as many `findall` matches but the same set: a link occurring several times is one element of the result |
| `Liveness.Alive` | scraper.py:78-98 | the verdict of `is_gofile_alive`: the page was read and none of the dead phrases occurs in its text |
| `Liveness.IsGofileAlive` | scraper.py:78-98 | the verdict is `Alive(page)`: false when the page could not be loaded or read, false when any dead phrase occurs in the text, true otherwise; the loop tries the phrases in order and returns at the first hit |
| `Liveness.UnreadablePageIsDead` | scraper.py:80-92 | a failed navigation or a body text that cannot be read gives `false` |
| `Liveness.DeadPhraseMakesDead` | scraper.py:17-22 | a text containing any of the four phrases, whatever surrounds it, is dead |
| `Liveness.ReadablePageVerdict` | scraper.py:94-98 | for readable text, the link is alive exactly when none of the four phrases occurs as a substring |
| `Strings.Contains` | scraper.py:95 | Python's `pattern in text`: the empty string is in every text, and no string longer than the text is in it |
| `Strings.Below` | scraper.py:146 | Python's `<=` on `str`: lexicographic by code point, and a prefix is never above the string it starts |
| `Strings.SortedList` | scraper.py:146 | `sorted` of a set of strings: the members of the set, each exactly once, in strictly increasing code-point lexicographic order |
| `Strings.SortedListStartsWithLeast` | scraper.py:146 | the first element `sorted` returns for a non-empty set is its least member |
| `Strings.SortedListUnique` | scraper.py:146 | any strictly increasing sequence holding exactly the members of a set is its `SortedList`, so the visiting order and the saved ledger depend on the set alone |
| `Strings.BelowTotal` | scraper.py:146 | Python's `str` ordering is total: any two strings compare |
| `Strings.BelowTransitive` | scraper.py:146 | Python's `str` ordering is transitive |
| `Strings.BelowAntisymmetric` | scraper.py:146 | two strings that are each at most the other are equal |
| `Strings.LeastExists` | scraper.py:146 | every non-empty set of strings has a smallest member |
| `Run.CollectUrls` | scraper.py:59-75 | `collect_gofile_urls_from_rss` after the fetch: a failed fetch gives the empty set, a fetched body its extracted links |
| `Run.FeedLinks` | scraper.py:142-146 | the links extracted from any of the feeds: each feed's links are among them, and each of them comes from some feed |
| `Run.SavedLedger` | scraper.py:52-56 | the ledger file content is strictly sorted and holds exactly the members of the seen set |
| `Run.LedgerRoundTrip` | scraper.py:44-56 | reading a saved ledger back as a set gives the seen set that was saved |
| `Run.VisitUrl` | scraper.py:147-167 | one pass of the inner loop: skip a seen link; otherwise probe it, record it when dead, else upload it and record it when the upload succeeds |
| `Run.VisitUrls` | scraper.py:146-167 | the inner loop: the passes for the links in the given order, one after the other |
| `Run.VisitSources` | scraper.py:142-167 | the outer loop: for each feed in order, the inner loop over its links in sorted order |
| `Run.VisitUrlSkipsOrProbes` | scraper.py:147-167 | a link already seen is skipped with no event and no change of state; an unseen link is probed first, with the environment's verdict, at most one event follows, every new event is about that link, and the seen set gains at most that link |
| `Run.DeadStepEvolves` | scraper.py:153-158 | a link found dead is added to the seen set and sets the flag, after exactly one probe |
| `Run.AliveStepEvolves` | scraper.py:160-167 | a link found alive is uploaded right after its probe; it joins the seen set and sets the flag exactly when the upload succeeds, and a failed upload leaves both unchanged |
| `Run.VisitUrlEvolves` | scraper.py:147-167 | one pass of the inner loop keeps the ledger laws of `Evolves`: the log only grows, the seen set gains exactly the links the new events resolved, the flag follows, no seen link is probed, and uploads pair with alive probes |
| `Run.RunLedgerLaws` | scraper.py:140-167 | over a whole run: the seen set only grows; it grows by exactly the links found dead or uploaded successfully; `newSeen` is true exactly when the seen set grew strictly; no link that was seen, or that was resolved earlier in the run, is probed; every upload comes right after a probe of the same link that found it alive, and every such probe is followed by an upload |
| `Run.RunHandlesAll` | scraper.py:142-150 | no extracted link of any feed is passed over: after the run it is in the seen set or has been probed |
| `Run.RunTouchesOnlyFeedLinks` | scraper.py:142-167 | a run touches only links of its feeds: every probe and upload is about a link extracted from some feed, and the seen set gains no other link |
| `Run.VisitUrlsInOrder` | scraper.py:146-150 | within one feed, every event concerns a link of that feed, and the probes come in strictly increasing order of link |
| `Run.QuietWhenAllSeen` | scraper.py:146-150 | when every extracted link is already in the seen set, the run probes nothing, uploads nothing and changes nothing |
| `Run.SecondRunQuiet` | scraper.py:140-175 | a second run over the same feeds, from the seen set the first run saved, changes nothing and saves nothing, provided no upload failed in the first run |
| `Run.VisitLink` | scraper.py:147-167 | the statements of one pass of the inner loop compute the state `VisitUrl` specifies |
| `Run.RunScraper` | scraper.py:140-175 | the loop computes the specification's final state; the seen set is the initial one plus the resolved links, and holds no link outside the initial set and the feeds' links; every event is about a feed's link; `newSeen` holds exactly when the seen set grew; no seen link is probed; the ledger is written exactly when `newSeen` holds, as the sorted seen set |

## Left out

- Fetching a feed with `requests`, with its 30-second timeout and its error handling (scraper.py:64-71), is network I/O. Each feed is an input: `None` when the fetch failed, which contributes no links, or `Some(body)`.
- The browser is not modelled: Playwright, its browser, context and pages, navigation, `wait_for_timeout` settle delays, and the form filling of `upload_to_orevideo` (scraper.py:101-113, 122-138, 169). The page text and the upload outcome come from `Run.Env`.
- `load_sources`, `load_seen_urls` and `save_seen_urls` are not modelled as file operations: creating directories, handling a missing or corrupt file, and JSON encoding (scraper.py:27-56). The initial seen set is an input. What would be written is returned as the sorted list.
- Printing is left out throughout.
- Python strings may hold lone surrogate code points, which a Dafny `char` cannot represent. Apart from that, strings and their ordering are Python's.
- `scraper.py` has no verdict that aborts a run, no limit on probes per run, no fallback to mirror hosts, no normalisation of links without a scheme or with escaped slashes, and no decoding of redirector links; the model has none of these either.
- The model assumes that a run finishes. In `scraper.py` the settle delay at line 87, the call at line 153 outside the `try` blocks of `is_gofile_alive`, and `browser.close()` at line 169 can raise; `main` then ends before line 171 and nothing is saved, even when `new_seen` is already true. A crash that discards the run's progress is not captured.
- `Run.VisitLink`: the body of the inner loop of `main` is a method of its own, called from the loop of `RunScraper`, so that each proof stays small; the statements are those of scraper.py:147-167.
- `Extract.LinksAreExtracted` gives a sufficient condition for an occurrence to be extracted, not an exact one. An occurrence whose start lies inside an earlier occurrence's identifier run can still be found when that earlier occurrence was itself swallowed by a match before it. The exact condition is that no match the scan reports covers the occurrence's start; `Extract.GluedLinkSwallowed` shows an occurrence that is missed.
- `Extract.IsolatedLinksAreExtracted` covers only occurrences not glued to a preceding letter, digit or `/`, a special case of `Extract.LinksAreExtracted`. Glued occurrences such as `xhttps://gofile.io/d/A` are extracted too when nothing earlier swallows them.
