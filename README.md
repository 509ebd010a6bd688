# Personal website: verified model of its stateful and computational core

This project is a Dafny model of the logic behind a personal portfolio site, with proofs about it. The site is styled as a code editor and a music player. The model covers six parts:

- **Tabs** (`tabs.dfy`, `tab_store.dfy`).
  - Three fixed view kinds: internships, projects and blog.
  - The queries the tab bar makes.
  - The tab store: an ordered list of open tabs and an optional active kind.
  - The store's operations are open, close (with a clamped choice of the next active tab) and set-active.
  - The store is a class over `seq` fields. Each method is proved to equal a pure transition function, and every sequence of operations is proved to keep the store's invariant.
- **GitHub helpers** (`github.dfy`). Every network answer is an input.
  - The `rel="last"` page number read from a Link header.
  - A repository's commit count.
  - The per-language byte totals: the loop is a method proved against a specification function.
  - Rounded language percentages, sorted.
  - Top repositories by commits, and the commit total.
  - The two GraphQL queries: contribution totals and per-repository contributions under the key `owner/name`.
  - The colour table, and the exported `fetchWrappedData` summary.
- **Wrapped statistics** (`wrapped_data.dfy`). The `fetchData` merge:
  - the GraphQL or REST totals, plus the Shopify adjustment;
  - derived pull requests, project cards and active days;
  - the `shopify/checkout` prepend;
  - the fallback literal used when anything throws.
- **Wrapped slides** (`wrapped.dfy`).
  - A nine-slide index moved by arrows and progress-bar clicks, each through a timer.
  - The component class, whose `FetchData` fills the statistics.
- **Now playing** (`now_playing.dfy`). Three projects played like tracks:
  - cyclic next and previous;
  - the queue of the other two projects;
  - progress ticks clamped to each project's figure;
  - the `m:ss` time display.
- **Skill badges** (`skills.dfy`): gradient by name length, and two-letter capital initials.

Three modules are shared:

- `wrappers.dfy` holds `Option` and `Result`.
- `strings.dfy` holds ASCII case mapping, substring search, and decimal numerals with their parser.
- `sorting.dfy` models `Array.prototype.sort` with a `(a, b) => key(b) - key(a)` comparator. It is a stable descending insertion sort, proved ordered, a permutation and stable.

Each network request is an input. It either returned a value (`Ok`) or threw (`Err`). Timers are explicit steps:

- `setTimeout` in the slideshow is a list of pending targets, any of which may fire next.
- `setInterval` in the player is one `Tick` call.

## Model

| member | source | states |
|---|---|---|
| Tabs.Rank | src/domain/tabs.ts:14 | every kind has a position in the universe list, and the list holds the kind there |
| Tabs.CreateTab | src/domain/tabs.ts:16-18 | the created tab carries the requested kind |
| Tabs.IsTabOpen | src/domain/tabs.ts:20-22 | true exactly when some tab in the list has the kind |
| Tabs.FilterUnopened | src/domain/tabs.ts:25 | keeps exactly the given kinds that are not open; no longer than its input; keeps canonical order |
| Tabs.GetUnopenedTabTypes | src/domain/tabs.ts:24-26 | a kind is listed exactly when it is not open; the list is in canonical order, has no repeats and at most three entries |
| Tabs.UnopenedPartitionsUniverse | src/domain/tabs.ts:14-26 | unopened and open kinds are disjoint and together make the whole universe |
| Tabs.FilterKeepsUnopened | src/domain/tabs.ts:25 | when none of the listed kinds is open, the filter returns the list unchanged |
| Tabs.UnopenedOfNoTabs | src/domain/tabs.ts:14-26 | with no tabs open, every kind is offered in the canonical order |
| Tabs.UnopenedWhenAllOpen | src/domain/tabs.ts:24-26 | with all three kinds open, nothing is offered |
| TabStore.RemoveType | src/stores/tabStore.ts:27 | keeps exactly the tabs of other kinds; unchanged when the kind is absent; keeps kinds unique |
| TabStore.RemoveTypeAppend | src/stores/tabStore.ts:27 | the filter distributes over concatenation, so the remaining tabs keep their relative order |
| TabStore.FindIndex | src/stores/tabStore.ts:30 | -1 exactly when the kind is not open, otherwise the first position holding it |
| TabStore.RemoveTypeCutsOne | src/stores/tabStore.ts:27-30 | in a list with unique kinds, closing a kind cuts out exactly the tab at its index |
| TabStore.Open | src/stores/tabStore.ts:16-23 | an open kind is only activated; a new kind is appended at the end and activated; the invariant is kept |
| TabStore.OpenIdempotent | src/stores/tabStore.ts:16-23 | opening a kind twice equals opening it once |
| TabStore.Close | src/stores/tabStore.ts:25-37 | the remaining tabs are exactly those of other kinds; no change when the kind is absent; closing an inactive kind keeps the active one |
| TabStore.CloseActive | src/stores/tabStore.ts:29-33 | closing the active tab at index k activates remaining tab min(k, n-1), or nothing when none remain |
| TabStore.CloseValid | src/stores/tabStore.ts:25-37 | closing keeps tabs unique and the active kind open, and the closed kind is gone |
| TabStore.SetActive | src/stores/tabStore.ts:39-44 | a kind that is not open changes nothing; an open one becomes active with the tabs untouched |
| TabStore.RunPreservesValid | src/stores/tabStore.ts:12-45 | any sequence of open/close/set-active keeps tabs unique by kind and the active kind open |
| TabStore.ScenarioCloseInactive | src/stores/tabStore.ts:16-37 | open projects, open internships, close projects leaves only internships, still active |
| TabStore.ScenarioCloseLast | src/stores/tabStore.ts:25-37 | closing the only tab leaves no tabs and no active tab |
| TabStore.TabStore.constructor | src/stores/tabStore.ts:12-14 | the store starts with no tabs and no active tab |
| TabStore.TabStore.OpenTab | src/stores/tabStore.ts:16-23 | the new store state is `Open` of the old one |
| TabStore.TabStore.CloseTab | src/stores/tabStore.ts:25-37 | the new store state is `Close` of the old one |
| TabStore.TabStore.SetActiveTab | src/stores/tabStore.ts:39-44 | the new store state is `SetActive` of the old one |
| Strings.ToUpper | src/components/Skills.tsx:35 | same length; each ASCII lower-case letter becomes its capital and every other character stays |
| Strings.ToLower | src/components/Wrapped.tsx:139 | same length; each ASCII capital becomes lower case and every other character stays |
| Strings.Contains | src/components/Wrapped.tsx:139 | true exactly when the substring occurs at some position |
| Strings.SecondField | src/components/Wrapped.tsx:128 | the text after the first separator, up to the next separator or the end; contains no separator |
| Strings.NatToString | src/components/Wrapped.tsx:129 | a decimal numeral without leading zeros, one digit exactly below ten |
| Strings.ParseNatToString | src/lib/github.ts:147 | parsing the numeral of n gives n back |
| Strings.NatToStringParse | src/lib/github.ts:147 | a canonical numeral is the numeral of the number it parses to |
| Strings.PadStart2 | src/components/NowPlaying.tsx:72 | strings of length two or more stay; shorter ones are zero-filled on the left to length two |
| Sorting.SortDesc | src/lib/github.ts:179 | the output is ordered by descending key and is a permutation of the input |
| Sorting.SortDescStable | src/lib/github.ts:179 | elements with equal keys keep their input order |
| Sorting.SortDescConstantKey | src/lib/github.ts:92 | when all keys are equal, the sort leaves the sequence unchanged |
| Sorting.SumOfSortDesc | src/lib/github.ts:179 | sorting does not change the sum of any quantity over the elements |
| GitHub.MatchLengthIsDigitRun | src/lib/github.ts:145 | a match of `page=(\d+)>; rel="last"` captures the whole run of digits after `page=` |
| GitHub.MatchAt | src/lib/github.ts:145 | a value exactly when the pattern matches at that position; then it is the value of the captured digits |
| GitHub.FindMatch | src/lib/github.ts:145 | the value of the leftmost match at or after the position, with no match before it; none exactly when no match starts there or later |
| GitHub.LastPage | src/lib/github.ts:143-148 | a number exactly when the header contains a match; then it is the value of the leftmost match's digits |
| GitHub.LastPageRoundTrip | src/lib/github.ts:145-147 | the page number written into a `rel="last"` link is the one read back |
| GitHub.RepoCommitCount | src/lib/github.ts:125-158 | 0 when the fetch throws or the response is not ok; the last page when the Link header matches; otherwise the array length, or 0 for a non-array body |
| GitHub.AddBytes | src/lib/github.ts:68 | a language not yet present is appended with its bytes; a present one keeps its position and grows by the bytes, and every other entry stays where it was |
| GitHub.AddBytesLookup | src/lib/github.ts:68 | unique keys stay unique; the language's total grows by the bytes and every other total stays |
| GitHub.AddEntriesLookup | src/lib/github.ts:67-69 | after one repository's entries, each total grows by that language's bytes there, and a key exists exactly when it existed or was reported |
| GitHub.AccumulateSpec | src/lib/github.ts:58-77 | each total is the sum of the language's bytes over the repositories whose fetch succeeded; a key exists exactly when such a repository reports it; keys are unique |
| GitHub.AddLanguageData | src/lib/github.ts:67-69 | the inner loop adds one repository's entries exactly as `AddEntries` specifies |
| GitHub.LanguageStats | src/lib/github.ts:58-77 | the loop over the repositories computes exactly the dictionary `Accumulate` specifies |
| GitHub.TotalBytes | src/lib/github.ts:84 | the total is the sum of the byte counts |
| GitHub.RoundPercent | src/lib/github.ts:89 | the integer nearest to 100·bytes/total, halves rounded up; at most 100 when bytes do not exceed the total |
| GitHub.ToPercent | src/lib/github.ts:86-91 | one entry per language, with name and bytes kept and the rounded share, or no share (NaN) when the total is 0 |
| GitHub.LanguagePercentages | src/lib/github.ts:82-93 | one entry per language, a permutation of the unsorted entries, ordered by share from largest |
| GitHub.PercentagesWithoutBytes | src/lib/github.ts:84-92 | with no bytes at all, every share is NaN and the dictionary order is kept |
| GitHub.PercentagesSumNearHundred | src/lib/github.ts:84-92 | the n rounded shares add up to within n/2 of 100 |
| GitHub.TopReposByCommits | src/lib/github.ts:164-181 | min(limit, n) entries, ordered by commits, drawn from the input, none with fewer commits than any left out |
| GitHub.TotalCommitCount | src/lib/github.ts:186-192 | the total is at least every single count |
| GitHub.CommitCounts | src/lib/github.ts:188-190 | one count per repository, in order |
| GitHub.TotalIsSumOfCommits | src/lib/github.ts:186-192 | the total equals the sum of the per-repository commits |
| GitHub.TopReposWithinTotal | src/lib/github.ts:164-192 | the top repositories never hold more commits than the total over the same figures |
| GitHub.GetUserContributions | src/lib/github.ts:207-266 | succeeds exactly with a token, an ok response, no `errors` and a payload, and then returns the payload; no token is the token error |
| GitHub.RepoKeySplits | src/lib/github.ts:322 | an `owner/name` key splits at its first '/' back into owner and name |
| GitHub.NodesToRepoCommits | src/lib/github.ts:321-324 | one entry per node, keyed `owner/name`, with its total count |
| GitHub.ContributionsByRepo | src/lib/github.ts:271-325 | with no token, the token error; an `errors` member gives no entries; otherwise one `owner/name` entry per node with its count; fails exactly on a missing token, a failed or non-ok request, or a missing payload |
| GitHub.LanguageColor | src/lib/github.ts:353-372 | a listed language gets its colour; the default '#1db954' is returned exactly for unlisted languages |
| GitHub.Shares | src/lib/github.ts:339-343 | one entry per language with its name, share and table colour |
| GitHub.FetchWrappedData | src/lib/github.ts:329-350 | null exactly when either request failed; otherwise the first five sorted shares coloured by the table, and the top five repositories |
| WrappedData.WrappedLanguageColor | src/components/Wrapped.tsx:43-53 | one of the 18 listed colours, or '#1ED760' exactly for unlisted languages |
| WrappedData.WrappedColorsExtendHelper | src/components/Wrapped.tsx:43-53 | on the 15 languages both tables list, the component agrees with the GitHub helper; only the defaults differ |
| WrappedData.LiveLanguagesAreShares | src/components/Wrapped.tsx:116-123 | the fixed live breakdown adds up to 100 and is listed largest first |
| WrappedData.FallbackLanguagesAreShares | src/components/Wrapped.tsx:169-176 | the fallback breakdown adds up to 100 and is listed largest first |
| WrappedData.FallbackIsConsistent | src/components/Wrapped.tsx:165-194 | the fallback repositories are ordered by commits and include the Shopify entry; 1280 + 73 = 1353 contributions; five repositories and three projects |
| WrappedData.ShopifyEntryMentionsShopify | src/components/Wrapped.tsx:138-146 | the prepended entry itself passes the Shopify test, so a second pass would not prepend again |
| WrappedData.WithShopify | src/components/Wrapped.tsx:138-148 | unchanged when some name mentions shopify or checkout; otherwise the Shopify entry followed by the first entries, cut to five; the result always mentions Shopify |
| WrappedData.ShopifyPrependBreaksOrder | src/components/Wrapped.tsx:142-147 | a prepend in front of a repository with more than 30 commits leaves the list out of commit order |
| WrappedData.FindRepo | src/components/Wrapped.tsx:126 | finds a repository exactly when one matches by name or inclusion; the one found is the first match |
| WrappedData.ProjectName | src/components/Wrapped.tsx:128 | a name without '/' is shown as is; otherwise a shorter name without '/' |
| WrappedData.ProjectNameSplits | src/components/Wrapped.tsx:128 | for an `owner/name` key, the card shows the name |
| WrappedData.Tech | src/components/Wrapped.tsx:126-131 | the non-empty language of the first matching repository; "Various" exactly when no repository matches or the first match has no or an empty language; any other value is the language of a matching repository |
| WrappedData.Project | src/components/Wrapped.tsx:125-133 | the card's name, "N commits" metric, description by rank and technology |
| WrappedData.Projects | src/components/Wrapped.tsx:125-133 | one card per top repository, in order, each described by its position |
| WrappedData.Take | src/components/Wrapped.tsx:125 | the first min(n, length) elements |
| WrappedData.BaseTopRepos | src/components/Wrapped.tsx:93-106 | at most five repositories, ordered by commits, on either path |
| WrappedData.ActiveDays | src/components/Wrapped.tsx:135 | min(365, 15 · repository count) |
| WrappedData.AdjustedPRs | src/components/Wrapped.tsx:113 | a non-zero GraphQL count plus 10; otherwise floor(commits / 20) plus 10, where the commits already include the +30 |
| WrappedData.Load | src/components/Wrapped.tsx:56-197 | the fallback literal when anything threw; otherwise commits = base + 30, the adjusted pull requests, contributions = commits + pull requests, the live languages, the project cards, the Shopify-adjusted top list, the active days and the repository count |
| WrappedData.LoadShape | src/components/Wrapped.tsx:93-194 | in every case: 1 to 5 repositories including a Shopify entry, at most 3 projects, contributions = commits + pull requests, at most 365 active days |
| WrappedData.LoadTopReposOrder | src/components/Wrapped.tsx:93-148 | the top list is ordered by commits after its first entry, and throughout when nothing was prepended |
| WrappedData.WithShopifyOrder | src/components/Wrapped.tsx:138-148 | the adjustment keeps the commit order behind the first entry, and keeps all of it when nothing is prepended |
| WrappedData.WithShopifyEntries | src/components/Wrapped.tsx:138-148 | every entry after the adjustment is an original entry or the Shopify entry |
| WrappedData.LoadTopReposFromBase | src/components/Wrapped.tsx:125-148 | listed repositories come from the base top list or are the Shopify entry; the cards describe the first three base repositories in order |
| WrappedData.GraphQLFigures | src/components/Wrapped.tsx:93-113 | on the GraphQL path, commits are the reported total plus 30, and pull requests are the reported count plus 10 or floor((commits+30)/20) plus 10 |
| WrappedSlides.Schedule | src/components/Wrapped.tsx:217-218 | a click starts the animation and adds one pending target, leaving the index alone |
| WrappedSlides.Next | src/components/Wrapped.tsx:215-223 | schedules index + 1 below the last slide, and does nothing on it; stays on the slides |
| WrappedSlides.Previous | src/components/Wrapped.tsx:225-233 | schedules index - 1 above slide 0, and does nothing on it; stays on the slides |
| WrappedSlides.Jump | src/components/Wrapped.tsx:274 | schedules the clicked bar's slide; stays on the slides |
| WrappedSlides.Complete | src/components/Wrapped.tsx:218-220 | a fired timer applies its target, ends the animation and leaves the other timers pending |
| WrappedSlides.RunStaysOnSlides | src/components/Wrapped.tsx:203-233 | under any clicks and any firing order, the index stays among the nine slides |
| WrappedSlides.NextMovesOne | src/components/Wrapped.tsx:215-223 | with nothing pending, next animates and then lands exactly one slide on |
| WrappedSlides.PreviousMovesOne | src/components/Wrapped.tsx:225-233 | with nothing pending, previous animates and then lands exactly one slide back |
| WrappedSlides.PreviousUndoesNext | src/components/Wrapped.tsx:215-233 | next then previous, each completed before the next click, returns to the starting state |
| WrappedSlides.DoubleNextAdvancesOnce | src/components/Wrapped.tsx:215-223 | two quick clicks schedule the same target, so the slideshow advances once |
| WrappedSlides.ArrowsStopAtEnds | src/components/Wrapped.tsx:215-233 | next on the last slide and previous on the first do nothing |
| WrappedSlides.JumpLands | src/components/Wrapped.tsx:274 | a bar click with nothing pending lands on its slide |
| WrappedSlides.Wrapped.constructor | src/components/Wrapped.tsx:26-41 | slide 0, not animating, loading, the placeholder figures |
| WrappedSlides.Wrapped.HandleNext | src/components/Wrapped.tsx:215-223 | the slide state becomes `Next` of the old one; the data is untouched |
| WrappedSlides.Wrapped.HandlePrevious | src/components/Wrapped.tsx:225-233 | the slide state becomes `Previous` of the old one; the data is untouched |
| WrappedSlides.Wrapped.JumpTo | src/components/Wrapped.tsx:274 | the slide state becomes `Jump` of the old one; the data is untouched |
| WrappedSlides.Wrapped.CompleteTransition | src/components/Wrapped.tsx:218-220 | the slide state becomes `Complete` of the old one; the data is untouched |
| WrappedSlides.Wrapped.FetchData | src/components/Wrapped.tsx:56-201 | loading ends with the data equal to `Load` of the request outcomes; the slides are untouched |
| NowPlaying.ProjectsShape | src/components/NowPlaying.tsx:20-39 | three projects with targets 85, 75 and 90 |
| NowPlaying.ProjectsDistinct | src/components/NowPlaying.tsx:20-39 | the three projects differ, so `indexOf` finds each one at its own position |
| NowPlaying.NextIndex | src/components/NowPlaying.tsx:60 | the following project, wrapping from the last to the first; always a valid index |
| NowPlaying.PreviousIndex | src/components/NowPlaying.tsx:65 | the preceding project, wrapping from the first to the last; never negative |
| NowPlaying.NextPreviousInverse | src/components/NowPlaying.tsx:59-67 | previous undoes next and next undoes previous |
| NowPlaying.NextCycles | src/components/NowPlaying.tsx:60 | three presses of next return to the same project |
| NowPlaying.WithoutIndex | src/components/NowPlaying.tsx:42 | leaving out one position cuts that element out and keeps the rest in order |
| NowPlaying.WithoutIndexSpec | src/components/NowPlaying.tsx:42 | one element shorter; later elements shift down by one; every other element remains; with distinct elements, the left-out one is gone |
| NowPlaying.Queue | src/components/NowPlaying.tsx:42 | two projects: every project but the current one, in their original order |
| NowPlaying.IndexOf | src/components/NowPlaying.tsx:200 | -1 exactly when absent, otherwise the first position of the element |
| NowPlaying.IndexOfDistinct | src/components/NowPlaying.tsx:200 | in a list without repeats, `indexOf` finds each element at its own position |
| NowPlaying.QueueTarget | src/components/NowPlaying.tsx:199-203 | the clicked queue item's project index: a valid index other than the current one, the k-th of the others in list order, holding the project shown |
| NowPlaying.QueueTargetsAreTheOthers | src/components/NowPlaying.tsx:195-203 | the two queue items lead to the two other projects |
| NowPlaying.TickProgress | src/components/NowPlaying.tsx:48-53 | below the target, progress grows by half a percent; at or above it, it becomes the target |
| NowPlaying.TicksReachTarget | src/components/NowPlaying.tsx:45-57 | n ticks from below the target advance n half-percents, capped at the target |
| NowPlaying.TicksMonotone | src/components/NowPlaying.tsx:45-57 | progress never moves backwards and never passes the target |
| NowPlaying.FormatTimeReadsBack | src/components/NowPlaying.tsx:69-73 | the display is a canonical minute numeral, a colon and two digits below 60, and it reads back as the given seconds |
| NowPlaying.TwoDigitField | src/components/NowPlaying.tsx:71-72 | the padded seconds field is two digits that read back as the value |
| NowPlaying.ElapsedSeconds | src/components/NowPlaying.tsx:150 | floor(progress · 60 / 100), with progress in half-percents |
| NowPlaying.TotalSeconds | src/components/NowPlaying.tsx:166 | floor(target · 60 / 100) |
| NowPlaying.ElapsedWithinTotal | src/components/NowPlaying.tsx:150-166 | the elapsed time shown never passes the total shown beside it |
| NowPlaying.Player.constructor | src/components/NowPlaying.tsx:14-18 | playing from project 0 at progress 0, queue closed, not minimised |
| NowPlaying.Player.HandleNext | src/components/NowPlaying.tsx:59-62 | the next project from progress 0; nothing else changes |
| NowPlaying.Player.HandlePrevious | src/components/NowPlaying.tsx:64-67 | the previous project from progress 0; nothing else changes |
| NowPlaying.Player.Tick | src/components/NowPlaying.tsx:45-57 | while playing, one clamped tick towards the current target; paused, nothing; progress never decreases |
| NowPlaying.Player.ClickQueueItem | src/components/NowPlaying.tsx:199-203 | the clicked project becomes current from progress 0 and the queue closes |
| NowPlaying.Player.TogglePlaying | src/components/NowPlaying.tsx:135 | flips playing and nothing else |
| NowPlaying.Player.ToggleQueue | src/components/NowPlaying.tsx:177 | flips the queue's visibility and nothing else |
| NowPlaying.Player.ToggleMinimized | src/components/NowPlaying.tsx:91 | flips minimised and nothing else |
| Skills.GetGradient | src/components/Skills.tsx:20-32 | always one of the seven gradients |
| Skills.GradientByLength | src/components/Skills.tsx:30-31 | names of equal length, or lengths seven apart, get the same gradient |
| Skills.GetInitials | src/components/Skills.tsx:34-36 | min(2, length) characters, each the capital of the name's character there, with no lower-case letter left |
| Skills.InitialsIdempotent | src/components/Skills.tsx:34-36 | taking the initials of initials changes nothing |
| Skills.InitialsIgnoreCase | src/components/Skills.tsx:34-36 | names that differ only in ASCII case have the same initials |

## Left out

- Network access is left out. This covers `fetch`, the GraphQL and REST requests, request headers, the `VITE_GITHUB_TOKEN` lookup and `console` logging. Each request is an input that either carries the value it resolved to or the fact that it threw.
- `Promise.all` concurrency is left out. Concurrent requests are independent inputs, and only whether either one rejected matters.
- Timers (`setTimeout`, `setInterval`) are explicit steps. The 300 ms and 400 ms delays are not modelled, so any pending slide timer may fire next.
- The React and zustand wiring is left out: hooks, re-renders, `get`/`set`. Each store or component is a class whose methods apply one whole update.
- The stale `currentSlide` closure is modelled as the target captured at click time.
- The slides may be clicked while a move is pending. The component has no guard on `isAnimating`, so none is modelled.
- The slide controls are not gated on `isLoading`. While loading, the component shows only the loading screen, with no controls. The model still accepts clicks then, so WrappedSlides.RunStaysOnSlides covers more runs than the component allows.
- NowPlaying.TickProgress: floating-point progress is modelled in exact half-percent units. Every value the source can reach is a multiple of 0.5, so this is the same arithmetic.
- GitHub.RoundPercent: `Math.round(bytes / total * 100)` is modelled in exact rational arithmetic. Floating-point rounding of the quotient is not modelled.
- GitHub.RepoCommitCount: `parseInt` is exact here. The loss of precision above 2^53 is not modelled.
- Strings.ToUpper: case mapping covers ASCII letters only. The full Unicode mappings of `toUpperCase` and `toLowerCase` are not modelled.
- Strings.ToLower: the same ASCII-only restriction applies.
- String lengths count characters, not UTF-16 code units.
- Dictionary key order is insertion order in the model. JavaScript lists integer-like keys first, and language names are never integer-like.
- Inherited prototype keys of plain objects are not modelled. In the colour tables, `colors['constructor']` would not give the default. In the byte counts, `languageStats[lang] || 0` in GitHub.Lookup and GitHub.AddBytes would not start from 0 for such a name.
- JSON payload shapes are reduced to the fields that are read. A missing path is `None`, and it makes the call fail.
- NowPlaying.FormatTime: this function has no contract of its own. Its contract is the round-trip lemma `FormatTimeReadsBack`.
- The rest of the repository is not part of this model:
  - display-only code: `CountUpNumber`'s floating-point easing, the `Math.random` waveform, DOM scrolling, JSX and CSS;
  - `WrappedNotification`, a timed show/dismiss flag;
  - static page content;
  - routing.
- GitHub's `getCommitActivity` and `getPRStats` return constants. Nothing in the model calls them.
- `getRepositories` is a bare request, so it is an input.
- `fetchData` discards the result of `getLanguagePercentages`. Only whether that request failed is modelled.
- The fallback literal records 210 active days for 16 repositories. The live formula would give 240. The model keeps the code's literal as it is.
