/** The aggregation helpers of the GitHub service, with every network call replaced by the value
    it resolved to (or the failure it raised): the commit count read from a Link header, the
    per-language byte totals, the language percentages, the top repositories by commits, the
    commit total, the per-repository GraphQL contributions, and the colour table. */
module GitHub {
  import opened Wrappers
  import opened Strings
  import opened Sorting

  // ================================================================ Link header

  const PagePrefix: string := "page="
  const LastSuffix: string := ">; rel=\"last\""

  /** Length of the run of decimal digits at the start of `s`. */
  function DigitRun(s: string): (n: nat)
    ensures n <= |s| && AllDigits(s[..n]) && (n < |s| ==> !IsDigit(s[n]))
  {
    if s == [] || !IsDigit(s[0]) then 0
    else
      var n := DigitRun(s[1..]);
      assert s[..n + 1] == [s[0]] + s[1..][..n];
      n + 1
  }

  /** The regular expression `page=(\d+)>; rel="last"` matches `h` at position `i`, with a
      captured digit group of length `k`. */
  predicate MatchesAt(h: string, i: nat, k: nat) {
    && i + |PagePrefix| + k + |LastSuffix| <= |h|
    && h[i..i + |PagePrefix|] == PagePrefix
    && k > 0
    && AllDigits(h[i + |PagePrefix|..i + |PagePrefix| + k])
    && h[i + |PagePrefix| + k..i + |PagePrefix| + k + |LastSuffix|] == LastSuffix
  }

  /** The captured group of a match. */
  function Group(h: string, i: nat, k: nat): (g: string)
    requires MatchesAt(h, i, k)
    ensures AllDigits(g)
  {
    h[i + |PagePrefix|..i + |PagePrefix| + k]
  }

  /** A match at `i` can only capture the whole digit run that follows `page=`. */
  lemma MatchLengthIsDigitRun(h: string, i: nat, k: nat)
    requires MatchesAt(h, i, k)
    ensures k == DigitRun(h[i + |PagePrefix|..])
  {
    var s := h[i + |PagePrefix|..];
    var d := DigitRun(s);
    assert LastSuffix[0] == '>';
    assert s[k] == h[i + |PagePrefix| + k..i + |PagePrefix| + k + |LastSuffix|][0];
    assert s[..k] == h[i + |PagePrefix|..i + |PagePrefix| + k];
  }

  /** The match at position `i`, if there is one, as the number its group denotes. */
  function MatchAt(h: string, i: nat): (r: Option<nat>)
    requires i <= |h|
    ensures r.Some? <==> exists k :: MatchesAt(h, i, k)
    ensures r.Some? ==> exists k :: MatchesAt(h, i, k) && r.value == ParseDigits(Group(h, i, k))
  {
    var rest := h[i..];
    if StartsWith(rest, PagePrefix) then
      var s := rest[|PagePrefix|..];
      var k := DigitRun(s);
      PrefixThere(h, i);
      if k > 0 && StartsWith(s[k..], LastSuffix) then
        MatchThere(h, i, k);
        Some(ParseDigits(s[..k]))
      else
        NoMatchAfterPrefix(h, i);
        None
    else
      MatchNeedsPrefix(h, i);
      None
  }

  /** A match at `i` starts with `page=`. */
  lemma MatchNeedsPrefix(h: string, i: nat)
    requires i <= |h|
    ensures forall k :: MatchesAt(h, i, k) ==> StartsWith(h[i..], PagePrefix)
  {
    forall k | MatchesAt(h, i, k) ensures StartsWith(h[i..], PagePrefix) {
      assert h[i..][..|PagePrefix|] == h[i..i + |PagePrefix|];
    }
  }

  lemma PrefixThere(h: string, i: nat)
    requires i <= |h| && StartsWith(h[i..], PagePrefix)
    ensures h[i..i + |PagePrefix|] == PagePrefix && h[i..][|PagePrefix|..] == h[i + |PagePrefix|..]
  {
    assert h[i..][..|PagePrefix|] == h[i..i + |PagePrefix|];
  }

  /** After `page=`, a non-empty digit run followed by the suffix is a match. */
  lemma MatchThere(h: string, i: nat, k: nat)
    requires i + |PagePrefix| <= |h| && h[i..i + |PagePrefix|] == PagePrefix
    requires k == DigitRun(h[i + |PagePrefix|..]) && k > 0 && StartsWith(h[i + |PagePrefix|..][k..], LastSuffix)
    ensures MatchesAt(h, i, k) && Group(h, i, k) == h[i + |PagePrefix|..][..k]
  {
    var s := h[i + |PagePrefix|..];
    assert s[..k] == h[i + |PagePrefix|..i + |PagePrefix| + k];
    assert s[k..][..|LastSuffix|] == h[i + |PagePrefix| + k..i + |PagePrefix| + k + |LastSuffix|];
  }

  /** After `page=`, a digit run that is empty or not followed by the suffix rules out any
      match at `i`. */
  lemma NoMatchAfterPrefix(h: string, i: nat)
    requires i + |PagePrefix| <= |h|
    requires var k := DigitRun(h[i + |PagePrefix|..]);
      !(k > 0 && StartsWith(h[i + |PagePrefix|..][k..], LastSuffix))
    ensures forall k' :: !MatchesAt(h, i, k')
  {
    MatchNeedsSuffixAfterRun(h, i);
  }

  /** A match at `i` captures the whole digit run after `page=`, which is non-empty and
      followed by the suffix. */
  lemma MatchNeedsSuffixAfterRun(h: string, i: nat)
    requires i + |PagePrefix| <= |h|
    ensures forall k': nat :: MatchesAt(h, i, k') ==>
      var s := h[i + |PagePrefix|..];
      k' == DigitRun(s) && k' > 0 && StartsWith(s[k'..], LastSuffix)
  {
    var s := h[i + |PagePrefix|..];
    forall k': nat | MatchesAt(h, i, k') ensures k' == DigitRun(s) && k' > 0 && StartsWith(s[k'..], LastSuffix) {
      MatchLengthIsDigitRun(h, i, k');
      assert s[k'..][..|LastSuffix|] == h[i + |PagePrefix| + k'..i + |PagePrefix| + k' + |LastSuffix|];
    }
  }

  /** No match starts at or after position `i`. */
  ghost predicate NoMatchFrom(h: string, i: nat) {
    forall j: nat, k: nat :: i <= j ==> !MatchesAt(h, j, k)
  }

  /** The leftmost match at or after position `i` starts at `j`, and its group denotes `v`. */
  ghost predicate LeftmostMatch(h: string, i: nat, j: nat, v: nat) {
    && i <= j
    && (exists k: nat :: MatchesAt(h, j, k) && v == ParseDigits(Group(h, j, k)))
    && forall j': nat, k': nat :: i <= j' < j ==> !MatchesAt(h, j', k')
  }

  /** The leftmost match at or after position `i`, as `String.prototype.match` finds it. */
  function FindMatch(h: string, i: nat): (r: Option<nat>)
    requires i <= |h|
    ensures r.Some? ==> exists j: nat :: LeftmostMatch(h, i, j, r.value)
    ensures r.None? ==> NoMatchFrom(h, i)
    decreases |h| - i
  {
    var m := MatchAt(h, i);
    if m.Some? then
      assert LeftmostMatch(h, i, i, m.value);
      m
    else if i == |h| then
      assert NoMatchFrom(h, i) by {
        forall j: nat, k: nat | i <= j ensures !MatchesAt(h, j, k) {
          if j > i { assert j + |PagePrefix| > |h|; }
        }
      }
      None
    else
      var r := FindMatch(h, i + 1);
      if r.Some? then
        LeftmostMatchEarlier(h, i, i + 1, r.value);
        r
      else
        assert NoMatchFrom(h, i) by {
          forall j: nat, k: nat | i <= j ensures !MatchesAt(h, j, k) {
            if j > i { assert i + 1 <= j; }
          }
        }
        r
  }

  /** With no match at `i`, the leftmost match from `i + 1` on is also the leftmost from `i`. */
  lemma LeftmostMatchEarlier(h: string, i: nat, next: nat, v: nat)
    requires next == i + 1
    requires forall k :: !MatchesAt(h, i, k)
    requires exists j: nat :: LeftmostMatch(h, next, j, v)
    ensures exists j: nat :: LeftmostMatch(h, i, j, v)
  {
    var j: nat :| LeftmostMatch(h, next, j, v);
    forall j': nat, k': nat | i <= j' < j ensures !MatchesAt(h, j', k') {
      if j' > i { assert next <= j' < j; }
    }
    assert LeftmostMatch(h, i, j, v);
  }

  /** The page number in `rel="last"` of a Link header, if the header has one. */
  function LastPage(header: string): (r: Option<nat>)
    ensures r.Some? <==> exists i: nat, k: nat :: MatchesAt(header, i, k)
    ensures r.Some? ==> exists i: nat, k: nat :: MatchesAt(header, i, k) && r.value == ParseDigits(Group(header, i, k))
                                       && forall j: nat, k': nat :: j < i ==> !MatchesAt(header, j, k')
  {
    var r := FindMatch(header, 0);
    assert r.Some? ==> exists i: nat, k: nat :: MatchesAt(header, i, k) && r.value == ParseDigits(Group(header, i, k))
                                     && forall j: nat, k': nat :: j < i ==> !MatchesAt(header, j, k') by {
      if r.Some? {
        var i: nat :| LeftmostMatch(header, 0, i, r.value);
        var k: nat :| MatchesAt(header, i, k) && r.value == ParseDigits(Group(header, i, k));
      }
    }
    assert r.None? ==> forall i: nat, k: nat :: !MatchesAt(header, i, k) by {
      if r.None? {
        assert NoMatchFrom(header, 0);
      }
    }
    r
  }

  lemma DigitRunOfNumeral(d: string, rest: string)
    requires AllDigits(d) && rest != [] && !IsDigit(rest[0])
    ensures DigitRun(d + rest) == |d|
  {
    if d != [] {
      assert (d + rest)[1..] == d[1..] + rest;
      DigitRunOfNumeral(d[1..], rest);
    } else {
      assert d + rest == rest;
    }
  }

  /** The number written into a `rel="last"` link is the one read back. */
  lemma LastPageRoundTrip(n: nat)
    ensures LastPage(PagePrefix + NatToString(n) + LastSuffix) == Some(n)
  {
    var d := NatToString(n);
    var h := PagePrefix + d + LastSuffix;
    var s := h[0..][|PagePrefix|..];
    assert h[0..] == h;
    assert StartsWith(h[0..], PagePrefix);
    assert s == d + LastSuffix;
    DigitRunOfNumeral(d, LastSuffix);
    assert s[|d|..] == LastSuffix;
    assert StartsWith(s[|d|..], LastSuffix);
    assert s[..|d|] == d;
    ParseNatToString(n);
    assert MatchAt(h, 0) == Some(n);
  }

  // ================================================================ commit count of one repository

  /** What `response.json()` yields: an array (of which only the length matters), some other
      JSON value, or a body that fails to parse. */
  datatype JsonBody = JsonArray(length: nat) | JsonOther | Unparsable

  /** The commits request of one repository: the fetch itself threw, or it answered. */
  datatype CommitsResponse = FetchFailed | Response(ok: bool, link: Option<string>, body: JsonBody)

  /** `getRepoCommitCount`: the last page number of a one-commit-per-page listing, else the
      length of the returned array; every failure gives 0. */
  function RepoCommitCount(resp: CommitsResponse): (n: nat)
    ensures resp.FetchFailed? || !resp.ok ==> n == 0
    ensures resp.Response? && resp.ok && resp.link.Some? && LastPage(resp.link.value).Some? ==>
              n == LastPage(resp.link.value).value
    ensures resp.Response? && resp.ok && (resp.link.None? || LastPage(resp.link.value).None?) ==>
              n == if resp.body.JsonArray? then resp.body.length else 0
  {
    match resp
    case FetchFailed => 0
    case Response(ok, link, body) =>
      if !ok then 0
      else if link.Some? && link.value != "" && LastPage(link.value).Some? then LastPage(link.value).value
      else match body
        case JsonArray(len) => len
        case JsonOther => 0
        case Unparsable => 0
  }

  // ================================================================ language byte totals

  datatype LangBytes = LangBytes(name: string, bytes: nat)

  /** One repository as `getLanguageStats` sees it: its `languages_url` and what fetching that
      URL gave (None when the fetch threw). */
  datatype RepoLanguages = RepoLanguages(name: string, languagesUrl: string, fetched: Option<seq<LangBytes>>)

  /** The entries a repository adds: none when it has no URL or its fetch failed. */
  function Contribution(repo: RepoLanguages): seq<LangBytes> {
    if repo.languagesUrl != "" && repo.fetched.Some? then repo.fetched.value else []
  }

  predicate DistinctNames(stats: seq<LangBytes>) {
    forall i, j :: 0 <= i < j < |stats| ==> stats[i].name != stats[j].name
  }

  /** Position of `lang` among the keys of the (insertion-ordered) dictionary, or -1. */
  function IndexOfLang(stats: seq<LangBytes>, lang: string): (k: int)
    ensures -1 <= k < |stats|
    ensures k >= 0 ==> stats[k].name == lang
    ensures k == -1 <==> forall i :: 0 <= i < |stats| ==> stats[i].name != lang
  {
    if stats == [] then -1
    else
      var k := IndexOfLang(stats[..|stats| - 1], lang);
      if k >= 0 then k
      else if stats[|stats| - 1].name == lang then |stats| - 1
      else -1
  }

  /** `languageStats[lang] || 0`. */
  function Lookup(stats: seq<LangBytes>, lang: string): nat {
    var k := IndexOfLang(stats, lang);
    if k < 0 then 0 else stats[k].bytes
  }

  /** `languageStats[lang] = (languageStats[lang] || 0) + bytes`: an existing key keeps its
      place, a new one goes last. */
  function AddBytes(stats: seq<LangBytes>, lang: string, bytes: nat): (r: seq<LangBytes>)
    ensures IndexOfLang(stats, lang) < 0 ==> r == stats + [LangBytes(lang, bytes)]
    ensures IndexOfLang(stats, lang) >= 0 ==>
              var k := IndexOfLang(stats, lang);
              |r| == |stats| && r[k] == LangBytes(lang, stats[k].bytes + bytes)
              && forall i :: 0 <= i < |r| && i != k ==> r[i] == stats[i]
  {
    var k := IndexOfLang(stats, lang);
    if k < 0 then stats + [LangBytes(lang, bytes)] else stats[k := LangBytes(lang, stats[k].bytes + bytes)]
  }

  function AddEntries(stats: seq<LangBytes>, entries: seq<LangBytes>): seq<LangBytes> {
    if entries == [] then stats
    else
      var last := entries[|entries| - 1];
      AddBytes(AddEntries(stats, entries[..|entries| - 1]), last.name, last.bytes)
  }

  /** The dictionary `getLanguageStats` builds from the repositories in order. */
  function Accumulate(repos: seq<RepoLanguages>): seq<LangBytes> {
    if repos == [] then [] else AddEntries(Accumulate(repos[..|repos| - 1]), Contribution(repos[|repos| - 1]))
  }

  /** Bytes of `lang` in a list of entries. */
  function EntryBytes(entries: seq<LangBytes>, lang: string): nat {
    if entries == [] then 0
    else
      var last := entries[|entries| - 1];
      EntryBytes(entries[..|entries| - 1], lang) + (if last.name == lang then last.bytes else 0)
  }

  /** Bytes of `lang` over every repository whose languages were fetched. */
  function RepoBytes(repos: seq<RepoLanguages>, lang: string): nat {
    if repos == [] then 0
    else RepoBytes(repos[..|repos| - 1], lang) + EntryBytes(Contribution(repos[|repos| - 1]), lang)
  }

  lemma AddBytesLookup(stats: seq<LangBytes>, lang: string, bytes: nat, q: string)
    requires DistinctNames(stats)
    ensures DistinctNames(AddBytes(stats, lang, bytes))
    ensures Lookup(AddBytes(stats, lang, bytes), q) == Lookup(stats, q) + (if lang == q then bytes else 0)
    ensures (IndexOfLang(AddBytes(stats, lang, bytes), q) >= 0) <==> (IndexOfLang(stats, q) >= 0 || lang == q)
  {
    var k := IndexOfLang(stats, lang);
    if k < 0 {
      assert AddBytes(stats, lang, bytes) == stats + [LangBytes(lang, bytes)];
      AppendLookup(stats, LangBytes(lang, bytes), q);
    } else {
      assert AddBytes(stats, lang, bytes) == stats[k := LangBytes(stats[k].name, stats[k].bytes + bytes)];
      UpdateLookup(stats, k, bytes, q);
    }
  }

  /** A new key goes last. */
  lemma AppendLookup(stats: seq<LangBytes>, e: LangBytes, q: string)
    requires DistinctNames(stats) && IndexOfLang(stats, e.name) < 0
    ensures DistinctNames(stats + [e])
    ensures Lookup(stats + [e], q) == Lookup(stats, q) + (if e.name == q then e.bytes else 0)
    ensures (IndexOfLang(stats + [e], q) >= 0) <==> (IndexOfLang(stats, q) >= 0 || e.name == q)
  {
    var r := stats + [e];
    assert r[..|r| - 1] == stats;
  }

  /** An existing key keeps its place and grows. */
  lemma UpdateLookup(stats: seq<LangBytes>, k: nat, bytes: nat, q: string)
    requires DistinctNames(stats) && k < |stats|
    ensures var r := stats[k := LangBytes(stats[k].name, stats[k].bytes + bytes)];
      && DistinctNames(r)
      && Lookup(r, q) == Lookup(stats, q) + (if stats[k].name == q then bytes else 0)
      && ((IndexOfLang(r, q) >= 0) <==> (IndexOfLang(stats, q) >= 0))
  {
    var r := stats[k := LangBytes(stats[k].name, stats[k].bytes + bytes)];
    assert forall i :: 0 <= i < |r| ==> r[i].name == stats[i].name;
    SameNamesIndex(stats, r, q);
    var kq := IndexOfLang(stats, q);
    if kq >= 0 && stats[k].name == q {
      assert kq == k;
    }
  }

  /** Position lookup depends on the names only. */
  lemma {:induction false} SameNamesIndex(a: seq<LangBytes>, b: seq<LangBytes>, q: string)
    requires |a| == |b| && forall i :: 0 <= i < |a| ==> a[i].name == b[i].name
    ensures IndexOfLang(a, q) == IndexOfLang(b, q)
  {
    if a != [] {
      SameNamesIndex(a[..|a| - 1], b[..|b| - 1], q);
    }
  }

  /** Some entry of the list names `lang`. */
  predicate Reports(entries: seq<LangBytes>, lang: string) {
    exists j :: 0 <= j < |entries| && entries[j].name == lang
  }

  lemma ReportsSnoc(entries: seq<LangBytes>, lang: string)
    requires entries != []
    ensures Reports(entries, lang) <==>
            Reports(entries[..|entries| - 1], lang) || entries[|entries| - 1].name == lang
  {
    var prefix := entries[..|entries| - 1];
    if Reports(entries, lang) {
      var j :| 0 <= j < |entries| && entries[j].name == lang;
      if j < |prefix| {
        assert prefix[j].name == lang;
      }
    }
    if Reports(prefix, lang) {
      var j :| 0 <= j < |prefix| && prefix[j].name == lang;
      assert entries[j].name == lang;
    }
  }

  lemma {:induction false} AddEntriesLookup(stats: seq<LangBytes>, entries: seq<LangBytes>, q: string)
    requires DistinctNames(stats)
    ensures DistinctNames(AddEntries(stats, entries))
    ensures Lookup(AddEntries(stats, entries), q) == Lookup(stats, q) + EntryBytes(entries, q)
    ensures (IndexOfLang(AddEntries(stats, entries), q) >= 0) <==> (IndexOfLang(stats, q) >= 0 || Reports(entries, q))
  {
    if entries != [] {
      var prefix := entries[..|entries| - 1];
      var last := entries[|entries| - 1];
      AddEntriesLookup(stats, prefix, q);
      AddBytesLookup(AddEntries(stats, prefix), last.name, last.bytes, q);
      ReportsSnoc(entries, q);
    } else {
      assert !Reports(entries, q);
    }
  }

  /** `getLanguageStats`'s contract: every language's total is the sum of its byte counts over
      the repositories whose languages were fetched, a language is a key exactly when one of
      those repositories reports it, and no key repeats. */
  lemma {:induction false} AccumulateSpec(repos: seq<RepoLanguages>, q: string)
    ensures DistinctNames(Accumulate(repos))
    ensures Lookup(Accumulate(repos), q) == RepoBytes(repos, q)
    ensures (IndexOfLang(Accumulate(repos), q) >= 0) <==> SomeRepoReports(repos, q)
  {
    if repos != [] {
      var prefix := repos[..|repos| - 1];
      var last := repos[|repos| - 1];
      AccumulateSpec(prefix, q);
      assert Accumulate(repos) == AddEntries(Accumulate(prefix), Contribution(last));
      assert RepoBytes(repos, q) == RepoBytes(prefix, q) + EntryBytes(Contribution(last), q);
      AddEntriesLookup(Accumulate(prefix), Contribution(last), q);
      SomeRepoReportsSnoc(repos, q);
    } else {
      assert Lookup([], q) == 0;
    }
  }

  /** One of the repositories whose languages were fetched reports `q`. */
  predicate SomeRepoReports(repos: seq<RepoLanguages>, q: string) {
    exists i :: 0 <= i < |repos| && Reports(Contribution(repos[i]), q)
  }

  lemma SomeRepoReportsSnoc(repos: seq<RepoLanguages>, q: string)
    requires repos != []
    ensures SomeRepoReports(repos, q) <==>
            SomeRepoReports(repos[..|repos| - 1], q) || Reports(Contribution(repos[|repos| - 1]), q)
  {
    var prefix := repos[..|repos| - 1];
    if SomeRepoReports(repos, q) {
      var i :| 0 <= i < |repos| && Reports(Contribution(repos[i]), q);
      if i < |prefix| {
        assert prefix[i] == repos[i];
      }
    }
    if SomeRepoReports(prefix, q) {
      var i :| 0 <= i < |prefix| && Reports(Contribution(prefix[i]), q);
      assert prefix[i] == repos[i];
    }
  }

  /** The loop of `getLanguageStats`: one pass over the repositories, adding the entries of
      each one that has a URL and whose fetch succeeded. */
  method LanguageStats(repos: seq<RepoLanguages>) returns (stats: seq<LangBytes>)
    ensures stats == Accumulate(repos)
  {
    stats := [];
    var i := 0;
    while i < |repos|
      invariant 0 <= i <= |repos|
      invariant stats == Accumulate(repos[..i])
    {
      var repo := repos[i];
      assert repos[..i + 1][..i] == repos[..i];
      assert Accumulate(repos[..i + 1]) == AddEntries(stats, Contribution(repo));
      if repo.languagesUrl != "" {
        match repo.fetched {
          case Some(langData) =>
            stats := AddLanguageData(stats, langData);
          case None =>
            // the fetch threw: the warning is logged and the repository adds nothing
        }
      }
      i := i + 1;
    }
    assert repos[..|repos|] == repos;
  }

  /** `Object.entries(langData).forEach(...)`: each reported language is added in turn. */
  method AddLanguageData(stats0: seq<LangBytes>, langData: seq<LangBytes>) returns (stats: seq<LangBytes>)
    ensures stats == AddEntries(stats0, langData)
  {
    stats := stats0;
    var j := 0;
    while j < |langData|
      invariant 0 <= j <= |langData|
      invariant stats == AddEntries(stats0, langData[..j])
    {
      var entry := langData[j];
      assert langData[..j + 1][..j] == langData[..j];
      var k := IndexOfLang(stats, entry.name);
      if k < 0 {
        stats := stats + [LangBytes(entry.name, entry.bytes)];
      } else {
        stats := stats[k := LangBytes(entry.name, stats[k].bytes + entry.bytes)];
      }
      j := j + 1;
    }
    assert langData[..|langData|] == langData;
  }

  // ================================================================ language percentages

  /** One language's share; `percentage` is None where JavaScript computes NaN (0 / 0, when
      no language has any bytes). */
  datatype LangPercent = LangPercent(name: string, percentage: Option<nat>, bytes: nat)

  function BytesOf(l: LangBytes): int { l.bytes }

  /** `Object.values(stats).reduce((sum, bytes) => sum + bytes, 0)`. */
  function TotalBytes(stats: seq<LangBytes>): (t: nat)
    ensures t == SumOf(stats, BytesOf)
  {
    if stats == [] then 0 else stats[0].bytes + TotalBytes(stats[1..])
  }

  /** `Math.round(bytes / total * 100)` in exact arithmetic: the integer nearest to
      100 * bytes / total, halves rounded up. */
  function RoundPercent(bytes: nat, total: nat): (p: nat)
    requires total > 0
    ensures 2 * total * p <= 200 * bytes + total < 2 * total * p + 2 * total
    ensures bytes <= total ==> p <= 100
  {
    RoundPercentBounds(bytes, total);
    (200 * bytes + total) / (2 * total)
  }

  lemma RoundPercentBounds(bytes: nat, total: nat)
    requires total > 0
    ensures var p := (200 * bytes + total) / (2 * total);
      && 2 * total * p <= 200 * bytes + total < 2 * total * p + 2 * total
      && (bytes <= total ==> p <= 100)
  {
    var m := 2 * total;
    var p := (200 * bytes + total) / m;
    DivBounds(200 * bytes + total, m);
    if bytes <= total {
      assert m * p < m * 101;
      MulCancelStrict(m, p, 101);
    }
  }

  lemma DivBounds(a: nat, d: nat)
    requires d > 0
    ensures d * (a / d) <= a < d * (a / d) + d
  {
  }

  function ToPercent(stats: seq<LangBytes>, total: nat): (r: seq<LangPercent>)
    ensures |r| == |stats|
    ensures forall i :: 0 <= i < |r| ==>
              && r[i].name == stats[i].name && r[i].bytes == stats[i].bytes
              && r[i].percentage == if total > 0 then Some(RoundPercent(stats[i].bytes, total)) else None
  {
    if stats == [] then []
    else [LangPercent(stats[0].name, if total > 0 then Some(RoundPercent(stats[0].bytes, total)) else None, stats[0].bytes)]
         + ToPercent(stats[1..], total)
  }

  /** The sort key of `(a, b) => b.percentage - a.percentage`. */
  function PercentKey(p: LangPercent): int {
    if p.percentage.Some? then p.percentage.value else 0
  }

  /** `getLanguagePercentages`: one entry per language with its bytes and rounded share,
      ordered by share, largest first. */
  function LanguagePercentages(stats: seq<LangBytes>): (r: seq<LangPercent>)
    ensures |r| == |stats|
    ensures multiset(r) == multiset(ToPercent(stats, TotalBytes(stats)))
    ensures SortedDesc(r, PercentKey)
  {
    SortDesc(ToPercent(stats, TotalBytes(stats)), PercentKey)
  }

  /** With no bytes at all every share is NaN, every comparison is 0, and the order of the
      dictionary is kept. */
  lemma PercentagesWithoutBytes(stats: seq<LangBytes>)
    requires TotalBytes(stats) == 0
    ensures LanguagePercentages(stats) == ToPercent(stats, 0)
  {
    SortDescConstantKey(ToPercent(stats, 0), PercentKey, 0);
  }

  lemma {:induction false} ToPercentSumBounds(stats: seq<LangBytes>, total: nat)
    requires total > 0
    ensures var s := SumOf(ToPercent(stats, total), PercentKey);
      && 2 * total * s <= 200 * TotalBytes(stats) + |stats| * total
      && (stats == [] || 200 * TotalBytes(stats) < 2 * total * s + |stats| * total)
  {
    if stats != [] {
      var m := 2 * total;
      var r := ToPercent(stats, total);
      assert r[1..] == ToPercent(stats[1..], total);
      ToPercentSumBounds(stats[1..], total);
      var b := stats[0].bytes;
      var p := RoundPercent(b, total);
      var s' := SumOf(ToPercent(stats[1..], total), PercentKey);
      var tb' := TotalBytes(stats[1..]);
      var n' := |stats[1..]|;
      assert SumOf(r, PercentKey) == p + s';
      assert TotalBytes(stats) == b + tb';
      MulAdd(m, p, s');
      MulAddRight(n', 1, total);
      assert |stats| == n' + 1;
      assert |stats| * total == n' * total + total;
      assert 2 * total * SumOf(r, PercentKey) == m * p + m * s';
      if n' == 0 {
        assert stats[1..] == [];
        assert s' == 0 && tb' == 0;
      }
      CombineBounds(m * p, m * s', 200 * b, 200 * tb', n' * total, total, n' == 0);
    }
  }

  /** The step of ToPercentSumBounds, in linear arithmetic over the products it names. */
  lemma CombineBounds(mp: int, ms: int, b200: int, tb200: int, ct: int, total: int, last: bool)
    requires mp <= b200 + total < mp + 2 * total
    requires ms <= tb200 + ct
    requires last ==> ms == 0 && tb200 == 0 && ct == 0
    requires !last ==> tb200 < ms + ct
    ensures mp + ms <= b200 + tb200 + ct + total
    ensures b200 + tb200 < mp + ms + ct + total
  {
  }

  lemma MulAdd(t: int, a: int, b: int)
    ensures t * (a + b) == t * a + t * b
  {
  }

  lemma MulAddRight(a: int, b: int, t: int)
    ensures (a + b) * t == a * t + b * t
  {
  }

  lemma MulCancel(t: nat, a: int, b: int)
    requires t > 0 && t * a <= t * b
    ensures a <= b
  {
    MulSub(t, a, b);
    MulSign(t, a - b);
  }

  lemma MulCancelStrict(t: nat, a: int, b: int)
    requires t > 0 && t * a < t * b
    ensures a < b
  {
    MulSub(t, a, b);
    MulSign(t, a - b);
  }

  lemma MulSub(t: int, a: int, b: int)
    ensures t * (a - b) == t * a - t * b
  {
  }

  lemma MulSign(t: nat, d: int)
    ensures t > 0 && d > 0 ==> t * d > 0
    ensures d >= 0 ==> t * d >= 0
  {
  }

  /** Dividing the bounds of ToPercentSumBounds by the total. */
  lemma ScaleBounds(t: nat, s: int, n: nat)
    requires t > 0 && n > 0
    requires 2 * t * s <= 200 * t + n * t && 200 * t < 2 * t * s + n * t
    ensures 200 - n < 2 * s <= 200 + n
  {
    assert t * (2 * s) == 2 * t * s;
    MulSub(t, 200 + n, 0);
    MulSub(t, 200, n);
    assert t * (200 + n) == 200 * t + n * t;
    assert t * (200 - n) == 200 * t - n * t;
    MulCancel(t, 2 * s, 200 + n);
    MulCancelStrict(t, 200 - n, 2 * s);
  }

  /** Rounding each share to the nearest integer keeps the sum of the n shares within n/2 of
      100: 200 - n < 2 * sum <= 200 + n. (The sum is not always 100.) */
  lemma {:induction false} PercentagesSumNearHundred(stats: seq<LangBytes>)
    requires TotalBytes(stats) > 0
    ensures var s := SumOf(LanguagePercentages(stats), PercentKey);
      200 - |stats| < 2 * s <= 200 + |stats|
  {
    var t := TotalBytes(stats);
    var n := |stats|;
    var s := SumOf(ToPercent(stats, t), PercentKey);
    SumOfSortDesc(ToPercent(stats, t), PercentKey, PercentKey);
    ToPercentSumBounds(stats, t);
    ScaleBounds(t, s, n);
  }

  // ================================================================ commits

  datatype RepoCommits = RepoCommits(name: string, commits: nat)

  function CommitsOf(r: RepoCommits): int { r.commits }

  /** `reposWithCommits.sort((a, b) => b.commits - a.commits).slice(0, limit)`. */
  function TopReposByCommits(reposWithCommits: seq<RepoCommits>, limit: nat): (r: seq<RepoCommits>)
    ensures |r| == if limit < |reposWithCommits| then limit else |reposWithCommits|
    ensures SortedDesc(r, CommitsOf)
    ensures multiset(r) <= multiset(reposWithCommits)
    ensures forall x, y :: x in r && y in multiset(reposWithCommits) - multiset(r) ==> x.commits >= y.commits
  {
    var sorted := SortDesc(reposWithCommits, CommitsOf);
    var n := if limit < |sorted| then limit else |sorted|;
    SortedPrefixDominates(sorted, n);
    sorted[..n]
  }

  /** In a list sorted by commits, the first n entries have at least as many commits as any
      of the others. */
  lemma SortedPrefixDominates(sorted: seq<RepoCommits>, n: nat)
    requires SortedDesc(sorted, CommitsOf) && n <= |sorted|
    ensures multiset(sorted[..n]) <= multiset(sorted)
    ensures forall x, y :: x in sorted[..n] && y in multiset(sorted) - multiset(sorted[..n]) ==> x.commits >= y.commits
  {
    var r := sorted[..n];
    SplitMultiset(sorted, n);
    forall x, y | x in r && y in multiset(sorted) - multiset(r) ensures x.commits >= y.commits {
      assert y in multiset(sorted[n..]);
      var i :| 0 <= i < |r| && r[i] == x;
      var j :| 0 <= j < |sorted[n..]| && sorted[n..][j] == y;
      assert sorted[i] == x && sorted[n + j] == y;
    }
  }

  lemma SplitMultiset(s: seq<RepoCommits>, n: nat)
    requires n <= |s|
    ensures multiset(s) == multiset(s[..n]) + multiset(s[n..])
  {
    assert s == s[..n] + s[n..];
  }

  /** `commitCounts.reduce((sum, count) => sum + count, 0)`. */
  function TotalCommitCount(commitCounts: seq<nat>): (t: nat)
    ensures forall i :: 0 <= i < |commitCounts| ==> commitCounts[i] <= t
  {
    if commitCounts == [] then 0 else commitCounts[0] + TotalCommitCount(commitCounts[1..])
  }

  function CommitCounts(repos: seq<RepoCommits>): (c: seq<nat>)
    ensures |c| == |repos| && forall i :: 0 <= i < |repos| ==> c[i] == repos[i].commits
  {
    if repos == [] then [] else [repos[0].commits] + CommitCounts(repos[1..])
  }

  lemma {:induction false} TotalIsSumOfCommits(repos: seq<RepoCommits>)
    ensures TotalCommitCount(CommitCounts(repos)) == SumOf(repos, CommitsOf)
  {
    if repos != [] {
      assert CommitCounts(repos)[1..] == CommitCounts(repos[1..]);
      TotalIsSumOfCommits(repos[1..]);
    }
  }

  lemma {:induction false} SumOfNonNegative(s: seq<RepoCommits>)
    ensures SumOf(s, CommitsOf) >= 0
  {
    if s != [] { SumOfNonNegative(s[1..]); }
  }

  /** The top repositories, counted over the same per-repository figures, never hold more
      commits than the total. */
  lemma TopReposWithinTotal(repos: seq<RepoCommits>, limit: nat)
    ensures SumOf(TopReposByCommits(repos, limit), CommitsOf) <= TotalCommitCount(CommitCounts(repos))
  {
    var sorted := SortDesc(repos, CommitsOf);
    var n := if limit < |sorted| then limit else |sorted|;
    assert TopReposByCommits(repos, limit) == sorted[..n];
    PrefixSumAtMost(sorted, n);
    SumOfSortDesc(repos, CommitsOf, CommitsOf);
    TotalIsSumOfCommits(repos);
  }

  lemma PrefixSumAtMost(s: seq<RepoCommits>, n: nat)
    requires n <= |s|
    ensures SumOf(s[..n], CommitsOf) <= SumOf(s, CommitsOf)
  {
    assert s == s[..n] + s[n..];
    SumOfAppend(s[..n], s[n..], CommitsOf);
    SumOfNonNegative(s[n..]);
  }

  // ================================================================ GraphQL

  /** A GraphQL request: the fetch threw, or it answered with an HTTP status, possibly an
      `errors` member, and the payload at the expected path (None when that path is missing,
      which makes the property access throw). */
  datatype GraphQLReply<T> = GraphQLFailed | GraphQLReply(ok: bool, hasErrors: bool, payload: Option<T>)

  datatype UserContributions = UserContributions(
    totalCommitContributions: nat,
    totalPullRequestContributions: nat,
    totalIssueContributions: nat,
    totalRepositoryContributions: nat,
    restrictedContributionsCount: nat)

  /** `getUserContributions`: the contribution totals, or the reason it threw. */
  function GetUserContributions(hasToken: bool, reply: GraphQLReply<UserContributions>): (r: Result<UserContributions>)
    ensures r.Ok? <==> hasToken && reply.GraphQLReply? && reply.ok && !reply.hasErrors && reply.payload.Some?
    ensures r.Ok? ==> r.value == reply.payload.value
    ensures !hasToken ==> r == Err(NoToken)
  {
    if !hasToken then Err(NoToken)
    else match reply
      case GraphQLFailed => Err(NetworkError)
      case GraphQLReply(ok, hasErrors, payload) =>
        if !ok then Err(HttpError)
        else if hasErrors then Err(GraphQLErrors)
        else if payload.None? then Err(MalformedResponse)
        else Ok(payload.value)
  }

  datatype RepoNode = RepoNode(ownerLogin: string, name: string, totalCount: nat)

  /** The key `${owner}/${name}`. */
  function RepoKey(owner: string, name: string): string {
    owner + "/" + name
  }

  /** Owner logins contain no '/', so the key splits back into its two parts. */
  lemma RepoKeySplits(owner: string, name: string)
    requires '/' !in owner
    ensures var key := RepoKey(owner, name); var k := IndexOfChar(key, '/');
      k == |owner| && key[..k] == owner && key[k + 1..] == name
  {
    var key := RepoKey(owner, name);
    assert key[..|owner|] == owner && key[|owner|] == '/';
    assert key[|owner| + 1..] == name;
  }

  function NodesToRepoCommits(nodes: seq<RepoNode>): (r: seq<RepoCommits>)
    ensures |r| == |nodes|
    ensures forall i :: 0 <= i < |nodes| ==>
              r[i] == RepoCommits(RepoKey(nodes[i].ownerLogin, nodes[i].name), nodes[i].totalCount)
  {
    if nodes == [] then []
    else [RepoCommits(RepoKey(nodes[0].ownerLogin, nodes[0].name), nodes[0].totalCount)] + NodesToRepoCommits(nodes[1..])
  }

  /** `getContributionsByRepo`: one `owner/name` entry per repository node with its commit
      count; an `errors` member gives no entries rather than a failure. */
  function ContributionsByRepo(hasToken: bool, reply: GraphQLReply<seq<RepoNode>>): (r: Result<seq<RepoCommits>>)
    ensures !hasToken ==> r == Err(NoToken)
    ensures hasToken && reply.GraphQLReply? && reply.ok && reply.hasErrors ==> r == Ok([])
    ensures r.Ok? <==> hasToken && reply.GraphQLReply? && reply.ok && (reply.hasErrors || reply.payload.Some?)
    ensures r.Ok? && !reply.hasErrors ==>
              && |r.value| == |reply.payload.value|
              && forall i :: 0 <= i < |r.value| ==>
                   r.value[i].name == RepoKey(reply.payload.value[i].ownerLogin, reply.payload.value[i].name)
                   && r.value[i].commits == reply.payload.value[i].totalCount
  {
    if !hasToken then Err(NoToken)
    else match reply
      case GraphQLFailed => Err(NetworkError)
      case GraphQLReply(ok, hasErrors, payload) =>
        if !ok then Err(HttpError)
        else if hasErrors then Ok([])
        else if payload.None? then Err(MalformedResponse)
        else Ok(NodesToRepoCommits(payload.value))
  }

  // ================================================================ colours and the exported helper

  const DefaultColor: string := "#1db954"

  const LanguageColors: map<string, string> := map[
    "TypeScript" := "#3178c6", "JavaScript" := "#f7df1e", "Go" := "#00add8",
    "Python" := "#3776ab", "Java" := "#ed8b00", "C++" := "#00599c",
    "C" := "#a8b9cc", "Rust" := "#000000", "Ruby" := "#cc342d",
    "PHP" := "#777bb4", "Swift" := "#fa7343", "Kotlin" := "#7f52ff",
    "Dart" := "#0175c2", "HTML" := "#e34c26", "CSS" := "#1572b6"]

  /** `getLanguageColor`: the listed colour, or the default. No listed colour is the default,
      so the default appears exactly for the unlisted languages. */
  function LanguageColor(language: string): (c: string)
    ensures language in LanguageColors ==> c == LanguageColors[language]
    ensures c == DefaultColor <==> language !in LanguageColors
  {
    if language in LanguageColors then LanguageColors[language] else DefaultColor
  }

  datatype LanguageShare = LanguageShare(name: string, percentage: Option<nat>, color: string)

  datatype WrappedSummary = WrappedSummary(languages: seq<LanguageShare>, topRepos: seq<RepoCommits>)

  function Shares(langs: seq<LangPercent>): (r: seq<LanguageShare>)
    ensures |r| == |langs|
    ensures forall i :: 0 <= i < |langs| ==>
              r[i] == LanguageShare(langs[i].name, langs[i].percentage, LanguageColor(langs[i].name))
  {
    if langs == [] then []
    else [LanguageShare(langs[0].name, langs[0].percentage, LanguageColor(langs[0].name))] + Shares(langs[1..])
  }

  /** `fetchWrappedData`: given the language dictionary and the repositories with their commit
      counts (or the failure of either request), the five largest language shares with their
      colours and the top five repositories; None (the source's `null`) when either failed. */
  function FetchWrappedData(stats: Result<seq<LangBytes>>, reposWithCommits: Result<seq<RepoCommits>>): (r: Option<WrappedSummary>)
    ensures r.Some? <==> stats.Ok? && reposWithCommits.Ok?
    ensures r.Some? ==>
      var langs := LanguagePercentages(stats.value);
      && |r.value.languages| == (if |langs| < 5 then |langs| else 5)
      && (forall i :: 0 <= i < |r.value.languages| ==>
            r.value.languages[i] == LanguageShare(langs[i].name, langs[i].percentage, LanguageColor(langs[i].name)))
      && r.value.topRepos == TopReposByCommits(reposWithCommits.value, 5)
  {
    if stats.Err? || reposWithCommits.Err? then None
    else
      var langs := LanguagePercentages(stats.value);
      var top := if |langs| < 5 then langs else langs[..5];
      Some(WrappedSummary(Shares(top), TopReposByCommits(reposWithCommits.value, 5)))
  }
}
