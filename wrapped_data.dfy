/** The statistics behind the "Wrapped" slides (src/components/Wrapped.tsx): the shape of the
    data, the placeholder shown while loading, the literal used when anything fails, and the
    merge `fetchData` performs over the results of the GitHub requests. The requests
    themselves are inputs: each one either answered (Ok) or threw (Err). */
module WrappedData {
  import opened Wrappers
  import opened Strings
  import opened Sorting
  import opened GitHub

  // ================================================================ colours

  const WrappedDefaultColor: string := "#1ED760"

  /** The component's own colour table: the fifteen colours of the GitHub helper plus Shell,
      Dockerfile and Makefile. */
  const WrappedColors: map<string, string> := LanguageColors + map[
    "Shell" := "#89e051", "Dockerfile" := "#384d54", "Makefile" := "#427819"]

  /** `getLanguageColor` of the component: the listed colour, or Spotify green. */
  function WrappedLanguageColor(language: string): (c: string)
    ensures language in WrappedColors ==> c == WrappedColors[language]
    ensures c == WrappedDefaultColor <==> language !in WrappedColors
  {
    if language in WrappedColors then WrappedColors[language] else WrappedDefaultColor
  }

  /** The table is the helper's table extended: the two agree on all fifteen shared languages,
      and only their defaults differ. */
  lemma WrappedColorsExtendHelper(language: string)
    ensures language in LanguageColors ==> WrappedLanguageColor(language) == LanguageColor(language)
    ensures language !in WrappedColors ==>
              WrappedLanguageColor(language) == WrappedDefaultColor && LanguageColor(language) == DefaultColor
  {
  }

  // ================================================================ data model

  datatype LanguageStat = LanguageStat(name: string, percentage: nat, color: string)

  datatype ProjectStat = ProjectStat(name: string, metric: string, description: string, tech: seq<string>)

  /** A repository as `getRepositories` lists it; `language` is None for GitHub's `null`. */
  datatype RepoInfo = RepoInfo(name: string, language: Option<string>)

  datatype WrappedStats = WrappedStats(
    totalCommits: nat,
    totalPRs: nat,
    prodIncidents: nat,
    languages: seq<LanguageStat>,
    topProjects: seq<ProjectStat>,
    topRepos: seq<RepoCommits>,
    activeDays: nat,
    peakDay: string,
    peakTime: string,
    repoCount: nat,
    contributions: nat)

  /** The state before the first load. */
  const InitialData: WrappedStats := WrappedStats(0, 0, 3, [], [], [], 0, "Tuesday", "11 PM", 0, 0)

  /** The literal shown whenever loading fails. */
  const FallbackData: WrappedStats := WrappedStats(
    1280, 73, 3,
    [ LanguageStat("TypeScript", 26, "#3178c6"), LanguageStat("Go", 24, "#00add8"),
      LanguageStat("Ruby", 22, "#cc342d"), LanguageStat("Java", 12, "#ed8b00"),
      LanguageStat("JavaScript", 10, "#f7df1e"), LanguageStat("Python", 6, "#3776ab") ],
    [ ProjectStat("Squeak", "700+ users", "Revenue-generating platform", ["React", "Go", "Supabase", "AWS"]),
      ProjectStat("Modaflows", "Private project", "Enterprise workflow automation", ["TypeScript", "React"]),
      ProjectStat("PickUp", "Full-stack MVP", "Social sports platform", ["Express.js", "React", "AWS"]) ],
    [ RepoCommits("squeak-backend", 423), RepoCommits("modaflows", 312),
      RepoCommits("squeak-frontend", 271), RepoCommits("pickup-app", 189),
      RepoCommits("shopify/checkout", 30) ],
    210, "Tuesday", "11 PM", 16, 1353)

  const ShopifyCommits: nat := 30
  const ShopifyPRs: nat := 10
  const ShopifyEntry: RepoCommits := RepoCommits("shopify/checkout", ShopifyCommits)

  function PercentOf(l: LanguageStat): int { l.percentage }

  /** The language shares shown on a successful load; they do not come from the requests. */
  function LiveLanguages(): seq<LanguageStat> {
    [ LanguageStat("Python", 30, WrappedLanguageColor("Python")),
      LanguageStat("Ruby", 20, WrappedLanguageColor("Ruby")),
      LanguageStat("TypeScript", 18, WrappedLanguageColor("TypeScript")),
      LanguageStat("Go", 15, WrappedLanguageColor("Go")),
      LanguageStat("Java", 10, WrappedLanguageColor("Java")),
      LanguageStat("JavaScript", 7, WrappedLanguageColor("JavaScript")) ]
  }

  /** The hard-coded breakdown of a successful load is a set of percentages that add up
      to 100, listed largest first. */
  lemma LiveLanguagesAreShares()
    ensures SumOf(LiveLanguages(), PercentOf) == 100 && SortedDesc(LiveLanguages(), PercentOf)
  {
    var live := LiveLanguages();
    assert PercentOf(live[0]) == 30 && PercentOf(live[1]) == 20 && PercentOf(live[2]) == 18;
    assert PercentOf(live[3]) == 15 && PercentOf(live[4]) == 10 && PercentOf(live[5]) == 7;
    SortedDescFromNeighbours(live, PercentOf);
    SumOfSix(live, PercentOf);
  }

  /** So is the fallback's breakdown. */
  lemma FallbackLanguagesAreShares()
    ensures SumOf(FallbackData.languages, PercentOf) == 100 && SortedDesc(FallbackData.languages, PercentOf)
  {
    var fb := FallbackData.languages;
    assert PercentOf(fb[0]) == 26 && PercentOf(fb[1]) == 24 && PercentOf(fb[2]) == 22;
    assert PercentOf(fb[3]) == 12 && PercentOf(fb[4]) == 10 && PercentOf(fb[5]) == 6;
    SortedDescFromNeighbours(fb, PercentOf);
    SumOfSix(fb, PercentOf);
  }

  lemma SumOfSix<T>(s: seq<T>, f: T -> int)
    requires |s| == 6
    ensures SumOf(s, f) == f(s[0]) + f(s[1]) + f(s[2]) + f(s[3]) + f(s[4]) + f(s[5])
  {
    assert SumOf(s[5..], f) == f(s[5]) by { assert s[5..][1..] == []; }
    assert SumOf(s[4..], f) == f(s[4]) + SumOf(s[5..], f) by { assert s[4..][1..] == s[5..]; }
    assert SumOf(s[3..], f) == f(s[3]) + SumOf(s[4..], f) by { assert s[3..][1..] == s[4..]; }
    assert SumOf(s[2..], f) == f(s[2]) + SumOf(s[3..], f) by { assert s[2..][1..] == s[3..]; }
    assert SumOf(s[1..], f) == f(s[1]) + SumOf(s[2..], f) by { assert s[1..][1..] == s[2..]; }
  }

  /** The fallback's repositories are ordered by commits, it already carries the Shopify
      entry, and its contribution count is its commits plus its pull requests. */
  lemma FallbackIsConsistent()
    ensures SortedDesc(FallbackData.topRepos, CommitsOf)
    ensures HasShopify(FallbackData.topRepos)
    ensures FallbackData.contributions == FallbackData.totalCommits + FallbackData.totalPRs
    ensures |FallbackData.topRepos| == 5 && |FallbackData.topProjects| == 3
  {
    var top := FallbackData.topRepos;
    assert CommitsOf(top[0]) == 423 && CommitsOf(top[1]) == 312 && CommitsOf(top[2]) == 271;
    assert CommitsOf(top[3]) == 189 && CommitsOf(top[4]) == 30;
    SortedDescFromNeighbours(top, CommitsOf);
    assert top[4] == ShopifyEntry;
    ShopifyEntryMentionsShopify();
  }

  // ================================================================ the Shopify entry

  /** `name.toLowerCase().includes('shopify') || name.toLowerCase().includes('checkout')` */
  predicate MentionsShopify(r: RepoCommits) {
    Contains(ToLower(r.name), "shopify") || Contains(ToLower(r.name), "checkout")
  }

  /** `topRepos.some(...)` */
  predicate HasShopify(repos: seq<RepoCommits>) {
    exists i :: 0 <= i < |repos| && MentionsShopify(repos[i])
  }

  lemma ShopifyEntryMentionsShopify()
    ensures MentionsShopify(ShopifyEntry)
  {
    ShopifyNameIsLowerCase();
    ShopifyNameContainsShopify();
  }

  lemma ShopifyNameIsLowerCase()
    ensures ToLower(ShopifyEntry.name) == ShopifyEntry.name
  {
    var name := ShopifyEntry.name;
    assert forall i :: 0 <= i < |name| ==> !IsUpperAscii(name[i]);
    ToLowerWithoutUpper(name);
  }

  lemma ShopifyNameContainsShopify()
    ensures Contains(ShopifyEntry.name, "shopify")
  {
    assert ShopifyEntry.name[0..7] == "shopify";
    assert OccursAt(ShopifyEntry.name, "shopify", 0);
  }

  /** Prepend the Shopify entry unless some repository already mentions Shopify or
      checkout, and keep five. */
  function WithShopify(topRepos: seq<RepoCommits>): (r: seq<RepoCommits>)
    ensures HasShopify(topRepos) ==> r == topRepos
    ensures !HasShopify(topRepos) ==>
              && |r| == (if |topRepos| < 5 then |topRepos| + 1 else 5)
              && r[0] == ShopifyEntry
              && r[1..] == topRepos[..|r| - 1]
    ensures HasShopify(r)
  {
    if HasShopify(topRepos) then topRepos
    else
      var r := Take([ShopifyEntry] + topRepos, 5);
      PrependTake(ShopifyEntry, topRepos, 5);
      HasShopifyInFront(r);
      r
  }

  /** `unshift(x)` followed by `slice(0, n)`. */
  lemma PrependTake<T>(x: T, s: seq<T>, n: nat)
    requires n > 0
    ensures var r := Take([x] + s, n);
      && |r| == (if |s| < n then |s| + 1 else n)
      && r[0] == x
      && r[1..] == s[..|r| - 1]
  {
    var r := Take([x] + s, n);
    assert r == ([x] + s)[..|r|];
    assert r[1..] == s[..|r| - 1];
  }

  lemma HasShopifyInFront(r: seq<RepoCommits>)
    requires |r| > 0 && r[0] == ShopifyEntry
    ensures HasShopify(r)
  {
    ShopifyEntryMentionsShopify();
    assert MentionsShopify(r[0]);
  }

  /** The prepended entry goes first whatever its count: in front of any list led by a
      repository with more than 30 commits, the result is not ordered by commits. */
  lemma ShopifyPrependBreaksOrder(topRepos: seq<RepoCommits>)
    requires !HasShopify(topRepos) && |topRepos| > 0 && topRepos[0].commits > ShopifyCommits
    ensures !SortedDesc(WithShopify(topRepos), CommitsOf)
  {
    var r := WithShopify(topRepos);
    assert r[1] == r[1..][0] == topRepos[0];
  }

  // ================================================================ top projects

  /** `repos.find(r => r.name === name || name.includes(r.name))`. */
  function FindRepo(repos: seq<RepoInfo>, name: string): (r: Option<RepoInfo>)
    ensures r.Some? <==> exists i :: 0 <= i < |repos| && MatchesRepo(repos[i], name)
    ensures r.Some? ==> exists i :: 0 <= i < |repos| && repos[i] == r.value && MatchesRepo(repos[i], name)
                                    && forall j :: 0 <= j < i ==> !MatchesRepo(repos[j], name)
  {
    if repos == [] then None
    else if MatchesRepo(repos[0], name) then Some(repos[0])
    else
      var r := FindRepo(repos[1..], name);
      assert forall i :: 1 <= i < |repos| ==> repos[i] == repos[1..][i - 1];
      if r.Some? then
        var i :| 0 <= i < |repos[1..]| && repos[1..][i] == r.value && MatchesRepo(repos[1..][i], name)
                 && forall j :: 0 <= j < i ==> !MatchesRepo(repos[1..][j], name);
        assert forall j :: 0 <= j < i + 1 ==> !MatchesRepo(repos[j], name) by {
          forall j | 0 <= j < i + 1 ensures !MatchesRepo(repos[j], name) {
            if j > 0 { assert repos[j] == repos[1..][j - 1]; }
          }
        }
        r
      else r
  }

  predicate MatchesRepo(r: RepoInfo, name: string) {
    r.name == name || Contains(name, r.name)
  }

  /** The displayed name: after the first '/' (up to a second one) when there is one. */
  function ProjectName(name: string): (r: string)
    ensures '/' !in name ==> r == name
    ensures '/' in name ==> '/' !in r && |r| < |name|
  {
    ContainsSingleChar(name, '/');
    if Contains(name, "/") then SecondField(name, '/') else name
  }

  lemma ContainsSingleChar(s: string, c: char)
    ensures Contains(s, [c]) <==> c in s
  {
    if c in s {
      var i :| 0 <= i < |s| && s[i] == c;
      assert OccursAt(s, [c], i);
    }
    if Contains(s, [c]) {
      var i: nat :| OccursAt(s, [c], i);
      assert s[i..i + 1][0] == c;
    }
  }

  lemma ProjectNameSplits(owner: string, name: string)
    requires '/' !in owner && '/' !in name
    ensures ProjectName(RepoKey(owner, name)) == name
  {
    var key := RepoKey(owner, name);
    ContainsSingleChar(key, '/');
    assert key[|owner|] == '/';
    RepoKeySplits(owner, name);
    assert key[|owner| + 1..] == name;
  }

  const Descriptions: seq<string> := ["Most commits", "Second most active", "Third most active"]

  /** `repoDetails?.language` is truthy: a repository was found and its language is set and
      not empty. */
  predicate HasLanguage(found: Option<RepoInfo>) {
    found.Some? && found.value.language.Some? && found.value.language.value != ""
  }

  /** The technology shown for a repository: the language of the first listed repository
      that matches its name, or "Various" when there is none or it has no language. */
  function Tech(repos: seq<RepoInfo>, name: string): (t: seq<string>)
    ensures |t| == 1
    ensures FindRepo(repos, name).None? ==> t == ["Various"]
    ensures t != ["Various"] ==>
              exists i :: 0 <= i < |repos| && MatchesRepo(repos[i], name) && repos[i].language == Some(t[0])
    ensures HasLanguage(FindRepo(repos, name)) ==> t == [FindRepo(repos, name).value.language.value]
    ensures !HasLanguage(FindRepo(repos, name)) ==> t == ["Various"]
  {
    var found := FindRepo(repos, name);
    if HasLanguage(found) then [found.value.language.value] else ["Various"]
  }

  /** One project card for the repository at `index` of the top list. */
  function Project(repo: RepoCommits, index: nat, repos: seq<RepoInfo>): (p: ProjectStat)
    ensures p.name == ProjectName(repo.name)
    ensures p.metric == NatToString(repo.commits) + " commits"
    ensures p.description == Descriptions[if index < 2 then index else 2]
    ensures p.tech == Tech(repos, repo.name)
  {
    ProjectStat(ProjectName(repo.name), NatToString(repo.commits) + " commits",
                if index == 0 then "Most commits" else if index == 1 then "Second most active" else "Third most active",
                Tech(repos, repo.name))
  }

  /** `topRepos.slice(0, 3).map((repo, index) => ...)`: one card per repository, the
      position in the list choosing its description. */
  function Projects(top: seq<RepoCommits>, repos: seq<RepoInfo>): (r: seq<ProjectStat>)
    ensures |r| == |top|
    ensures forall i :: 0 <= i < |top| ==> r[i] == Project(top[i], i, repos)
  {
    seq(|top|, i requires 0 <= i < |top| => Project(top[i], i, repos))
  }

  function Take<T>(s: seq<T>, n: nat): (r: seq<T>)
    ensures |r| == if |s| < n then |s| else n
    ensures r == s[..|r|]
  {
    if |s| < n then s else s[..n]
  }

  // ================================================================ the merge

  /** The outcome of every request `fetchData` makes. `languagePercentages` is requested and
      its result discarded; only its failure matters. */
  datatype LoaderInputs = LoaderInputs(
    hasToken: bool,
    userContributions: Result<UserContributions>,
    contributionsByRepo: Result<seq<RepoCommits>>,
    repositories: Result<seq<RepoInfo>>,
    languagePercentages: Result<seq<LangPercent>>,
    restCommitCounts: Result<seq<nat>>,
    restReposWithCommits: Result<seq<RepoCommits>>)

  /** Both GraphQL requests answered (`Promise.all` rejects when either throws). */
  predicate UsesGraphQL(inp: LoaderInputs) {
    inp.userContributions.Ok? && inp.contributionsByRepo.Ok?
  }

  /** Nothing threw: there is a token, the repository and language requests answered, and
      so did the REST requests whenever the GraphQL ones did not. */
  predicate LoadSucceeds(inp: LoaderInputs) {
    && inp.hasToken
    && inp.repositories.Ok?
    && inp.languagePercentages.Ok?
    && (UsesGraphQL(inp) || (inp.restCommitCounts.Ok? && inp.restReposWithCommits.Ok?))
  }

  /** The commit total before the Shopify adjustment. */
  function BaseCommits(inp: LoaderInputs): nat
    requires LoadSucceeds(inp)
  {
    if UsesGraphQL(inp) then inp.userContributions.value.totalCommitContributions
    else TotalCommitCount(inp.restCommitCounts.value)
  }

  /** The top repositories before the Shopify adjustment. */
  function BaseTopRepos(inp: LoaderInputs): (r: seq<RepoCommits>)
    requires LoadSucceeds(inp)
    ensures |r| <= 5 && SortedDesc(r, CommitsOf)
  {
    if UsesGraphQL(inp) then TopReposByCommits(inp.contributionsByRepo.value, 5)
    else TopReposByCommits(inp.restReposWithCommits.value, 5)
  }

  /** `Math.min(365, repos.length * 15)` */
  function ActiveDays(repoCount: nat): (d: nat)
    ensures d <= 365 && d <= 15 * repoCount
    ensures d == 365 || d == 15 * repoCount
  {
    if 15 * repoCount < 365 then 15 * repoCount else 365
  }

  /** `(prs || Math.floor(totalCommits / 20)) + 10`: a pull-request count of zero (or no
      GraphQL answer) is replaced by one pull request per twenty commits. */
  function AdjustedPRs(inp: LoaderInputs, totalCommits: nat): (p: nat)
    ensures p >= ShopifyPRs
    ensures UsesGraphQL(inp) && inp.userContributions.value.totalPullRequestContributions > 0 ==>
              p == inp.userContributions.value.totalPullRequestContributions + ShopifyPRs
    ensures !(UsesGraphQL(inp) && inp.userContributions.value.totalPullRequestContributions > 0) ==>
              20 * (p - ShopifyPRs) <= totalCommits < 20 * (p - ShopifyPRs) + 20
  {
    if UsesGraphQL(inp) && inp.userContributions.value.totalPullRequestContributions != 0
    then inp.userContributions.value.totalPullRequestContributions + ShopifyPRs
    else totalCommits / 20 + ShopifyPRs
  }

  /** What `fetchData` stores: the fallback literal when anything threw, otherwise the
      merged figures. */
  function Load(inp: LoaderInputs): (r: WrappedStats)
    ensures !LoadSucceeds(inp) ==> r == FallbackData
    ensures LoadSucceeds(inp) ==>
      var base := BaseTopRepos(inp);
      var repos := inp.repositories.value;
      && r.totalCommits == BaseCommits(inp) + ShopifyCommits
      && r.totalPRs == AdjustedPRs(inp, r.totalCommits)
      && r.contributions == r.totalCommits + r.totalPRs
      && r.languages == LiveLanguages()
      && r.topProjects == Projects(Take(base, 3), repos)
      && r.topRepos == WithShopify(base)
      && r.activeDays == ActiveDays(|repos|)
      && r.repoCount == |repos|
      && r.prodIncidents == 3 && r.peakDay == "Tuesday" && r.peakTime == "11 PM"
  {
    if !LoadSucceeds(inp) then FallbackData
    else
      var base := BaseTopRepos(inp);
      var repos := inp.repositories.value;
      var totalCommits := BaseCommits(inp) + ShopifyCommits;
      var prs := AdjustedPRs(inp, totalCommits);
      WrappedStats(totalCommits, prs, 3, LiveLanguages(), Projects(Take(base, 3), repos),
                   WithShopify(base), ActiveDays(|repos|), "Tuesday", "11 PM", |repos|, totalCommits + prs)
  }

  /** A record with the merged figures of a successful load is the loaded record. */
  lemma LoadFields(inp: LoaderInputs, d: WrappedStats)
    requires LoadSucceeds(inp)
    requires d.totalCommits == BaseCommits(inp) + ShopifyCommits
    requires d.totalPRs == AdjustedPRs(inp, d.totalCommits)
    requires d.prodIncidents == 3 && d.languages == LiveLanguages()
    requires d.topProjects == Projects(Take(BaseTopRepos(inp), 3), inp.repositories.value)
    requires d.topRepos == WithShopify(BaseTopRepos(inp))
    requires d.activeDays == ActiveDays(|inp.repositories.value|)
    requires d.peakDay == "Tuesday" && d.peakTime == "11 PM"
    requires d.repoCount == |inp.repositories.value| && d.contributions == d.totalCommits + d.totalPRs
    ensures d == Load(inp)
  {
  }

  /** Whatever happens, the slides get at most five repositories, at most three projects,
      a Shopify entry, contributions equal to commits plus pull requests, and at most a
      year of active days. */
  lemma LoadShape(inp: LoaderInputs)
    ensures var r := Load(inp);
      && 1 <= |r.topRepos| <= 5
      && |r.topProjects| <= 3
      && HasShopify(r.topRepos)
      && r.contributions == r.totalCommits + r.totalPRs
      && r.activeDays <= 365
      && r.totalCommits >= ShopifyCommits && r.totalPRs >= ShopifyPRs
  {
    FallbackIsConsistent();
  }

  /** The top list is ordered by commits except perhaps for a prepended Shopify entry in
      front; without the prepend it is ordered throughout. */
  lemma LoadTopReposOrder(inp: LoaderInputs)
    ensures var r := Load(inp);
      && SortedDesc(r.topRepos[1..], CommitsOf)
      && ((!LoadSucceeds(inp) || HasShopify(BaseTopRepos(inp))) ==> SortedDesc(r.topRepos, CommitsOf))
  {
    if LoadSucceeds(inp) {
      WithShopifyOrder(BaseTopRepos(inp));
    } else {
      FallbackIsConsistent();
      SortedDescTail(FallbackData.topRepos, CommitsOf);
    }
  }

  /** The Shopify adjustment keeps the order of the list behind its first entry, and the
      whole order when it does not prepend. */
  lemma WithShopifyOrder(topRepos: seq<RepoCommits>)
    requires SortedDesc(topRepos, CommitsOf)
    ensures SortedDesc(WithShopify(topRepos)[1..], CommitsOf)
    ensures HasShopify(topRepos) ==> SortedDesc(WithShopify(topRepos), CommitsOf)
  {
    if HasShopify(topRepos) {
      SortedDescTail(topRepos, CommitsOf);
    } else {
      var r := WithShopify(topRepos);
      SortedDescPrefix(topRepos, |r| - 1, CommitsOf);
    }
  }

  /** After the adjustment every entry is one of the original ones or the Shopify entry. */
  lemma WithShopifyEntries(topRepos: seq<RepoCommits>)
    ensures forall x :: x in WithShopify(topRepos) ==> x in topRepos || x == ShopifyEntry
  {
    var r := WithShopify(topRepos);
    if !HasShopify(topRepos) {
      forall x | x in r ensures x in topRepos || x == ShopifyEntry {
        var i :| 0 <= i < |r| && r[i] == x;
        if i > 0 {
          assert r[1..][i - 1] == x;
          assert x in topRepos[..|r| - 1];
        }
      }
    }
  }

  /** Every listed repository is one of the base top repositories or the Shopify entry, and
      the project cards describe the first three base repositories, in order. */
  lemma LoadTopReposFromBase(inp: LoaderInputs)
    requires LoadSucceeds(inp)
    ensures var r := Load(inp); var base := BaseTopRepos(inp);
      && (forall x :: x in r.topRepos ==> x in base || x == ShopifyEntry)
      && |r.topProjects| == (if |base| < 3 then |base| else 3)
      && (forall i :: 0 <= i < |r.topProjects| ==> r.topProjects[i].name == ProjectName(base[i].name))
  {
    WithShopifyEntries(BaseTopRepos(inp));
  }

  /** On the GraphQL path with a non-zero pull-request count, the count is taken as
      reported plus the ten Shopify pull requests. */
  lemma GraphQLFigures(inp: LoaderInputs)
    requires LoadSucceeds(inp) && UsesGraphQL(inp)
    ensures var r := Load(inp); var uc := inp.userContributions.value;
      && r.totalCommits == uc.totalCommitContributions + 30
      && (uc.totalPullRequestContributions > 0 ==> r.totalPRs == uc.totalPullRequestContributions + 10)
      && (uc.totalPullRequestContributions == 0 ==> r.totalPRs == (uc.totalCommitContributions + 30) / 20 + 10)
  {
  }
}
