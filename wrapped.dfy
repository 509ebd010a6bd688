/** The "Wrapped" slideshow (src/components/Wrapped.tsx): an index into nine slides, moved by
    the arrows and the progress bars. Every move is a timer: the click only sets
    `isAnimating` and schedules the change, computed from the index at the time of the
    click; when the timer fires it applies that index and clears `isAnimating`. Timers are
    kept as the list of scheduled target indices, and any of them may fire next (a jump
    waits 300 ms, an arrow 400 ms). Nothing stops a click while another move is pending. */
module WrappedSlides {
  import opened GitHub
  import opened WrappedData

  const SlideCount: nat := 9

  datatype SlideState = SlideState(currentSlide: nat, isAnimating: bool, pending: seq<nat>)

  /** The index and every scheduled target name a slide. */
  predicate Valid(s: SlideState) {
    s.currentSlide < SlideCount && forall k :: 0 <= k < |s.pending| ==> s.pending[k] < SlideCount
  }

  const Start: SlideState := SlideState(0, false, [])

  /** A click: start the animation and schedule `target`. */
  function Schedule(s: SlideState, target: nat): (r: SlideState)
    ensures r.currentSlide == s.currentSlide && r.isAnimating
    ensures |r.pending| == |s.pending| + 1 && r.pending[..|s.pending|] == s.pending
    ensures r.pending[|s.pending|] == target
    ensures Valid(s) && target < SlideCount ==> Valid(r)
  {
    SlideState(s.currentSlide, true, s.pending + [target])
  }

  /** `handleNext`: schedules the following slide, except on the last one. */
  function Next(s: SlideState): (r: SlideState)
    ensures s.currentSlide + 1 < SlideCount ==> r == Schedule(s, s.currentSlide + 1)
    ensures s.currentSlide + 1 >= SlideCount ==> r == s
    ensures Valid(s) ==> Valid(r)
  {
    if s.currentSlide < SlideCount - 1 then Schedule(s, s.currentSlide + 1) else s
  }

  /** `handlePrevious`: schedules the preceding slide, except on the first one. */
  function Previous(s: SlideState): (r: SlideState)
    ensures s.currentSlide > 0 ==> r == Schedule(s, s.currentSlide - 1)
    ensures s.currentSlide == 0 ==> r == s
    ensures Valid(s) ==> Valid(r)
  {
    if s.currentSlide > 0 then Schedule(s, s.currentSlide - 1) else s
  }

  /** A click on progress bar `i`; there is one bar per slide. */
  function Jump(s: SlideState, i: nat): (r: SlideState)
    requires i < SlideCount
    ensures r == Schedule(s, i)
    ensures Valid(s) ==> Valid(r)
  {
    Schedule(s, i)
  }

  /** Timer `k` fires: its target becomes the index, the animation ends, the timer is gone. */
  function Complete(s: SlideState, k: nat): (r: SlideState)
    requires k < |s.pending|
    ensures r.currentSlide == s.pending[k] && !r.isAnimating
    ensures |r.pending| == |s.pending| - 1
    ensures multiset(r.pending) + multiset{s.pending[k]} == multiset(s.pending)
    ensures Valid(s) ==> Valid(r)
  {
    var rest := s.pending[..k] + s.pending[k + 1..];
    assert s.pending == s.pending[..k] + [s.pending[k]] + s.pending[k + 1..];
    assert forall j :: 0 <= j < |rest| ==> rest[j] in s.pending;
    SlideState(s.pending[k], false, rest)
  }

  datatype SlideOp = NextOp | PreviousOp | JumpOp(i: nat) | CompleteOp(k: nat)

  /** One user action or timer; a jump to a bar that does not exist and a timer that is not
      pending do nothing. */
  function Step(s: SlideState, op: SlideOp): SlideState {
    match op
    case NextOp => Next(s)
    case PreviousOp => Previous(s)
    case JumpOp(i) => if i < SlideCount then Jump(s, i) else s
    case CompleteOp(k) => if k < |s.pending| then Complete(s, k) else s
  }

  function Run(s: SlideState, ops: seq<SlideOp>): SlideState
    decreases |ops|
  {
    if ops == [] then s else Run(Step(s, ops[0]), ops[1..])
  }

  /** Whatever the clicks and the order in which the timers fire, the index stays on one of
      the nine slides. */
  lemma {:induction false} RunStaysOnSlides(s: SlideState, ops: seq<SlideOp>)
    requires Valid(s)
    ensures Valid(Run(s, ops))
    decreases |ops|
  {
    if ops != [] {
      RunStaysOnSlides(Step(s, ops[0]), ops[1..]);
    }
  }

  /** With no other move pending, an arrow moves exactly one slide once its timer fires. */
  lemma NextMovesOne(s: SlideState)
    requires Valid(s) && s.pending == [] && s.currentSlide < SlideCount - 1
    ensures var t := Next(s);
      && t.isAnimating && t.currentSlide == s.currentSlide
      && Complete(t, 0) == SlideState(s.currentSlide + 1, false, [])
  {
  }

  lemma PreviousMovesOne(s: SlideState)
    requires Valid(s) && s.pending == [] && s.currentSlide > 0
    ensures var t := Previous(s);
      && t.isAnimating && t.currentSlide == s.currentSlide
      && Complete(t, 0) == SlideState(s.currentSlide - 1, false, [])
  {
  }

  /** Previous undoes next: from a resting state that is not the last slide, next followed
      by previous (each timer firing before the next click) comes back to where it was. */
  lemma PreviousUndoesNext(s: SlideState)
    requires Valid(s) && s.pending == [] && !s.isAnimating && s.currentSlide < SlideCount - 1
    ensures Complete(Previous(Complete(Next(s), 0)), 0) == s
  {
    NextMovesOne(s);
    PreviousMovesOne(Complete(Next(s), 0));
  }

  /** Two quick clicks on "next" both read the same index, so the slideshow advances once,
      not twice. */
  lemma DoubleNextAdvancesOnce(s: SlideState)
    requires Valid(s) && s.pending == [] && s.currentSlide < SlideCount - 1
    ensures var t := Next(Next(s));
      && t.pending == [s.currentSlide + 1, s.currentSlide + 1]
      && Complete(Complete(t, 0), 0).currentSlide == s.currentSlide + 1
  {
    var c := s.currentSlide;
    var t1 := Next(s);
    assert t1 == SlideState(c, true, [c + 1]);
    var t := Next(t1);
    assert t == SlideState(c, true, [c + 1, c + 1]);
    var u := Complete(t, 0);
    assert u.pending == t.pending[1..] == [c + 1];
  }

  /** The arrows do nothing at the ends. */
  lemma ArrowsStopAtEnds(s: SlideState)
    ensures s.currentSlide == SlideCount - 1 ==> Next(s) == s
    ensures s.currentSlide == 0 ==> Previous(s) == s
  {
  }

  /** A bar click lands on its slide. */
  lemma JumpLands(s: SlideState, i: nat)
    requires Valid(s) && s.pending == [] && i < SlideCount
    ensures Complete(Jump(s, i), 0) == SlideState(i, false, [])
  {
  }

  // ================================================================ the component

  class Wrapped {
    var currentSlide: nat
    var isAnimating: bool
    var pending: seq<nat>
    var isLoading: bool
    var wrappedData: WrappedStats

    function Slides(): SlideState
      reads this
    {
      SlideState(currentSlide, isAnimating, pending)
    }

    /** The first render: slide 0, loading, the placeholder figures. */
    constructor ()
      ensures Slides() == Start && isLoading && wrappedData == InitialData
    {
      currentSlide := 0;
      isAnimating := false;
      pending := [];
      isLoading := true;
      wrappedData := InitialData;
    }

    method HandleNext()
      modifies this
      ensures Slides() == Next(old(Slides()))
      ensures isLoading == old(isLoading) && wrappedData == old(wrappedData)
    {
      if currentSlide < SlideCount - 1 {
        isAnimating := true;
        pending := pending + [currentSlide + 1];
      }
    }

    method HandlePrevious()
      modifies this
      ensures Slides() == Previous(old(Slides()))
      ensures isLoading == old(isLoading) && wrappedData == old(wrappedData)
    {
      if currentSlide > 0 {
        isAnimating := true;
        pending := pending + [currentSlide - 1];
      }
    }

    method JumpTo(i: nat)
      requires i < SlideCount
      modifies this
      ensures Slides() == Jump(old(Slides()), i)
      ensures isLoading == old(isLoading) && wrappedData == old(wrappedData)
    {
      isAnimating := true;
      pending := pending + [i];
    }

    /** The timer scheduled `k`-th among those still pending fires. */
    method CompleteTransition(k: nat)
      requires k < |pending|
      modifies this
      ensures Slides() == Complete(old(Slides()), k)
      ensures isLoading == old(isLoading) && wrappedData == old(wrappedData)
    {
      currentSlide := pending[k];
      isAnimating := false;
      pending := pending[..k] + pending[k + 1..];
    }

    /** `fetchData`: whatever the requests return, loading ends with the merged figures, or
        with the fallback literal when anything threw. The slides are untouched. */
    method FetchData(inp: LoaderInputs)
      modifies this
      ensures wrappedData == Load(inp) && !isLoading
      ensures Slides() == old(Slides())
    {
      isLoading := true;
      if !LoadSucceeds(inp) {
        wrappedData := FallbackData;
        assert wrappedData == Load(inp);
      } else {
        var repos := inp.repositories.value;
        var totalCommits: nat;
        var topRepos: seq<RepoCommits>;
        if UsesGraphQL(inp) {
          totalCommits := inp.userContributions.value.totalCommitContributions;
          topRepos := TopReposByCommits(inp.contributionsByRepo.value, 5);
        } else {
          totalCommits := TotalCommitCount(inp.restCommitCounts.value);
          topRepos := TopReposByCommits(inp.restReposWithCommits.value, 5);
        }
        var base := topRepos;
        assert base == BaseTopRepos(inp) && totalCommits == BaseCommits(inp);
        totalCommits := totalCommits + ShopifyCommits;
        var prs := if UsesGraphQL(inp) then inp.userContributions.value.totalPullRequestContributions else 0;
        var adjustedPRs := (if prs != 0 then prs else totalCommits / 20) + ShopifyPRs;
        var topProjects := Projects(Take(topRepos, 3), repos);
        var activeDays := ActiveDays(|repos|);
        if !HasShopify(topRepos) {
          topRepos := [ShopifyEntry] + topRepos;
          topRepos := Take(topRepos, 5);
        }
        assert topRepos == WithShopify(base);
        assert adjustedPRs == AdjustedPRs(inp, totalCommits);
        wrappedData := WrappedStats(totalCommits, adjustedPRs, 3, LiveLanguages(), topProjects, topRepos,
                                    activeDays, "Tuesday", "11 PM", |repos|, totalCommits + adjustedPRs);
        LoadFields(inp, wrappedData);
      }
      isLoading := false;
    }
  }
}
