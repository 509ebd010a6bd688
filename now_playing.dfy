/** The "now playing" bar (src/components/NowPlaying.tsx): three projects played like
    tracks. Next and previous wrap around, the progress of the current project advances by
    half a percent per tick until it reaches the project's own figure, the queue lists the
    other two, and the elapsed and total times are shown as m:ss. Progress is kept in
    half-percent units, so that it is an integer. */
module NowPlaying {
  import opened Strings

  datatype Project = Project(name: string, technologies: seq<string>, progress: nat, description: string)

  const Projects: seq<Project> := [
    Project("Squeak", SqueakTechnologies, 85, SqueakDescription),
    Project("PickUp", PickUpTechnologies, 75, PickUpDescription),
    Project("Caitlyn", CaitlynTechnologies, 90, CaitlynDescription)
  ]

  const SqueakTechnologies: seq<string> := ["React", "Go", "Supabase", "AWS"]
  const PickUpTechnologies: seq<string> := ["Express.js", "React", "Material UI", "Docker", "AWS"]
  const CaitlynTechnologies: seq<string> := ["C++", "Docker", "Intel Embree", "CUDA"]

  const SqueakDescription: string :=
    "LLM-driven language learning platform with 700+ users. Built full-stack infrastructure with Supabase, React, Go with JWT authentication."
  const PickUpDescription: string :=
    "Full-stack web application with Express.js backend and React frontend. Implemented Google OAuth authentication and deployed on AWS RDS."
  const CaitlynDescription: string :=
    "Ray-tracing renderer using C++, Embree, CUDA. Optimized rendering speeds by 53% using GPU acceleration."

  const ProjectCount: nat := 3

  lemma ProjectsShape()
    ensures |Projects| == ProjectCount
    ensures Projects[0].progress == 85 && Projects[1].progress == 75 && Projects[2].progress == 90
  {
  }

  /** The three projects are different, so a project is found again by its position. */
  lemma ProjectsDistinct()
    ensures forall i, j :: 0 <= i < j < |Projects| ==> Projects[i] != Projects[j]
  {
    assert Projects[0].name[0] == 'S' && Projects[1].name[0] == 'P' && Projects[2].name[0] == 'C';
  }

  // ================================================================ track selection

  /** `(prev + 1) % projects.length` */
  function NextIndex(i: nat): (r: nat)
    ensures r < ProjectCount
    ensures i < ProjectCount - 1 ==> r == i + 1
    ensures i == ProjectCount - 1 ==> r == 0
  {
    (i + 1) % ProjectCount
  }

  /** `(prev - 1 + projects.length) % projects.length` */
  function PreviousIndex(i: nat): (r: nat)
    requires i < ProjectCount
    ensures r < ProjectCount
    ensures i > 0 ==> r == i - 1
    ensures i == 0 ==> r == ProjectCount - 1
  {
    (i - 1 + ProjectCount) % ProjectCount
  }

  /** Previous undoes next and next undoes previous. */
  lemma NextPreviousInverse(i: nat)
    requires i < ProjectCount
    ensures PreviousIndex(NextIndex(i)) == i
    ensures NextIndex(PreviousIndex(i)) == i
  {
  }

  /** Three presses of next come back to the same project. */
  lemma NextCycles(i: nat)
    requires i < ProjectCount
    ensures NextIndex(NextIndex(NextIndex(i))) == i
  {
  }

  // ================================================================ the queue

  /** `s.filter((_, j) => j !== skip)`, for the elements numbered from `first` on. */
  function WithoutIndex<T>(s: seq<T>, skip: nat, first: nat): (r: seq<T>)
    ensures first <= skip < first + |s| ==> r == s[..skip - first] + s[skip - first + 1..]
    ensures !(first <= skip < first + |s|) ==> r == s
    decreases |s|
  {
    if s == [] then []
    else
      var rest := WithoutIndex(s[1..], skip, first + 1);
      if first == skip then
        assert rest == s[1..];
        rest
      else
        assert first < skip < first + |s| ==> s[1..][..skip - first - 1] == s[1..skip - first];
        [s[0]] + rest
  }

  /** `projects.filter((_, i) => i !== currentProjectIndex)`: every project but the current
      one, in their order. */
  function Queue(current: nat): (q: seq<Project>)
    requires current < ProjectCount
    ensures |q| == ProjectCount - 1
    ensures Projects[current] !in q
    ensures forall j :: 0 <= j < ProjectCount && j != current ==> Projects[j] in q
    ensures forall k :: 0 <= k < |q| ==> q[k] == Projects[if k < current then k else k + 1]
  {
    ProjectsDistinct();
    WithoutIndexSpec(Projects, current);
    WithoutIndex(Projects, current, 0)
  }

  /** Leaving out position `skip` shifts the later elements down by one; when the elements
      are distinct, the left-out one is gone and all the others remain. */
  lemma WithoutIndexSpec<T>(s: seq<T>, skip: nat)
    requires skip < |s|
    ensures var r := WithoutIndex(s, skip, 0);
      && |r| == |s| - 1
      && (forall k :: 0 <= k < |r| ==> r[k] == s[if k < skip then k else k + 1])
      && (forall j :: 0 <= j < |s| && j != skip ==> s[j] in r)
      && ((forall i, j :: 0 <= i < j < |s| ==> s[i] != s[j]) ==> s[skip] !in r)
  {
    var r := WithoutIndex(s, skip, 0);
    WithoutIndexShift(s, skip);
    WithoutIndexKeepsOthers(s, skip, r);
    if forall i, j :: 0 <= i < j < |s| ==> s[i] != s[j] {
      WithoutIndexDropsDistinct(s, skip, r);
    }
  }

  lemma WithoutIndexShift<T>(s: seq<T>, skip: nat)
    requires skip < |s|
    ensures var r := WithoutIndex(s, skip, 0);
      && |r| == |s| - 1
      && forall k :: 0 <= k < |r| ==> r[k] == s[if k < skip then k else k + 1]
  {
    var r := WithoutIndex(s, skip, 0);
    assert r == s[..skip] + s[skip + 1..];
  }

  lemma WithoutIndexKeepsOthers<T>(s: seq<T>, skip: nat, r: seq<T>)
    requires skip < |s| && |r| == |s| - 1
    requires forall k :: 0 <= k < |r| ==> r[k] == s[if k < skip then k else k + 1]
    ensures forall j :: 0 <= j < |s| && j != skip ==> s[j] in r
  {
    forall j | 0 <= j < |s| && j != skip ensures s[j] in r {
      assert r[if j < skip then j else j - 1] == s[j];
    }
  }

  lemma WithoutIndexDropsDistinct<T>(s: seq<T>, skip: nat, r: seq<T>)
    requires skip < |s| && |r| == |s| - 1
    requires forall k :: 0 <= k < |r| ==> r[k] == s[if k < skip then k else k + 1]
    requires forall i, j :: 0 <= i < j < |s| ==> s[i] != s[j]
    ensures s[skip] !in r
  {
    forall k | 0 <= k < |r| ensures r[k] != s[skip] {
      assert r[k] == s[if k < skip then k else k + 1];
    }
  }

  /** `projects.indexOf(project)` */
  function IndexOf<T(==)>(s: seq<T>, x: T): (k: int)
    ensures -1 <= k < |s|
    ensures k == -1 <==> x !in s
    ensures k >= 0 ==> s[k] == x && x !in s[..k]
  {
    if s == [] then -1
    else if s[0] == x then 0
    else
      var k := IndexOf(s[1..], x);
      assert s[1..] == s[1..][..|s| - 1];
      if k == -1 then -1
      else
        assert s[..k + 1] == [s[0]] + s[1..][..k];
        k + 1
  }

  /** In a sequence without repeats, `indexOf` finds each element at its own position. */
  lemma {:induction false} IndexOfDistinct<T>(s: seq<T>, i: nat)
    requires i < |s| && forall a, b :: 0 <= a < b < |s| ==> s[a] != s[b]
    ensures IndexOf(s, s[i]) == i
  {
    if i > 0 {
      assert s[0] != s[i];
      assert s[1..][i - 1] == s[i];
      IndexOfDistinct(s[1..], i - 1);
    }
  }

  /** Clicking queue item `k` selects the project shown there: one of the other two, the
      first or second of them in list order. */
  function QueueTarget(current: nat, k: nat): (r: nat)
    requires current < ProjectCount && k < ProjectCount - 1
    ensures r < ProjectCount && r != current
    ensures r == if k < current then k else k + 1
    ensures Projects[r] == Queue(current)[k]
  {
    var j := if k < current then k else k + 1;
    ProjectsDistinct();
    IndexOfDistinct(Projects, j);
    assert Queue(current)[k] == Projects[j];
    IndexOf(Projects, Queue(current)[k])
  }

  /** The two queue items lead to the two other projects. */
  lemma QueueTargetsAreTheOthers(current: nat)
    requires current < ProjectCount
    ensures {QueueTarget(current, 0), QueueTarget(current, 1)} + {current} == {0, 1, 2}
  {
    var a := QueueTarget(current, 0);
    var b := QueueTarget(current, 1);
    if current == 0 {
      assert a == 1 && b == 2;
    } else if current == 1 {
      assert a == 0 && b == 2;
    } else {
      assert a == 0 && b == 1;
    }
  }

  // ================================================================ progress

  /** One interval tick in half-percent units: `prev >= target ? target : prev + 0.5`. */
  function TickProgress(prev: nat, target: nat): (r: nat)
    ensures prev < target ==> r == prev + 1
    ensures prev >= target ==> r == target
    ensures prev <= target ==> prev <= r <= target
  {
    if prev >= target then target else prev + 1
  }

  function Ticks(prev: nat, target: nat, n: nat): nat
    decreases n
  {
    if n == 0 then prev else Ticks(TickProgress(prev, target), target, n - 1)
  }

  /** From any point up to the target, n ticks advance n half-percents but never beyond the
      target. */
  lemma {:induction false} TicksReachTarget(prev: nat, target: nat, n: nat)
    requires prev <= target
    ensures Ticks(prev, target, n) == if prev + n < target then prev + n else target
    decreases n
  {
    if n > 0 {
      TicksReachTarget(TickProgress(prev, target), target, n - 1);
    }
  }

  /** Ticks never move progress backwards and never past the target. */
  lemma {:induction false} TicksMonotone(prev: nat, target: nat, m: nat, n: nat)
    requires prev <= target && m <= n
    ensures prev <= Ticks(prev, target, m) <= Ticks(prev, target, n) <= target
  {
    TicksReachTarget(prev, target, m);
    TicksReachTarget(prev, target, n);
  }

  /** The target of a project in half-percent units. */
  function TargetHalves(i: nat): nat
    requires i < ProjectCount
  {
    2 * Projects[i].progress
  }

  // ================================================================ time display

  /** `formatTime`: minutes, a colon, and the seconds padded to two digits. */
  function FormatTime(seconds: nat): (t: string)
  {
    NatToString(seconds / 60) + ":" + PadStart2(NatToString(seconds % 60))
  }

  /** The displayed time reads back as the seconds it shows: the part before the colon is
      the minute numeral, the part after it two digits below 60. */
  lemma FormatTimeReadsBack(seconds: nat)
    ensures var t := FormatTime(seconds); var k := |t| - 3;
      && |t| >= 4 && t[k] == ':' && ':' !in t[..k]
      && IsCanonicalNumeral(t[..k]) && AllDigits(t[k + 1..])
      && ParseDigits(t[k + 1..]) < 60
      && ParseDigits(t[..k]) * 60 + ParseDigits(t[k + 1..]) == seconds
  {
    var m := NatToString(seconds / 60);
    var sec := PadStart2(NatToString(seconds % 60));
    TwoDigitField(seconds % 60);
    ParseNatToString(seconds / 60);
    var t := FormatTime(seconds);
    assert t == m + ":" + sec;
    assert t[..|m|] == m && t[|m| + 1..] == sec;
    assert forall i :: 0 <= i < |m| ==> IsDigit(m[i]);
  }

  /** The padded seconds field is two digits that read back as the value. */
  lemma TwoDigitField(x: nat)
    requires x < 60
    ensures var f := PadStart2(NatToString(x)); |f| == 2 && AllDigits(f) && ParseDigits(f) == x
  {
    var s := NatToString(x);
    ParseNatToString(x);
    if x < 10 {
      var f := PadStart2(s);
      assert f == ['0', s[0]];
      assert f[..1] == ['0'] && ParseDigits(['0']) == 0;
    } else {
      assert NatToString(x / 10) == [DigitChar(x / 10)];
    }
  }

  /** `Math.floor(currentProgress * 60 / 100)` with progress given in half-percents. */
  function ElapsedSeconds(halves: nat): (s: nat)
    ensures 10 * s <= 3 * halves < 10 * s + 10
  {
    (3 * halves) / 10
  }

  /** `Math.floor(project.progress * 60 / 100)` */
  function TotalSeconds(progress: nat): (s: nat)
    ensures 100 * s <= 60 * progress < 100 * s + 100
  {
    (60 * progress) / 100
  }

  /** The elapsed time never passes the total shown beside it. */
  lemma ElapsedWithinTotal(halves: nat, progress: nat)
    requires halves <= 2 * progress
    ensures ElapsedSeconds(halves) <= TotalSeconds(progress)
  {
  }

  // ================================================================ the component

  class Player {
    var isPlaying: bool
    var progressHalves: nat
    var currentProjectIndex: nat
    var showQueue: bool
    var isMinimized: bool

    /** The index names a project and the progress is within its target. */
    predicate Valid()
      reads this
    {
      currentProjectIndex < ProjectCount && progressHalves <= TargetHalves(currentProjectIndex)
    }

    constructor ()
      ensures Valid()
      ensures isPlaying && progressHalves == 0 && currentProjectIndex == 0 && !showQueue && !isMinimized
    {
      isPlaying := true;
      progressHalves := 0;
      currentProjectIndex := 0;
      showQueue := false;
      isMinimized := false;
    }

    method HandleNext()
      requires Valid()
      modifies this
      ensures Valid()
      ensures currentProjectIndex == NextIndex(old(currentProjectIndex)) && progressHalves == 0
      ensures isPlaying == old(isPlaying) && showQueue == old(showQueue) && isMinimized == old(isMinimized)
    {
      currentProjectIndex := (currentProjectIndex + 1) % ProjectCount;
      progressHalves := 0;
    }

    method HandlePrevious()
      requires Valid()
      modifies this
      ensures Valid()
      ensures currentProjectIndex == PreviousIndex(old(currentProjectIndex)) && progressHalves == 0
      ensures isPlaying == old(isPlaying) && showQueue == old(showQueue) && isMinimized == old(isMinimized)
    {
      currentProjectIndex := (currentProjectIndex + ProjectCount - 1) % ProjectCount;
      progressHalves := 0;
    }

    /** The interval fires; it only runs while playing. */
    method Tick()
      requires Valid()
      modifies this
      ensures Valid()
      ensures isPlaying ==> progressHalves == TickProgress(old(progressHalves), TargetHalves(currentProjectIndex))
      ensures !isPlaying ==> progressHalves == old(progressHalves)
      ensures old(progressHalves) <= progressHalves
      ensures currentProjectIndex == old(currentProjectIndex) && isPlaying == old(isPlaying)
      ensures showQueue == old(showQueue) && isMinimized == old(isMinimized)
    {
      if isPlaying {
        var target := TargetHalves(currentProjectIndex);
        if progressHalves >= target {
          progressHalves := target;
        } else {
          progressHalves := progressHalves + 1;
        }
      }
    }

    /** A click on queue item `k`: its project becomes current from the start, and the queue
        closes. */
    method ClickQueueItem(k: nat)
      requires Valid() && k < ProjectCount - 1
      modifies this
      ensures Valid()
      ensures Projects[currentProjectIndex] == Queue(old(currentProjectIndex))[k]
      ensures currentProjectIndex != old(currentProjectIndex)
      ensures progressHalves == 0 && !showQueue
      ensures isPlaying == old(isPlaying) && isMinimized == old(isMinimized)
    {
      currentProjectIndex := QueueTarget(currentProjectIndex, k);
      progressHalves := 0;
      showQueue := false;
    }

    method TogglePlaying()
      modifies this
      ensures isPlaying == !old(isPlaying)
      ensures progressHalves == old(progressHalves) && currentProjectIndex == old(currentProjectIndex)
      ensures showQueue == old(showQueue) && isMinimized == old(isMinimized)
    {
      isPlaying := !isPlaying;
    }

    method ToggleQueue()
      modifies this
      ensures showQueue == !old(showQueue)
      ensures isPlaying == old(isPlaying) && progressHalves == old(progressHalves)
      ensures currentProjectIndex == old(currentProjectIndex) && isMinimized == old(isMinimized)
    {
      showQueue := !showQueue;
    }

    method ToggleMinimized()
      modifies this
      ensures isMinimized == !old(isMinimized)
      ensures isPlaying == old(isPlaying) && progressHalves == old(progressHalves)
      ensures currentProjectIndex == old(currentProjectIndex) && showQueue == old(showQueue)
    {
      isMinimized := !isMinimized;
    }
  }
}
