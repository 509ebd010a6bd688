/** The tab store of the code-editor theme: the ordered list of open tabs and the active
    kind (None stands for the home view). `TabState` with `Open`, `Close` and `SetActive` is
    the abstract behaviour; the class `TabStore` is the store itself, whose methods overwrite
    its two fields as the source's `set` calls do. */
module TabStore {
  import opened Wrappers
  import opened Tabs

  datatype TabState = TabState(tabs: seq<Tab>, activeTab: Option<TabType>)

  predicate NoDuplicateTypes(tabs: seq<Tab>) {
    forall i, j :: 0 <= i < j < |tabs| ==> tabs[i].tabType != tabs[j].tabType
  }

  /** The store's invariant: tabs are unique by kind and the active kind, if any, is open. */
  predicate Valid(s: TabState) {
    NoDuplicateTypes(s.tabs) && (s.activeTab.Some? ==> IsTabOpen(s.tabs, s.activeTab.value))
  }

  const Initial: TabState := TabState([], None)

  /** `tabs.filter(x => x.type !== t)`. */
  function RemoveType(tabs: seq<Tab>, t: TabType): (r: seq<Tab>)
    ensures forall x :: x in r <==> x in tabs && x.tabType != t
    ensures |r| <= |tabs|
    ensures !IsTabOpen(tabs, t) ==> r == tabs
    ensures NoDuplicateTypes(tabs) ==> NoDuplicateTypes(r)
  {
    if tabs == [] then []
    else
      var rest := RemoveType(tabs[1..], t);
      assert forall x :: x in tabs <==> x == tabs[0] || x in tabs[1..];
      assert !IsTabOpen(tabs, t) ==> !IsTabOpen(tabs[1..], t) by {
        if !IsTabOpen(tabs, t) { NotOpenInTail(tabs, t); }
      }
      assert NoDuplicateTypes(tabs) ==>
          (NoDuplicateTypes(tabs[1..]) && forall k :: 0 <= k < |rest| ==> rest[k].tabType != tabs[0].tabType) by {
        if NoDuplicateTypes(tabs) {
          NoDuplicateTypesTail(tabs);
          KindsFromTailDiffer(tabs, rest);
        }
      }
      if tabs[0].tabType != t then [tabs[0]] + rest else rest
  }

  /** `tabs.findIndex(x => x.type === t)`. */
  function FindIndex(tabs: seq<Tab>, t: TabType): (k: int)
    ensures -1 <= k < |tabs|
    ensures k == -1 <==> !IsTabOpen(tabs, t)
    ensures k >= 0 ==> tabs[k].tabType == t && forall j :: 0 <= j < k ==> tabs[j].tabType != t
  {
    if tabs == [] then -1
    else if tabs[0].tabType == t then 0
    else
      var k := FindIndex(tabs[1..], t);
      assert IsTabOpen(tabs, t) <==> IsTabOpen(tabs[1..], t) by {
        if IsTabOpen(tabs, t) {
          var i :| 0 <= i < |tabs| && tabs[i].tabType == t;
          assert tabs[1..][i - 1].tabType == t;
        }
        if IsTabOpen(tabs[1..], t) {
          var i :| 0 <= i < |tabs[1..]| && tabs[1..][i].tabType == t;
          assert tabs[i + 1].tabType == t;
        }
      }
      if k == -1 then -1 else k + 1
  }

  lemma NotOpenInTail(tabs: seq<Tab>, t: TabType)
    requires tabs != [] && !IsTabOpen(tabs, t)
    ensures !IsTabOpen(tabs[1..], t)
  {
    forall i | 0 <= i < |tabs[1..]| ensures tabs[1..][i].tabType != t {
      assert tabs[1..][i] == tabs[i + 1];
    }
  }

  lemma KindsFromTailDiffer(tabs: seq<Tab>, rest: seq<Tab>)
    requires tabs != [] && !IsTabOpen(tabs[1..], tabs[0].tabType)
    requires forall x :: x in rest ==> x in tabs[1..]
    ensures forall k :: 0 <= k < |rest| ==> rest[k].tabType != tabs[0].tabType
  {
    forall k | 0 <= k < |rest| ensures rest[k].tabType != tabs[0].tabType {
      assert rest[k] in tabs[1..];
      var j :| 0 <= j < |tabs[1..]| && tabs[1..][j] == rest[k];
    }
  }

  lemma NoDuplicateTypesTail(tabs: seq<Tab>)
    requires tabs != [] && NoDuplicateTypes(tabs)
    ensures NoDuplicateTypes(tabs[1..]) && !IsTabOpen(tabs[1..], tabs[0].tabType)
  {
    forall i, j | 0 <= i < j < |tabs[1..]| ensures tabs[1..][i].tabType != tabs[1..][j].tabType {
      assert tabs[1..][i] == tabs[i + 1] && tabs[1..][j] == tabs[j + 1];
    }
    forall i | 0 <= i < |tabs[1..]| ensures tabs[1..][i].tabType != tabs[0].tabType {
      assert tabs[1..][i] == tabs[i + 1];
    }
  }

  /** In a list without duplicate kinds, removing kind `t` cuts out exactly the one tab at
      `FindIndex(tabs, t)` and keeps the rest in order. */
  lemma {:induction false} RemoveTypeCutsOne(tabs: seq<Tab>, t: TabType)
    requires NoDuplicateTypes(tabs) && IsTabOpen(tabs, t)
    ensures var k := FindIndex(tabs, t); RemoveType(tabs, t) == tabs[..k] + tabs[k + 1..]
  {
    var k := FindIndex(tabs, t);
    NoDuplicateTypesTail(tabs);
    RemoveTypeUnfold(tabs, t);
    if k == 0 {
      assert tabs[..0] + tabs[1..] == tabs[1..];
    } else {
      assert FindIndex(tabs[1..], t) == k - 1;
      RemoveTypeCutsOne(tabs[1..], t);
      CutAfterHead(tabs, k);
    }
  }

  lemma CutAfterHead<T>(s: seq<T>, k: nat)
    requires 0 < k < |s|
    ensures s[..k] + s[k + 1..] == [s[0]] + (s[1..][..k - 1] + s[1..][k..])
  {
    assert s[..k] == [s[0]] + s[1..][..k - 1];
    assert s[k + 1..] == s[1..][k..];
  }

  /** The filter works piecewise: the kept tabs of `a + b` are those of `a` followed by those
      of `b`, so the tabs that remain keep their relative order. */
  lemma {:induction false} RemoveTypeAppend(a: seq<Tab>, b: seq<Tab>, t: TabType)
    ensures RemoveType(a + b, t) == RemoveType(a, t) + RemoveType(b, t)
  {
    if a == [] {
      assert a + b == b;
    } else {
      var h: seq<Tab> := if a[0].tabType != t then [a[0]] else [];
      var ra := RemoveType(a[1..], t);
      var rb := RemoveType(b, t);
      assert (a + b)[0] == a[0] && (a + b)[1..] == a[1..] + b;
      RemoveTypeAppend(a[1..], b, t);
      AppendAssoc(h, ra, rb);
    }
  }

  /** Associativity at the three given sequences: a call puts exactly this instance in front
      of the solver, which the filter proofs need to stay small. */
  lemma AppendAssoc<T>(x: seq<T>, y: seq<T>, z: seq<T>)
    ensures x + (y + z) == (x + y) + z
  {
  }

  /** One step of the filter: the head is kept exactly when its kind differs. */
  lemma RemoveTypeUnfold(tabs: seq<Tab>, t: TabType)
    requires tabs != []
    ensures RemoveType(tabs, t) == (if tabs[0].tabType != t then [tabs[0]] else []) + RemoveType(tabs[1..], t)
  {
  }

  /** `openTab`: an open kind is only activated; a new kind is appended and activated. */
  function Open(s: TabState, t: TabType): (r: TabState)
    ensures r.activeTab == Some(t) && IsTabOpen(r.tabs, t)
    ensures IsTabOpen(s.tabs, t) ==> r.tabs == s.tabs
    ensures !IsTabOpen(s.tabs, t) ==> r.tabs == s.tabs + [CreateTab(t)]
    ensures Valid(s) ==> Valid(r)
  {
    if IsTabOpen(s.tabs, t) then TabState(s.tabs, Some(t))
    else
      var tabs' := s.tabs + [CreateTab(t)];
      assert tabs'[|s.tabs|].tabType == t;
      assert forall i :: 0 <= i < |s.tabs| ==> tabs'[i] == s.tabs[i];
      TabState(tabs', Some(t))
  }

  /** The index of the tab that becomes active when the active tab, at `closedIndex`, is
      closed: `Math.min(closedIndex, newLength - 1)`. */
  function ClampedIndex(closedIndex: int, newLength: nat): int {
    if closedIndex < newLength - 1 then closedIndex else newLength - 1
  }

  /** `closeTab`: drops the tabs of kind `t`; when `t` was active, the tab found at
      `ClampedIndex` in the shortened list becomes active (None when there is none). */
  function Close(s: TabState, t: TabType): (r: TabState)
    ensures forall x :: x in r.tabs <==> x in s.tabs && x.tabType != t
    ensures !IsTabOpen(s.tabs, t) ==> r.tabs == s.tabs
    ensures s.activeTab != Some(t) ==> r.activeTab == s.activeTab
  {
    var newTabs := RemoveType(s.tabs, t);
    if s.activeTab == Some(t) then
      var i := ClampedIndex(FindIndex(s.tabs, t), |newTabs|);
      var next := if 0 <= i < |newTabs| then Some(newTabs[i].tabType) else None;
      TabState(newTabs, next)
    else
      TabState(newTabs, s.activeTab)
  }

  /** Closing the active tab at position k of a valid store removes exactly that tab and
      activates the tab now at position min(k, n - 1) of the n remaining ones, or the home
      view when none remain. */
  lemma CloseActive(s: TabState, t: TabType)
    requires Valid(s) && s.activeTab == Some(t)
    ensures var k := FindIndex(s.tabs, t); var r := Close(s, t);
      && 0 <= k < |s.tabs|
      && r.tabs == s.tabs[..k] + s.tabs[k + 1..]
      && (r.tabs == [] ==> r.activeTab == None)
      && (r.tabs != [] ==> r.activeTab == Some(r.tabs[if k < |r.tabs| - 1 then k else |r.tabs| - 1].tabType))
  {
    var k := FindIndex(s.tabs, t);
    RemoveTypeCutsOne(s.tabs, t);
    var newTabs := RemoveType(s.tabs, t);
    assert |newTabs| == |s.tabs| - 1;
    var i := ClampedIndex(k, |newTabs|);
    assert Close(s, t).activeTab == if 0 <= i < |newTabs| then Some(newTabs[i].tabType) else None;
  }

  /** Closing a tab keeps the store's invariant, and the closed kind is no longer open. */
  lemma CloseValid(s: TabState, t: TabType)
    requires Valid(s)
    ensures Valid(Close(s, t)) && !IsTabOpen(Close(s, t).tabs, t)
  {
    var r := Close(s, t);
    var newTabs := RemoveType(s.tabs, t);
    forall i | 0 <= i < |newTabs| ensures newTabs[i].tabType != t {
      assert newTabs[i] in newTabs;
    }
    if s.activeTab == Some(t) {
      if newTabs != [] {
        CloseActive(s, t);
        var i := ClampedIndex(FindIndex(s.tabs, t), |newTabs|);
        assert newTabs[i].tabType == r.activeTab.value;
      }
    } else if s.activeTab.Some? {
      var i :| 0 <= i < |s.tabs| && s.tabs[i].tabType == s.activeTab.value;
      assert s.tabs[i] in newTabs;
      var j :| 0 <= j < |newTabs| && newTabs[j] == s.tabs[i];
    }
  }

  /** `setActiveTab`: takes effect only for an open kind. */
  function SetActive(s: TabState, t: TabType): (r: TabState)
    ensures !IsTabOpen(s.tabs, t) ==> r == s
    ensures IsTabOpen(s.tabs, t) ==> r.tabs == s.tabs && r.activeTab == Some(t)
    ensures Valid(s) ==> Valid(r)
  {
    if IsTabOpen(s.tabs, t) then TabState(s.tabs, Some(t)) else s
  }

  /** Opening the same kind twice is the same as opening it once. */
  lemma OpenIdempotent(s: TabState, t: TabType)
    ensures Open(Open(s, t), t) == Open(s, t)
  {
  }

  datatype TabOp = OpenOp(t: TabType) | CloseOp(t: TabType) | SetActiveOp(t: TabType)

  function Step(s: TabState, op: TabOp): TabState {
    match op
    case OpenOp(t) => Open(s, t)
    case CloseOp(t) => Close(s, t)
    case SetActiveOp(t) => SetActive(s, t)
  }

  function Run(s: TabState, ops: seq<TabOp>): TabState
    decreases |ops|
  {
    if ops == [] then s else Run(Step(s, ops[0]), ops[1..])
  }

  /** From the empty store, any sequence of operations leaves the tabs unique by kind and the
      active kind open. */
  lemma {:induction false} RunPreservesValid(s: TabState, ops: seq<TabOp>)
    requires Valid(s)
    ensures Valid(Run(s, ops))
    decreases |ops|
  {
    if ops != [] {
      if ops[0].CloseOp? {
        CloseValid(s, ops[0].t);
      }
      RunPreservesValid(Step(s, ops[0]), ops[1..]);
    }
  }

  /** Open "projects", open "internships", close "projects": only "internships" is left, and it
      stays active because the closed tab was not. */
  lemma ScenarioCloseInactive()
    ensures Run(Initial, [OpenOp(Projects), OpenOp(Internships), CloseOp(Projects)])
         == TabState([Tab(Internships)], Some(Internships))
  {
    var s1 := Open(Initial, Projects);
    assert s1 == TabState([Tab(Projects)], Some(Projects));
    var s2 := Open(s1, Internships);
    assert s2 == TabState([Tab(Projects), Tab(Internships)], Some(Internships));
    assert RemoveType(s2.tabs, Projects) == [Tab(Internships)];
    var ops := [OpenOp(Projects), OpenOp(Internships), CloseOp(Projects)];
    assert Run(Initial, ops) == Run(s1, ops[1..]);
    assert ops[1..][1..] == [CloseOp(Projects)];
  }

  /** Open only "blog" and close it: no tabs remain and the home view is shown. */
  lemma ScenarioCloseLast()
    ensures Run(Initial, [OpenOp(Blog), CloseOp(Blog)]) == TabState([], None)
  {
    var s1 := Open(Initial, Blog);
    assert s1 == TabState([Tab(Blog)], Some(Blog));
    var ops := [OpenOp(Blog), CloseOp(Blog)];
    assert Run(Initial, ops) == Run(s1, ops[1..]);
    assert ops[1..][1..] == [];
  }

  /** The store. Each method reads both fields and overwrites them as one `set` does. */
  class TabStore {
    var tabs: seq<Tab>
    var activeTab: Option<TabType>

    function State(): TabState
      reads this
    {
      TabState(tabs, activeTab)
    }

    constructor ()
      ensures State() == Initial
    {
      tabs := [];
      activeTab := None;
    }

    method OpenTab(t: TabType)
      modifies this
      ensures State() == Open(old(State()), t)
    {
      if IsTabOpen(tabs, t) {
        activeTab := Some(t);
        return;
      }
      tabs, activeTab := tabs + [CreateTab(t)], Some(t);
    }

    method CloseTab(t: TabType)
      modifies this
      ensures State() == Close(old(State()), t)
    {
      var newTabs := RemoveType(tabs, t);
      if activeTab == Some(t) {
        var closedIndex := FindIndex(tabs, t);
        var i := ClampedIndex(closedIndex, |newTabs|);
        var nextTab: Option<Tab> := if 0 <= i < |newTabs| then Some(newTabs[i]) else None;
        tabs, activeTab := newTabs, if nextTab.Some? then Some(nextTab.value.tabType) else None;
      } else {
        tabs := newTabs;
      }
    }

    method SetActiveTab(t: TabType)
      modifies this
      ensures State() == SetActive(old(State()), t)
    {
      if IsTabOpen(tabs, t) {
        activeTab := Some(t);
      }
    }
  }
}
