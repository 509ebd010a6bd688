/** The tab domain of the code-editor theme: a closed set of three view kinds, a tab that
    carries its kind, and the queries the tab bar asks of the list of open tabs. */
module Tabs {

  datatype TabType = Internships | Projects | Blog

  datatype Tab = Tab(tabType: TabType)

  /** The universe of tab kinds, in the canonical order the "add tab" menu shows. */
  const AllTabTypes: seq<TabType> := [Internships, Projects, Blog]

  /** Position of a kind in `AllTabTypes`. */
  function Rank(t: TabType): (k: nat)
    ensures k < |AllTabTypes| && AllTabTypes[k] == t
  {
    match t
    case Internships => 0
    case Projects => 1
    case Blog => 2
  }

  /** Kinds listed in strictly increasing canonical order (hence without repetition). */
  predicate InCanonicalOrder(ts: seq<TabType>) {
    forall i, j :: 0 <= i < j < |ts| ==> Rank(ts[i]) < Rank(ts[j])
  }

  function CreateTab(t: TabType): (tab: Tab)
    ensures tab.tabType == t
  {
    Tab(t)
  }

  /** `tabs.some(tab => tab.type === t)`. */
  function IsTabOpen(tabs: seq<Tab>, t: TabType): (b: bool)
    ensures b <==> exists i :: 0 <= i < |tabs| && tabs[i].tabType == t
  {
    if tabs == [] then false
    else if tabs[0].tabType == t then true
    else
      assert forall i :: 1 <= i < |tabs| ==> tabs[i] == tabs[1..][i - 1];
      IsTabOpen(tabs[1..], t)
  }

  /** The kinds of the open tabs, as a set. */
  function OpenTypes(tabs: seq<Tab>): set<TabType> {
    set i | 0 <= i < |tabs| :: tabs[i].tabType
  }

  /** `types.filter(t => !isTabOpen(tabs, t))`. */
  function FilterUnopened(types: seq<TabType>, tabs: seq<Tab>): (r: seq<TabType>)
    ensures forall t :: t in r <==> t in types && !IsTabOpen(tabs, t)
    ensures |r| <= |types|
    ensures InCanonicalOrder(types) ==> InCanonicalOrder(r)
  {
    if types == [] then []
    else
      var rest := FilterUnopened(types[1..], tabs);
      assert forall t :: t in types <==> t == types[0] || t in types[1..];
      assert InCanonicalOrder(types) ==> InCanonicalOrder(types[1..]);
      assert InCanonicalOrder(types) ==> forall k :: 0 <= k < |rest| ==> Rank(types[0]) < Rank(rest[k]) by {
        if InCanonicalOrder(types) { HeadBelowRest(types, rest); }
      }
      if IsTabOpen(tabs, types[0]) then rest else [types[0]] + rest
  }

  /** In a canonically ordered list, the head ranks below everything drawn from the tail. */
  lemma HeadBelowRest(types: seq<TabType>, rest: seq<TabType>)
    requires types != [] && InCanonicalOrder(types)
    requires forall t :: t in rest ==> t in types[1..]
    ensures forall k :: 0 <= k < |rest| ==> Rank(types[0]) < Rank(rest[k])
  {
    forall k | 0 <= k < |rest| ensures Rank(types[0]) < Rank(rest[k]) {
      assert rest[k] in types[1..];
      var j :| 0 <= j < |types[1..]| && types[1..][j] == rest[k];
      assert types[j + 1] == rest[k];
    }
  }

  /** The kinds not yet open, in canonical order. */
  function GetUnopenedTabTypes(tabs: seq<Tab>): (r: seq<TabType>)
    ensures forall t :: t in r <==> !IsTabOpen(tabs, t)
    ensures InCanonicalOrder(r)
    ensures forall i, j :: 0 <= i < j < |r| ==> r[i] != r[j]
    ensures |r| <= |AllTabTypes|
  {
    assert forall t :: t in AllTabTypes by {
      forall t ensures t in AllTabTypes { assert AllTabTypes[Rank(t)] == t; }
    }
    FilterUnopened(AllTabTypes, tabs)
  }

  /** The unopened kinds and the open kinds split the universe: disjoint, and together all of
      `AllTabTypes`. */
  lemma UnopenedPartitionsUniverse(tabs: seq<Tab>)
    ensures (set t | t in GetUnopenedTabTypes(tabs)) !! OpenTypes(tabs)
    ensures (set t | t in GetUnopenedTabTypes(tabs)) + OpenTypes(tabs) == set t | t in AllTabTypes
  {
    var u := GetUnopenedTabTypes(tabs);
    forall t ensures t in OpenTypes(tabs) <==> IsTabOpen(tabs, t) {
      if IsTabOpen(tabs, t) {
        var i :| 0 <= i < |tabs| && tabs[i].tabType == t;
        assert t in OpenTypes(tabs);
      }
    }
    assert forall t :: t in AllTabTypes by {
      forall t ensures t in AllTabTypes { assert AllTabTypes[Rank(t)] == t; }
    }
  }

  /** With no tab open, every kind is offered, in canonical order. */
  lemma UnopenedOfNoTabs()
    ensures GetUnopenedTabTypes([]) == AllTabTypes
  {
    FilterKeepsUnopened(AllTabTypes, []);
  }

  /** When none of the listed kinds is open, the filter keeps the list as it is. */
  lemma {:induction false} FilterKeepsUnopened(types: seq<TabType>, tabs: seq<Tab>)
    requires forall i :: 0 <= i < |types| ==> !IsTabOpen(tabs, types[i])
    ensures FilterUnopened(types, tabs) == types
  {
    if types != [] {
      FilterKeepsUnopened(types[1..], tabs);
    }
  }

  /** With all three kinds open, nothing is offered. */
  lemma UnopenedWhenAllOpen(tabs: seq<Tab>)
    requires IsTabOpen(tabs, Internships) && IsTabOpen(tabs, Projects) && IsTabOpen(tabs, Blog)
    ensures GetUnopenedTabTypes(tabs) == []
  {
    var r := GetUnopenedTabTypes(tabs);
    if r != [] {
      assert r[0] in r;
      assert !IsTabOpen(tabs, r[0]);
      match r[0]
      case Internships =>
      case Projects =>
      case Blog =>
    }
  }
}
