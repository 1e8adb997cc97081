/** `MergeGroups`: reconciling the stored group table with freshly loaded
    action definitions. The first pass refreshes actions known in both tables,
    appends new ones and adds new groups; the second pass drops the groups and
    actions that the new table no longer has. */
module Merge {
  import opened Wrappers
  import opened Data
  import opened Utils

  // ---------------------------------------------------------------------
  // Specification

  /** The last action of `s` called `name`, if any. */
  function LastNamed(s: seq<ActionData>, name: string): (r: Option<ActionData>)
    ensures r.Some? ==> r.value in s && r.value.action == name
    ensures r.None? <==> name !in Names(s)
  {
    if s == [] then None
    else if s[|s| - 1].action == name then Some(s[|s| - 1])
    else
      assert s == s[..|s| - 1] + [s[|s| - 1]];
      LastNamed(s[..|s| - 1], name)
  }

  /** The entries of `news` whose name the old list does not have, in order,
      repeats included. */
  function Added(olds: seq<ActionData>, news: seq<ActionData>): (r: seq<ActionData>)
    ensures forall a :: a in r ==> a in news && a.action !in Names(olds)
  {
    if news == [] then []
    else
      var last := news[|news| - 1];
      Added(olds, news[..|news| - 1]) + (if last.action in Names(olds) then [] else [last])
  }

  /** The entries of `s` whose name is one of `names`, in order. */
  function KeepNamed(s: seq<ActionData>, names: set<string>): (r: seq<ActionData>)
    ensures forall a :: a in r ==> a in s && a.action in names
  {
    if s == [] then []
    else
      var last := s[|s| - 1];
      KeepNamed(s[..|s| - 1], names) + (if last.action in names then [last] else [])
  }

  /** Entry `i` of the old list after the first pass: the first old action of
      each name takes the definition of the last new action of that name. */
  function RefreshAt(olds: seq<ActionData>, news: seq<ActionData>, i: nat): ActionData
    requires i < |olds|
  {
    match LastNamed(news, olds[i].action)
    case Some(n) => if FirstNamed(olds, olds[i].action) == Some(i) then UpdateAction(olds[i], n) else olds[i]
    case None => olds[i]
  }

  /** The old list after the first pass, without the appended actions. */
  function Refresh(olds: seq<ActionData>, news: seq<ActionData>): (r: seq<ActionData>)
    ensures |r| == |olds|
    ensures forall i :: 0 <= i < |olds| ==> r[i] == RefreshAt(olds, news, i)
  {
    seq(|olds|, i requires 0 <= i < |olds| => RefreshAt(olds, news, i))
  }

  /** A group present in both tables after the first pass: the old actions,
      refreshed, then the new actions the old list lacks. */
  function GroupFirstPass(olds: seq<ActionData>, news: seq<ActionData>): seq<ActionData> {
    Refresh(olds, news) + Added(olds, news)
  }

  /** Group `g` after the first pass. */
  function FirstPass(oldGroups: Groups, newGroups: Groups, g: string): seq<ActionData>
    requires g in newGroups
  {
    if g in oldGroups then GroupFirstPass(oldGroups[g], newGroups[g]) else newGroups[g]
  }

  /** The table after the first pass: every group of the new table as the
      first pass leaves it, the other old groups untouched. */
  function AfterFirstPass(oldGroups: Groups, newGroups: Groups): (r: Groups)
    ensures r.Keys == oldGroups.Keys + newGroups.Keys
  {
    map g | g in oldGroups.Keys + newGroups.Keys ::
      if g in newGroups then FirstPass(oldGroups, newGroups, g) else oldGroups[g]
  }

  /** The second pass: the groups the new table has, each without the actions
      the new group does not name. */
  function Pruned(table: Groups, newGroups: Groups): Groups {
    map g | g in table && g in newGroups :: KeepNamed(table[g], Names(newGroups[g]))
  }

  /** The merged table. */
  function Merged(oldGroups: Groups, newGroups: Groups): Groups {
    Pruned(AfterFirstPass(oldGroups, newGroups), newGroups)
  }

  // ---------------------------------------------------------------------
  // Steps of the first pass

  lemma {:induction false} LastNamedSnoc(s: seq<ActionData>, a: ActionData, name: string)
    ensures LastNamed(s + [a], name) == if a.action == name then Some(a) else LastNamed(s, name)
  {
    assert (s + [a])[..|s + [a]| - 1] == s;
  }

  lemma {:induction false} AddedSnoc(olds: seq<ActionData>, news: seq<ActionData>, a: ActionData)
    ensures Added(olds, news + [a]) == Added(olds, news) + (if a.action in Names(olds) then [] else [a])
  {
    assert (news + [a])[..|news + [a]| - 1] == news;
  }

  lemma {:induction false} KeepNamedSnoc(s: seq<ActionData>, a: ActionData, names: set<string>)
    ensures KeepNamed(s + [a], names) == KeepNamed(s, names) + (if a.action in names then [a] else [])
  {
    assert (s + [a])[..|s + [a]| - 1] == s;
  }

  /** A new action whose name the old list has refreshes the first old action
      of that name and adds nothing. */
  lemma {:induction false} StepFound(olds: seq<ActionData>, news: seq<ActionData>, a: ActionData, i: nat)
    requires FirstNamed(olds, a.action) == Some(i)
    ensures Refresh(olds, news + [a]) == Refresh(olds, news)[i := UpdateAction(olds[i], a)]
    ensures Added(olds, news + [a]) == Added(olds, news)
  {
    forall k | 0 <= k < |olds|
      ensures RefreshAt(olds, news + [a], k) == Refresh(olds, news)[i := UpdateAction(olds[i], a)][k]
    {
      LastNamedSnoc(news, a, olds[k].action);
    }
    AddedSnoc(olds, news, a);
  }

  /** A new action whose name the old list lacks is appended and refreshes
      nothing. */
  lemma {:induction false} StepNotFound(olds: seq<ActionData>, news: seq<ActionData>, a: ActionData)
    requires a.action !in Names(olds)
    ensures Refresh(olds, news + [a]) == Refresh(olds, news)
    ensures Added(olds, news + [a]) == Added(olds, news) + [a]
  {
    forall k | 0 <= k < |olds|
      ensures RefreshAt(olds, news + [a], k) == RefreshAt(olds, news, k)
    {
      LastNamedSnoc(news, a, olds[k].action);
    }
    AddedSnoc(olds, news, a);
  }

  /** Overwriting an entry of the front part of a concatenation. */
  lemma UpdateFront<T>(front: seq<T>, back: seq<T>, i: nat, x: T)
    requires i < |front|
    ensures (front + back)[i := x] == front[i := x] + back
  {
  }

  lemma RefreshNone(olds: seq<ActionData>)
    ensures Refresh(olds, []) == olds
  {
  }

  // ---------------------------------------------------------------------
  // The method

  /** The search of the first pass: the first old action with the name. */
  method FindOld(olds: seq<ActionData>, name: string) returns (found: bool, i: nat)
    ensures found <==> FirstNamed(olds, name).Some?
    ensures found ==> FirstNamed(olds, name) == Some(i)
  {
    i := 0;
    while i < |olds|
      invariant 0 <= i <= |olds|
      invariant forall k :: 0 <= k < i ==> olds[k].action != name
    {
      if olds[i].action == name {
        FirstNamedAt(olds, name, i);
        return true, i;
      }
      i := i + 1;
    }
    assert name !in Names(olds);
    return false, 0;
  }

  /** One new action of the first pass: it refreshes the first old action
      of its name, or is appended when there is none. */
  method MergeStep(olds: seq<ActionData>, done: seq<ActionData>, newAction: ActionData, group: seq<ActionData>)
    returns (updated: seq<ActionData>)
    requires group == GroupFirstPass(olds, done)
    ensures updated == GroupFirstPass(olds, done + [newAction])
  {
    var found, i := FindOld(olds, newAction.action);
    if found {
      StepFound(olds, done, newAction, i);
      UpdateFront(Refresh(olds, done), Added(olds, done), i, UpdateAction(olds[i], newAction));
      updated := group[i := UpdateAction(olds[i], newAction)];
    } else {
      StepNotFound(olds, done, newAction);
      updated := group + [newAction];
    }
  }

  /** The first pass over one group present in both tables: each new action
      refreshes the first old action of its name, or is appended when there
      is none. The search runs over the old list only, so a name repeated in
      the new list but absent from the old one is appended each time. */
  method MergeGroupActions(oldGroupData: seq<ActionData>, newGroupData: seq<ActionData>)
    returns (group: seq<ActionData>)
    ensures group == GroupFirstPass(oldGroupData, newGroupData)
  {
    group := oldGroupData;
    RefreshNone(oldGroupData);
    assert group == GroupFirstPass(oldGroupData, newGroupData[..0]);
    var j := 0;
    while j < |newGroupData|
      invariant 0 <= j <= |newGroupData|
      invariant group == GroupFirstPass(oldGroupData, newGroupData[..j])
    {
      assert newGroupData[..j + 1] == newGroupData[..j] + [newGroupData[j]];
      group := MergeStep(oldGroupData, newGroupData[..j], newGroupData[j], group);
      j := j + 1;
    }
    assert newGroupData[..j] == newGroupData;
  }

  /** The search of the second pass: whether the new group has the name. */
  method Listed(name: string, news: seq<ActionData>) returns (found: bool)
    ensures found <==> name in Names(news)
  {
    var j := 0;
    while j < |news|
      invariant 0 <= j <= |news|
      invariant forall t :: 0 <= t < j ==> news[t].action != name
    {
      if name == news[j].action {
        return true;
      }
      j := j + 1;
    }
    return false;
  }

  /** The second pass over one group the new table has: the old actions whose
      name the new group has, in order. The source also rebuilds and stores
      the group without each unlisted action; the store of the finished list
      after the loop replaces that, so the rebuild is not modelled. */
  method KeepListedActions(oldGroupData: seq<ActionData>, newGroupData: seq<ActionData>)
    returns (updatedActions: seq<ActionData>)
    ensures updatedActions == KeepNamed(oldGroupData, Names(newGroupData))
  {
    updatedActions := [];
    var k := 0;
    while k < |oldGroupData|
      invariant 0 <= k <= |oldGroupData|
      invariant updatedActions == KeepNamed(oldGroupData[..k], Names(newGroupData))
    {
      var oldAction := oldGroupData[k];
      var found := Listed(oldAction.action, newGroupData);
      KeepNamedSnoc(oldGroupData[..k], oldAction, Names(newGroupData));
      assert oldGroupData[..k + 1] == oldGroupData[..k] + [oldAction];
      if found {
        updatedActions := updatedActions + [oldAction];
      }
      k := k + 1;
    }
    assert oldGroupData[..k] == oldGroupData;
  }

  /** The first pass of `MergeGroups` over the whole table. */
  method RefreshGroups(oldGroups: Groups, newGroups: Groups) returns (groups: Groups)
    ensures groups == AfterFirstPass(oldGroups, newGroups)
  {
    groups := oldGroups;
    var pending := newGroups.Keys;
    while pending != {}
      invariant pending <= newGroups.Keys
      invariant forall g :: g in groups <==> g in oldGroups || (g in newGroups && g !in pending)
      invariant forall g :: g in groups && g in newGroups && g !in pending ==>
                  groups[g] == FirstPass(oldGroups, newGroups, g)
      invariant forall g :: g in groups && (g !in newGroups || g in pending) ==> groups[g] == oldGroups[g]
      decreases pending
    {
      var g :| g in pending;
      pending := pending - {g};
      if g in groups {
        var merged := MergeGroupActions(groups[g], newGroups[g]);
        groups := groups[g := merged];
      } else {
        groups := groups[g := newGroups[g]];
      }
    }
    assert groups.Keys == AfterFirstPass(oldGroups, newGroups).Keys;
  }

  /** The second pass of `MergeGroups` over the whole table. */
  method PruneGroups(table: Groups, newGroups: Groups) returns (groups: Groups)
    ensures groups == Pruned(table, newGroups)
  {
    groups := table;
    var pending := table.Keys;
    while pending != {}
      invariant pending <= table.Keys
      invariant forall g :: g in groups <==> g in table && (g in pending || g in newGroups)
      invariant forall g :: g in groups && g in pending ==> groups[g] == table[g]
      invariant forall g :: g in groups && g !in pending ==>
                  groups[g] == KeepNamed(table[g], Names(newGroups[g]))
      decreases pending
    {
      var g :| g in pending;
      pending := pending - {g};
      if g in newGroups {
        var updatedActions := KeepListedActions(groups[g], newGroups[g]);
        groups := groups[g := updatedActions];
      } else {
        groups := groups - {g};
      }
    }
    assert groups.Keys == Pruned(table, newGroups).Keys;
  }

  /** `MergeGroups`: the first pass, then the second. */
  method MergeGroups(oldGroups: Groups, newGroups: Groups) returns (groups: Groups)
    ensures groups == Merged(oldGroups, newGroups)
    ensures groups.Keys == newGroups.Keys
    ensures forall g, a :: g in groups && a in groups[g] ==> a.action in Names(newGroups[g])
  {
    groups := RefreshGroups(oldGroups, newGroups);
    groups := PruneGroups(groups, newGroups);
  }

  // ---------------------------------------------------------------------
  // Properties of the merged table

  lemma {:induction false} KeepNamedAll(s: seq<ActionData>, names: set<string>)
    requires forall i :: 0 <= i < |s| ==> s[i].action in names
    ensures KeepNamed(s, names) == s
    decreases |s|
  {
    if s != [] {
      var init, last := s[..|s| - 1], s[|s| - 1];
      KeepNamedAll(init, names);
      assert last.action in names;
      assert s == init + [last];
      KeepNamedSnoc(init, last, names);
    }
  }

  lemma {:induction false} KeepNamedAppend(s: seq<ActionData>, t: seq<ActionData>, names: set<string>)
    ensures KeepNamed(s + t, names) == KeepNamed(s, names) + KeepNamed(t, names)
    decreases |t|
  {
    if t == [] {
      assert s + t == s;
    } else {
      var init, last := t[..|t| - 1], t[|t| - 1];
      var tail := if last.action in names then [last] else [];
      assert t == init + [last];
      assert s + t == (s + init) + [last];
      calc {
        KeepNamed(s + t, names);
        { KeepNamedSnoc(s + init, last, names); }
        KeepNamed(s + init, names) + tail;
        { KeepNamedAppend(s, init, names); }
        (KeepNamed(s, names) + KeepNamed(init, names)) + tail;
        KeepNamed(s, names) + (KeepNamed(init, names) + tail);
        { KeepNamedSnoc(init, last, names); }
        KeepNamed(s, names) + KeepNamed(t, names);
      }
    }
  }

  lemma {:induction false} KeepNamedKeeps(s: seq<ActionData>, a: ActionData, names: set<string>)
    requires a in s && a.action in names
    ensures a in KeepNamed(s, names)
    decreases |s|
  {
    var init, last := s[..|s| - 1], s[|s| - 1];
    assert s == init + [last];
    KeepNamedSnoc(init, last, names);
    if a != last {
      KeepNamedKeeps(init, a, names);
    }
  }

  /** A group the old table lacks is taken over from the new table as is. */
  lemma MergedNewGroup(oldGroups: Groups, newGroups: Groups, g: string)
    requires g in newGroups && g !in oldGroups
    ensures g in Merged(oldGroups, newGroups)
    ensures Merged(oldGroups, newGroups)[g] == newGroups[g]
  {
    var news := newGroups[g];
    assert forall i :: 0 <= i < |news| ==> news[i] in news;
    KeepNamedAll(news, Names(news));
  }

  /** A group both tables have: its surviving old actions, refreshed, in their
      old order, then the actions only the new group has, in its order. */
  lemma MergedLayout(oldGroups: Groups, newGroups: Groups, g: string)
    requires g in newGroups && g in oldGroups
    ensures g in Merged(oldGroups, newGroups)
    ensures Merged(oldGroups, newGroups)[g] ==
      KeepNamed(Refresh(oldGroups[g], newGroups[g]), Names(newGroups[g])) + Added(oldGroups[g], newGroups[g])
  {
    var added := Added(oldGroups[g], newGroups[g]);
    KeepNamedAppend(Refresh(oldGroups[g], newGroups[g]), added, Names(newGroups[g]));
    assert forall i :: 0 <= i < |added| ==> added[i] in added;
    KeepNamedAll(added, Names(newGroups[g]));
  }

  /** An action both groups name ends up in the merged group as the first
      old action of that name refreshed from the last new one: the new
      definition with the old run state. */
  lemma MergedRefreshed(oldGroups: Groups, newGroups: Groups, g: string, name: string)
    requires g in newGroups && g in oldGroups
    requires name in Names(oldGroups[g]) && name in Names(newGroups[g])
    ensures g in Merged(oldGroups, newGroups)
    ensures FirstNamed(oldGroups[g], name).Some? && LastNamed(newGroups[g], name).Some?
    ensures UpdateAction(oldGroups[g][FirstNamed(oldGroups[g], name).value], LastNamed(newGroups[g], name).value)
            in Merged(oldGroups, newGroups)[g]
  {
    var olds, news := oldGroups[g], newGroups[g];
    var i := FirstNamed(olds, name).value;
    var refreshed := Refresh(olds, news);
    assert refreshed[i] == UpdateAction(olds[i], LastNamed(news, name).value);
    KeepNamedKeeps(refreshed, refreshed[i], Names(news));
    MergedLayout(oldGroups, newGroups, g);
  }

  lemma RefreshAtRunState(olds: seq<ActionData>, news: seq<ActionData>, i: nat)
    requires i < |olds|
    ensures SameRunState(RefreshAt(olds, news, i), olds[i])
  {
  }

  /** Nothing in a merged group is invented: each action is a new one taken
      as is, or carries the run state of an old action of its group. */
  lemma MergedProvenance(oldGroups: Groups, newGroups: Groups, g: string, a: ActionData)
    requires g in Merged(oldGroups, newGroups) && a in Merged(oldGroups, newGroups)[g]
    ensures a in newGroups[g] || (g in oldGroups && exists b :: b in oldGroups[g] && SameRunState(a, b))
  {
    if g in oldGroups {
      var olds, news := oldGroups[g], newGroups[g];
      MergedLayout(oldGroups, newGroups, g);
      var refreshed := Refresh(olds, news);
      var kept := KeepNamed(refreshed, Names(news));
      if a in kept {
        assert a in refreshed;
        var i :| 0 <= i < |refreshed| && refreshed[i] == a;
        RefreshAtRunState(olds, news, i);
        assert olds[i] in olds;
      } else {
        assert a in Added(olds, news);
      }
    } else {
      MergedNewGroup(oldGroups, newGroups, g);
    }
  }

  /** A bound on the run histories of both tables holds for the merged one. */
  lemma MergedHistoryWithin(oldGroups: Groups, newGroups: Groups, limit: nat)
    requires HistoryWithin(oldGroups, limit) && HistoryWithin(newGroups, limit)
    ensures HistoryWithin(Merged(oldGroups, newGroups), limit)
  {
    var merged := Merged(oldGroups, newGroups);
    forall g: string, a: ActionData | g in merged && a in merged[g]
      ensures |a.runHistory| <= limit
    {
      MergedProvenance(oldGroups, newGroups, g, a);
    }
  }
}
