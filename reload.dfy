/** `ReloadActions` of routes/routes.go: freshly loaded action definitions
    get their group and an initial run history, every on-success and
    on-error rule whose target exists is recorded as a `Triggers` link on
    both of its ends, and the result is merged into the stored catalogue.

    The Go code reaches actions through references kept in a per-group index
    from action name to action; here a reference is the action's position
    (group, index) and an index entry is a `Key`. The order in which the
    index is walked is Go's map order, which the code does not fix: it is
    returned as `order`, and every property is stated for whichever order
    was taken. */
module Reload {
  import opened Wrappers
  import opened Data
  import opened Db
  import opened Merge
  import opened Routes

  // ---------------------------------------------------------------------
  // Group and history

  const EmptyRun := RunHistory("", "", "")

  /** The history a never-run action starts with: five empty runs. */
  const InitialRuns: seq<RunHistory> := [EmptyRun, EmptyRun, EmptyRun, EmptyRun, EmptyRun]

  /** An action of group `g` as the first loop of `ReloadActions` leaves it. */
  function Prepare(a: ActionData, g: string): ActionData {
    a.(group := g, runHistory := if a.runHistory == [] then InitialRuns else a.runHistory)
  }

  function PrepareGroup(s: seq<ActionData>, g: string): (r: seq<ActionData>)
    ensures |r| == |s|
    ensures forall i :: 0 <= i < |s| ==> r[i] == Prepare(s[i], g)
  {
    seq(|s|, i requires 0 <= i < |s| => Prepare(s[i], g))
  }

  function Prepared(groups: Groups): (r: Groups)
    ensures r.Keys == groups.Keys
    ensures forall g :: g in groups ==> r[g] == PrepareGroup(groups[g], g)
  {
    map g | g in groups :: PrepareGroup(groups[g], g)
  }

  /** The first loop of `ReloadActions`: every action gets its group's name,
      and an empty history becomes five empty runs. */
  method PrepareGroups(groups: Groups) returns (prepared: Groups)
    ensures prepared == Prepared(groups)
  {
    prepared := map[];
    var rest := groups.Keys;
    while rest != {}
      invariant rest <= groups.Keys
      invariant prepared.Keys == groups.Keys - rest
      invariant forall g :: g in prepared ==> prepared[g] == PrepareGroup(groups[g], g)
      decreases rest
    {
      var g :| g in rest;
      var actions := groups[g];
      for i := 0 to |actions|
        invariant |actions| == |groups[g]|
        invariant forall j :: 0 <= j < i ==> actions[j] == Prepare(groups[g][j], g)
        invariant forall j :: i <= j < |actions| ==> actions[j] == groups[g][j]
      {
        var action := actions[i].(group := g);
        if |action.runHistory| == 0 {
          for k := 0 to 5
            invariant action == actions[i].(group := g, runHistory := InitialRuns[..k])
          {
            action := action.(runHistory := action.runHistory + [EmptyRun]);
            assert InitialRuns[..k + 1] == InitialRuns[..k] + [EmptyRun];
          }
          assert InitialRuns[..5] == InitialRuns;
        }
        actions := actions[i := action];
      }
      prepared := prepared[g := actions];
      rest := rest - {g};
    }
  }

  // ---------------------------------------------------------------------
  // The index

  /** An entry of the index: an action name within a group. */
  datatype Key = Key(group: string, name: string)

  /** The position of the last action of `s` called `name`: when names
      repeat, the index keeps the one stored last. */
  function LastIndexNamed(s: seq<ActionData>, name: string): (r: Option<nat>)
    ensures r.Some? ==> r.value < |s| && s[r.value].action == name
    ensures r.Some? ==> forall j :: r.value < j < |s| ==> s[j].action != name
    ensures r.None? <==> name !in Names(s)
    decreases |s|
  {
    if s == [] then None
    else if s[|s| - 1].action == name then Some(|s| - 1)
    else
      assert s == s[..|s| - 1] + [s[|s| - 1]];
      NamesSnoc(s[..|s| - 1], s[|s| - 1]);
      LastIndexNamed(s[..|s| - 1], name)
  }

  /** Where the index sends a key, if it has it. */
  function Indexed(p: Groups, key: Key): (r: Option<nat>)
    ensures r.Some? ==> key.group in p && r.value < |p[key.group]| && p[key.group][r.value].action == key.name
    ensures r.None? <==> key.group !in p || key.name !in Names(p[key.group])
  {
    if key.group in p then LastIndexNamed(p[key.group], key.name) else None
  }

  /** The index of one group: position by position, each action's name to
      its position, so a later action of a name replaces an earlier one. */
  function IndexOf(s: seq<ActionData>): map<string, nat>
    decreases |s|
  {
    if s == [] then map[] else IndexOf(s[..|s| - 1])[s[|s| - 1].action := |s| - 1]
  }

  /** `actionIndex`. */
  function Index(p: Groups): (idx: map<string, map<string, nat>>)
    ensures idx.Keys == p.Keys
  {
    map g | g in p :: IndexOf(p[g])
  }

  lemma LastIndexSnoc(s: seq<ActionData>, a: ActionData, name: string)
    ensures LastIndexNamed(s + [a], name) == if name == a.action then Some(|s|) else LastIndexNamed(s, name)
  {
    var t := s + [a];
    assert t[..|t| - 1] == s;
  }

  lemma NamesSnoc(s: seq<ActionData>, a: ActionData)
    ensures Names(s + [a]) == Names(s) + {a.action}
  {
    forall n | n in Names(s + [a])
      ensures n in Names(s) + {a.action}
    {
      var x :| x in s + [a] && x.action == n;
      assert x in s || x == a;
    }
    forall n | n in Names(s)
      ensures n in Names(s + [a])
    {
      var x :| x in s && x.action == n;
      assert x in s + [a];
    }
  }

  lemma IndexOfSnoc(s: seq<ActionData>, a: ActionData)
    ensures IndexOf(s + [a]) == IndexOf(s)[a.action := |s|]
  {
    assert (s + [a])[..|s|] == s;
  }

  /** The index of a group has exactly its names, each sent to the last
      action of that name. */
  lemma {:induction false} IndexOfLast(s: seq<ActionData>, name: string)
    ensures name in IndexOf(s) <==> name in Names(s)
    ensures name in IndexOf(s) ==> IndexOf(s)[name] == LastIndexNamed(s, name).value
    decreases |s|
  {
    if s != [] {
      var init, last := s[..|s| - 1], s[|s| - 1];
      assert s == init + [last];
      IndexOfLast(init, name);
      LastIndexSnoc(init, last, name);
      NamesSnoc(init, last);
    }
  }

  /** The index sends a key exactly where `Indexed` says. */
  lemma IndexLookup(p: Groups, key: Key)
    ensures Indexed(p, key).Some? <==> key.group in Index(p) && key.name in Index(p)[key.group]
    ensures Indexed(p, key).Some? ==> Index(p)[key.group][key.name] == Indexed(p, key).value
  {
    if key.group in p {
      IndexOfLast(p[key.group], key.name);
    }
  }

  /** The second loop of `ReloadActions`: the index of every group. */
  method BuildIndex(p: Groups) returns (idx: map<string, map<string, nat>>)
    ensures idx == Index(p)
  {
    idx := map[];
    var rest := p.Keys;
    while rest != {}
      invariant rest <= p.Keys
      invariant idx.Keys == p.Keys - rest
      invariant forall g :: g in idx ==> idx[g] == IndexOf(p[g])
      decreases rest
    {
      var g :| g in rest;
      var m := IndexGroup(p[g]);
      idx := idx[g := m];
      rest := rest - {g};
    }
  }

  /** The index of one group, built position by position, so a later action
      of the same name replaces an earlier one. */
  method IndexGroup(actions: seq<ActionData>) returns (m: map<string, nat>)
    ensures m == IndexOf(actions)
  {
    m := map[];
    for i := 0 to |actions|
      invariant m == IndexOf(actions[..i])
    {
      IndexOfSnoc(actions[..i], actions[i]);
      assert actions[..i + 1] == actions[..i] + [actions[i]];
      m := m[actions[i].action := i];
    }
    assert actions[..|actions|] == actions;
  }

  // ---------------------------------------------------------------------
  // Trigger records to append

  /** One `Triggers` record appended at a position. */
  datatype Append = Append(group: string, index: nat, trigger: Triggers)

  /** The rules of an action for a condition. */
  function RulesFor(a: ActionData, cond: string): seq<Run> {
    if cond == "success" then a.onSuccess.run else a.onError.run
  }

  function TriggerOf(key: Key, rule: Run, cond: string): Triggers {
    Triggers(key.group, key.name, rule.group, rule.action, cond, rule.input)
  }

  /** The Go code builds a record from the origin's own group and name; after
      preparation those are the entry's key, which is what `TriggerOf`
      uses. */
  lemma OriginFields(groups: Groups, key: Key)
    requires Indexed(Prepared(groups), key).Some?
    ensures var a := Prepared(groups)[key.group][Indexed(Prepared(groups), key).value];
            a.group == key.group && a.action == key.name
  {
  }

  /** One rule of the action at `key` (position `o`): when its target is
      indexed, the same record goes to the origin and then to the target. */
  function EmitRule(p: Groups, key: Key, o: nat, rule: Run, cond: string): seq<Append> {
    match Indexed(p, Key(rule.group, rule.action))
    case None => []
    case Some(t) => [Append(key.group, o, TriggerOf(key, rule, cond)), Append(rule.group, t, TriggerOf(key, rule, cond))]
  }

  /** `processTriggerRules` for a list of rules, in order. */
  function EmitRules(p: Groups, key: Key, o: nat, rules: seq<Run>, cond: string): seq<Append>
    decreases |rules|
  {
    if rules == [] then []
    else EmitRules(p, key, o, rules[..|rules| - 1], cond) + EmitRule(p, key, o, rules[|rules| - 1], cond)
  }

  /** Both calls of `processTriggerRules` for one index entry: the success
      rules, then the error rules. */
  function EmitFor(p: Groups, key: Key): seq<Append> {
    match Indexed(p, key)
    case None => []
    case Some(o) =>
      EmitRules(p, key, o, p[key.group][o].onSuccess.run, "success")
      + EmitRules(p, key, o, p[key.group][o].onError.run, "error")
  }

  /** Everything appended when the index is walked in `order`. */
  function Emitted(p: Groups, order: seq<Key>): seq<Append> {
    Concat(order, k => EmitFor(p, k))
  }

  /** The lists `f` gives for the keys of `order`, one after the other. */
  function Concat(order: seq<Key>, f: Key -> seq<Append>): seq<Append>
    decreases |order|
  {
    if order == [] then [] else Concat(order[..|order| - 1], f) + f(order[|order| - 1])
  }

  /** `order` walks every entry of the index once. */
  ghost predicate IsOrderOf(order: seq<Key>, p: Groups) {
    && (forall k :: k in order <==> Indexed(p, k).Some?)
    && (forall i, j :: 0 <= i < j < |order| ==> order[i] != order[j])
  }

  // ---------------------------------------------------------------------
  // Appending

  /** Appends a record to the triggers of the action at a position. */
  function AppendAt(state: Groups, e: Append): (r: Groups)
    ensures r.Keys == state.Keys
    ensures forall g :: g in state ==> |r[g]| == |state[g]|
  {
    if e.group in state && e.index < |state[e.group]| then
      var a := state[e.group][e.index];
      state[e.group := state[e.group][e.index := a.(triggers := a.triggers + [e.trigger])]]
    else state
  }

  /** The table after a list of appends, one after the other. */
  function Apply(state: Groups, es: seq<Append>): (r: Groups)
    ensures r.Keys == state.Keys
    ensures forall g :: g in state ==> |r[g]| == |state[g]|
    decreases |es|
  {
    if es == [] then state else AppendAt(Apply(state, es[..|es| - 1]), es[|es| - 1])
  }

  /** The records appended at one position, in order. */
  function Contribution(es: seq<Append>, g: string, i: nat): seq<Triggers>
    decreases |es|
  {
    if es == [] then []
    else
      var e := es[|es| - 1];
      Contribution(es[..|es| - 1], g, i) + (if e.group == g && e.index == i then [e.trigger] else [])
  }

  lemma {:induction false} ApplyAppend(state: Groups, es1: seq<Append>, es2: seq<Append>)
    ensures Apply(state, es1 + es2) == Apply(Apply(state, es1), es2)
    decreases |es2|
  {
    if es2 == [] {
      assert es1 + es2 == es1;
    } else {
      ApplyAppend(state, es1, es2[..|es2| - 1]);
      assert (es1 + es2)[..|es1 + es2| - 1] == es1 + es2[..|es2| - 1];
    }
  }

  predicate ValidAppends(p: Groups, es: seq<Append>) {
    forall e :: e in es ==> e.group in p && e.index < |p[e.group]|
  }

  /** After the appends, every action is as it was but for its triggers,
      which have the records appended at its position added at the end. */
  lemma AppendAtEntry(state: Groups, e: Append, g: string, i: nat)
    requires g in state && i < |state[g]|
    ensures AppendAt(state, e)[g][i]
              == if e.group == g && e.index == i
                 then state[g][i].(triggers := state[g][i].triggers + [e.trigger])
                 else state[g][i]
  {
  }

  lemma {:induction false} ApplyForm(p: Groups, es: seq<Append>, g: string, i: nat)
    requires g in p && i < |p[g]|
    ensures Apply(p, es)[g][i] == p[g][i].(triggers := p[g][i].triggers + Contribution(es, g, i))
    decreases |es|
  {
    var x := p[g][i];
    if es == [] {
      assert x.triggers + [] == x.triggers;
    } else {
      var init := es[..|es| - 1];
      var e := es[|es| - 1];
      ApplyForm(p, init, g, i);
      var before := Apply(p, init);
      assert before[g][i] == x.(triggers := x.triggers + Contribution(init, g, i));
      AppendAtEntry(before, e, g, i);
      if e.group == g && e.index == i {
        assert Contribution(es, g, i) == Contribution(init, g, i) + [e.trigger];
        assert x.triggers + Contribution(init, g, i) + [e.trigger] == x.triggers + Contribution(es, g, i);
      } else {
        assert Contribution(es, g, i) == Contribution(init, g, i) + [];
      }
    }
  }

  /** A record is in the contribution of a position exactly when it was
      appended there. */
  lemma {:induction false} ContributionMember(es: seq<Append>, g: string, i: nat, t: Triggers)
    ensures t in Contribution(es, g, i) <==> Append(g, i, t) in es
    decreases |es|
  {
    if es != [] {
      ContributionMember(es[..|es| - 1], g, i, t);
      assert es == es[..|es| - 1] + [es[|es| - 1]];
    }
  }

  /** A position receives a record as many times as it was appended there. */
  lemma {:induction false} ContributionCount(es: seq<Append>, g: string, i: nat, t: Triggers)
    ensures multiset(Contribution(es, g, i))[t] == multiset(es)[Append(g, i, t)]
    decreases |es|
  {
    if es != [] {
      var init, e := es[..|es| - 1], es[|es| - 1];
      ContributionCount(init, g, i, t);
      assert es == init + [e];
      MultisetSnocCount(init, e, Append(g, i, t));
      ContributionSnocCount(init, e, g, i, t);
    }
  }

  /** One more append adds one to a record's count at its own position. */
  lemma ContributionSnocCount(es: seq<Append>, e: Append, g: string, i: nat, t: Triggers)
    ensures multiset(Contribution(es + [e], g, i))[t]
            == multiset(Contribution(es, g, i))[t] + (if e == Append(g, i, t) then 1 else 0)
  {
    assert (es + [e])[..|es|] == es;
    if e.group == g && e.index == i {
      MultisetSnocCount(Contribution(es, g, i), e.trigger, t);
    } else {
      assert Contribution(es + [e], g, i) == Contribution(es, g, i) + [];
      assert Contribution(es, g, i) + [] == Contribution(es, g, i);
    }
  }

  lemma MultisetSnocCount<T>(s: seq<T>, x: T, y: T)
    ensures multiset(s + [x])[y] == multiset(s)[y] + (if x == y then 1 else 0)
  {
    assert multiset(s + [x]) == multiset(s) + multiset{x};
  }

  // ---------------------------------------------------------------------
  // What is appended

  /** The shape of every appended record: its origin is an indexed action,
      its target the indexed action a success or error rule of the origin
      names, and it sits on one of the two. */
  ghost predicate Recorded(p: Groups, e: Append) {
    var t := e.trigger;
    var origin := Key(t.originGroup, t.originAction);
    var target := Key(t.triggerGroup, t.triggerAction);
    && Indexed(p, origin).Some?
    && (t.triggerCondition == "success" || t.triggerCondition == "error")
    && Run(t.triggerGroup, t.triggerAction, t.triggerInput)
         in RulesFor(p[t.originGroup][Indexed(p, origin).value], t.triggerCondition)
    && Indexed(p, target).Some?
    && ((e.group == t.originGroup && e.index == Indexed(p, origin).value)
        || (e.group == t.triggerGroup && e.index == Indexed(p, target).value))
  }

  lemma {:induction false} EmitRulesSound(p: Groups, key: Key, o: nat, rules: seq<Run>, cond: string)
    requires Indexed(p, key) == Some(o)
    requires cond == "success" || cond == "error"
    requires forall r :: r in rules ==> r in RulesFor(p[key.group][o], cond)
    ensures forall e :: e in EmitRules(p, key, o, rules, cond) ==> Recorded(p, e)
    decreases |rules|
  {
    if rules != [] {
      var init := rules[..|rules| - 1];
      assert forall r :: r in init ==> r in rules;
      EmitRulesSound(p, key, o, init, cond);
      assert rules[|rules| - 1] in rules;
    }
  }

  lemma EmitForSound(p: Groups, key: Key)
    ensures forall e :: e in EmitFor(p, key) ==> Recorded(p, e)
  {
    if Indexed(p, key).Some? {
      var o := Indexed(p, key).value;
      EmitRulesSound(p, key, o, p[key.group][o].onSuccess.run, "success");
      EmitRulesSound(p, key, o, p[key.group][o].onError.run, "error");
    }
  }

  /** Every record appended, in any walk of the index, has the shape of
      `Recorded`: rules naming an unknown target add nothing. */
  lemma {:induction false} EmittedSound(p: Groups, order: seq<Key>)
    ensures forall e :: e in Emitted(p, order) ==> Recorded(p, e)
    decreases |order|
  {
    if order != [] {
      EmittedSound(p, order[..|order| - 1]);
      EmitForSound(p, order[|order| - 1]);
    }
  }

  lemma EmittedValid(p: Groups, order: seq<Key>)
    ensures ValidAppends(p, Emitted(p, order))
  {
    EmittedSound(p, order);
  }

  lemma {:induction false} EmitRulesComplete(p: Groups, key: Key, o: nat, rules: seq<Run>, cond: string,
                                             rule: Run, t: nat)
    requires rule in rules && Indexed(p, Key(rule.group, rule.action)) == Some(t)
    ensures Append(key.group, o, TriggerOf(key, rule, cond)) in EmitRules(p, key, o, rules, cond)
    ensures Append(rule.group, t, TriggerOf(key, rule, cond)) in EmitRules(p, key, o, rules, cond)
    decreases |rules|
  {
    var init := rules[..|rules| - 1];
    if rule != rules[|rules| - 1] {
      assert rules == init + [rules[|rules| - 1]];
      assert rule in init;
      EmitRulesComplete(p, key, o, init, cond, rule, t);
    }
  }

  /** Every rule of an index entry whose target is indexed is recorded on
      both ends, whatever order the index is walked in. */
  lemma {:induction false} EmittedComplete(p: Groups, order: seq<Key>, key: Key, o: nat, cond: string,
                                           rule: Run, t: nat)
    requires key in order && Indexed(p, key) == Some(o)
    requires cond == "success" || cond == "error"
    requires rule in RulesFor(p[key.group][o], cond)
    requires Indexed(p, Key(rule.group, rule.action)) == Some(t)
    ensures Append(key.group, o, TriggerOf(key, rule, cond)) in Emitted(p, order)
    ensures Append(rule.group, t, TriggerOf(key, rule, cond)) in Emitted(p, order)
    decreases |order|
  {
    var init := order[..|order| - 1];
    if key == order[|order| - 1] {
      EmitRulesComplete(p, key, o, RulesFor(p[key.group][o], cond), cond, rule, t);
    } else {
      assert order == init + [order[|order| - 1]];
      assert key in init;
      EmittedComplete(p, init, key, o, cond, rule, t);
    }
  }

  // ---------------------------------------------------------------------
  // The walk order does not matter

  lemma {:induction false} ConcatAppend(a: seq<Key>, b: seq<Key>, f: Key -> seq<Append>)
    ensures Concat(a + b, f) == Concat(a, f) + Concat(b, f)
    decreases |b|
  {
    if b == [] {
      assert a + b == a;
    } else {
      var n := |b| - 1;
      assert (a + b)[..|a + b| - 1] == a + b[..n];
      assert (a + b)[|a + b| - 1] == b[n];
      ConcatAppend(a, b[..n], f);
    }
  }

  lemma ConcatSplit(front: seq<Key>, k: Key, back: seq<Key>, f: Key -> seq<Append>)
    ensures Concat(front + [k] + back, f) == Concat(front, f) + f(k) + Concat(back, f)
  {
    ConcatAppend(front + [k], back, f);
    ConcatAppend(front, [k], f);
    assert [k][..0] == [];
  }

  lemma MultisetRemove(o1: seq<Key>, o2: seq<Key>, j: nat)
    requires multiset(o1) == multiset(o2) && o1 != [] && j < |o2| && o2[j] == o1[|o1| - 1]
    ensures multiset(o1[..|o1| - 1]) == multiset(o2[..j] + o2[j + 1..])
  {
    var k := o2[j];
    assert o1 == o1[..|o1| - 1] + [k];
    assert o2 == o2[..j] + [k] + o2[j + 1..];
    assert multiset(o1[..|o1| - 1]) == multiset(o1) - multiset{k};
    assert multiset(o2[..j] + o2[j + 1..]) == multiset(o2) - multiset{k};
  }

  /** Keys visited in another order give the same lists, in another order. */
  lemma {:induction false} ConcatPermutation(o1: seq<Key>, o2: seq<Key>, f: Key -> seq<Append>)
    requires multiset(o1) == multiset(o2)
    ensures multiset(Concat(o1, f)) == multiset(Concat(o2, f))
    decreases |o1|
  {
    if o1 == [] {
      assert |o2| == |multiset(o2)| == 0;
    } else {
      var init := o1[..|o1| - 1];
      var k := o1[|o1| - 1];
      assert k in multiset(o2);
      var j :| 0 <= j < |o2| && o2[j] == k;
      var front, back := o2[..j], o2[j + 1..];
      assert o2 == front + [k] + back;
      MultisetRemove(o1, o2, j);
      ConcatPermutation(init, front + back, f);
      ConcatAppend(front, back, f);
      ConcatSplit(front, k, back, f);
    }
  }

  lemma {:induction false} DistinctMultiset(s: seq<Key>, x: Key)
    requires forall i, j :: 0 <= i < j < |s| ==> s[i] != s[j]
    ensures multiset(s)[x] == if x in s then 1 else 0
    decreases |s|
  {
    if s != [] {
      var init := s[..|s| - 1];
      DistinctMultiset(init, x);
      assert s == init + [s[|s| - 1]];
      if x == s[|s| - 1] {
        assert x !in init;
      }
    }
  }

  /** Whatever order the index is walked in, each action receives the same
      records the same number of times; only their order on the action
      depends on the walk. */
  lemma OrderIndependent(p: Groups, o1: seq<Key>, o2: seq<Key>, g: string, i: nat)
    requires IsOrderOf(o1, p) && IsOrderOf(o2, p)
    ensures multiset(Contribution(Emitted(p, o1), g, i)) == multiset(Contribution(Emitted(p, o2), g, i))
  {
    forall x
      ensures multiset(o1)[x] == multiset(o2)[x]
    {
      DistinctMultiset(o1, x);
      DistinctMultiset(o2, x);
    }
    assert multiset(o1) == multiset(o2);
    ConcatPermutation(o1, o2, k => EmitFor(p, k));
    forall t
      ensures multiset(Contribution(Emitted(p, o1), g, i))[t] == multiset(Contribution(Emitted(p, o2), g, i))[t]
    {
      ContributionCount(Emitted(p, o1), g, i, t);
      ContributionCount(Emitted(p, o2), g, i, t);
    }
  }

  // ---------------------------------------------------------------------
  // The reloaded table

  /** The definitions after both loops of `ReloadActions`, before merging. */
  function Reloaded(groups: Groups, order: seq<Key>): (r: Groups)
    ensures r.Keys == groups.Keys
    ensures forall g :: g in groups ==> |r[g]| == |groups[g]|
  {
    Apply(Prepared(groups), Emitted(Prepared(groups), order))
  }

  /** Each reloaded action is the loaded one with its group's name, a run
      history that is five empty runs when it had none, and the appended
      trigger records after its own. */
  lemma ReloadedAction(groups: Groups, order: seq<Key>, g: string, i: nat)
    requires g in groups && i < |groups[g]|
    ensures Reloaded(groups, order).Keys == groups.Keys && |Reloaded(groups, order)[g]| == |groups[g]|
    ensures var r := Reloaded(groups, order)[g][i];
            && r.group == g
            && r.runHistory == (if groups[g][i].runHistory == [] then InitialRuns else groups[g][i].runHistory)
            && r.triggers == groups[g][i].triggers + Contribution(Emitted(Prepared(groups), order), g, i)
            && r == groups[g][i].(group := r.group, runHistory := r.runHistory, triggers := r.triggers)
  {
    var p := Prepared(groups);
    EmittedValid(p, order);
    ApplyForm(p, Emitted(p, order), g, i);
  }

  /** Histories within the limit stay within it through a reload. */
  lemma ReloadedHistoryWithin(groups: Groups, order: seq<Key>)
    requires HistoryWithin(groups, RunHistoryLimit)
    ensures HistoryWithin(Reloaded(groups, order), RunHistoryLimit)
  {
    var r := Reloaded(groups, order);
    forall g: string, a: ActionData | g in r && a in r[g]
      ensures |a.runHistory| <= RunHistoryLimit
    {
      var i :| 0 <= i < |r[g]| && r[g][i] == a;
      ReloadedAction(groups, order, g, i);
      assert groups[g][i] in groups[g];
    }
  }

  // ---------------------------------------------------------------------
  // The loops

  lemma ApplyPair(state: Groups, e1: Append, e2: Append)
    ensures Apply(state, [e1, e2]) == AppendAt(AppendAt(state, e1), e2)
  {
    assert [e1][..0] == [];
    assert Apply(state, [e1]) == AppendAt(state, e1);
    assert [e1, e2][..1] == [e1];
    assert Apply(state, [e1, e2]) == AppendAt(Apply(state, [e1]), e2);
  }

  lemma EmittedSnoc(p: Groups, order: seq<Key>, walked: seq<Key>, key: Key)
    ensures Emitted(p, order + (walked + [key])) == Emitted(p, order + walked) + EmitFor(p, key)
  {
    var sofar := order + walked;
    assert order + (walked + [key]) == sofar + [key];
    assert (sofar + [key])[..|sofar|] == sofar;
  }

  lemma WalkStep(walked: seq<Key>, g: string, names: set<string>, namesLeft: set<string>, name: string)
    requires name in namesLeft && namesLeft <= names
    requires forall k :: k in walked <==> k.group == g && k.name in names && k.name !in namesLeft
    requires forall i, j :: 0 <= i < j < |walked| ==> walked[i] != walked[j]
    ensures forall k :: k in walked + [Key(g, name)] <==> k.group == g && k.name in names && k.name !in namesLeft - {name}
    ensures forall i, j :: 0 <= i < j < |walked| + 1 ==> (walked + [Key(g, name)])[i] != (walked + [Key(g, name)])[j]
  {
    assert Key(g, name) !in walked;
  }

  /** One rule: when its target is in the index, the record goes to the
      origin and then to the target. */
  method ProcessRule(state: Groups, p: Groups, idx: map<string, map<string, nat>>, key: Key, o: nat,
                     rule: Run, cond: string)
    returns (updated: Groups)
    requires idx == Index(p)
    ensures updated == Apply(state, EmitRule(p, key, o, rule, cond))
  {
    IndexLookup(p, Key(rule.group, rule.action));
    updated := state;
    if rule.group in idx && rule.action in idx[rule.group] {
      var t := idx[rule.group][rule.action];
      var trigger := TriggerOf(key, rule, cond);
      assert EmitRule(p, key, o, rule, cond) == [Append(key.group, o, trigger), Append(rule.group, t, trigger)];
      ApplyPair(state, Append(key.group, o, trigger), Append(rule.group, t, trigger));
      updated := AppendAt(updated, Append(key.group, o, trigger));
      updated := AppendAt(updated, Append(rule.group, t, trigger));
    } else {
      assert EmitRule(p, key, o, rule, cond) == [];
    }
  }

  /** `processTriggerRules`: the rules in order. */
  method ProcessTriggerRules(state: Groups, p: Groups, idx: map<string, map<string, nat>>, key: Key, o: nat,
                             rules: seq<Run>, cond: string)
    returns (updated: Groups)
    requires idx == Index(p)
    ensures updated == Apply(state, EmitRules(p, key, o, rules, cond))
  {
    updated := state;
    for j := 0 to |rules|
      invariant updated == Apply(state, EmitRules(p, key, o, rules[..j], cond))
    {
      assert rules[..j + 1][..j] == rules[..j] && rules[..j + 1][j] == rules[j];
      ApplyAppend(state, EmitRules(p, key, o, rules[..j], cond), EmitRule(p, key, o, rules[j], cond));
      updated := ProcessRule(updated, p, idx, key, o, rules[j], cond);
    }
    assert rules[..|rules|] == rules;
  }

  /** Both rule lists of one index entry. */
  method ProcessEntry(state: Groups, p: Groups, idx: map<string, map<string, nat>>, key: Key)
    returns (updated: Groups)
    requires idx == Index(p)
    requires key.group in idx && key.name in idx[key.group]
    ensures updated == Apply(state, EmitFor(p, key))
  {
    IndexLookup(p, key);
    var o := idx[key.group][key.name];
    var origin := p[key.group][o];
    updated := ProcessTriggerRules(state, p, idx, key, o, origin.onSuccess.run, "success");
    updated := ProcessTriggerRules(updated, p, idx, key, o, origin.onError.run, "error");
    ApplyAppend(state, EmitRules(p, key, o, origin.onSuccess.run, "success"),
                EmitRules(p, key, o, origin.onError.run, "error"));
  }

  /** The entries of one group of the index, in map order, after the walk
      `order` so far. */
  method ProcessGroup(state: Groups, p: Groups, idx: map<string, map<string, nat>>, g: string,
                      ghost order: seq<Key>)
    returns (updated: Groups, walked: seq<Key>)
    requires idx == Index(p) && g in idx
    requires state == Apply(p, Emitted(p, order))
    ensures updated == Apply(p, Emitted(p, order + walked))
    ensures forall k :: k in walked <==> k.group == g && k.name in idx[g]
    ensures forall i, j :: 0 <= i < j < |walked| ==> walked[i] != walked[j]
  {
    updated := state;
    walked := [];
    assert order + walked == order;
    var namesLeft := idx[g].Keys;
    while namesLeft != {}
      invariant namesLeft <= idx[g].Keys
      invariant updated == Apply(p, Emitted(p, order + walked))
      invariant forall k :: k in walked <==> k.group == g && k.name in idx[g] && k.name !in namesLeft
      invariant forall i, j :: 0 <= i < j < |walked| ==> walked[i] != walked[j]
      decreases namesLeft
    {
      var name :| name in namesLeft;
      var key := Key(g, name);
      EmittedSnoc(p, order, walked, key);
      ApplyAppend(p, Emitted(p, order + walked), EmitFor(p, key));
      WalkStep(walked, g, idx[g].Keys, namesLeft, name);
      updated := ProcessEntry(updated, p, idx, key);
      walked := walked + [key];
      namesLeft := namesLeft - {name};
    }
  }

  /** Adding the walk of group `g` to the walk so far keeps it free of
      repeats and covering exactly the groups done. */
  lemma GroupWalkStep(order: seq<Key>, walked: seq<Key>, idx: map<string, map<string, nat>>,
                      groupsLeft: set<string>, g: string)
    requires g in groupsLeft && g in idx
    requires forall k :: k in order <==> k.group in idx && k.group !in groupsLeft && k.name in idx[k.group]
    requires forall i, j :: 0 <= i < j < |order| ==> order[i] != order[j]
    requires forall k :: k in walked <==> k.group == g && k.name in idx[g]
    requires forall i, j :: 0 <= i < j < |walked| ==> walked[i] != walked[j]
    ensures forall k :: k in order + walked <==>
              k.group in idx && k.group !in groupsLeft - {g} && k.name in idx[k.group]
    ensures forall i, j :: 0 <= i < j < |order + walked| ==> (order + walked)[i] != (order + walked)[j]
  {
    forall i, j | 0 <= i < j < |order + walked|
      ensures (order + walked)[i] != (order + walked)[j]
    {
      if i < |order| && j >= |order| {
        assert order[i] in order && walked[j - |order|] in walked;
      }
    }
  }

  /** The third loop of `ReloadActions`: every entry of the index, group by
      group in map order, has its success and then its error rules
      processed. */
  method AddTriggers(p: Groups, idx: map<string, map<string, nat>>) returns (state: Groups, order: seq<Key>)
    requires idx == Index(p)
    ensures IsOrderOf(order, p)
    ensures state == Apply(p, Emitted(p, order))
  {
    state := p;
    order := [];
    var groupsLeft := idx.Keys;
    while groupsLeft != {}
      invariant groupsLeft <= idx.Keys
      invariant state == Apply(p, Emitted(p, order))
      invariant forall k :: k in order <==> k.group in idx && k.group !in groupsLeft && k.name in idx[k.group]
      invariant forall i, j :: 0 <= i < j < |order| ==> order[i] != order[j]
      decreases groupsLeft
    {
      var g :| g in groupsLeft;
      var walked;
      state, walked := ProcessGroup(state, p, idx, g, order);
      GroupWalkStep(order, walked, idx, groupsLeft, g);
      order := order + walked;
      groupsLeft := groupsLeft - {g};
    }
    forall k
      ensures k in order <==> Indexed(p, k).Some?
    {
      IndexLookup(p, k);
    }
  }

  /** `ReloadActions`: prepares the loaded definitions, records their
      trigger links, merges them into the stored catalogue and stores the
      result in its encoding. `order` is the walk of the index that was
      taken. */
  method ReloadActions(store: Store, groups: Groups) returns (order: seq<Key>)
    requires store.Valid()
    modifies store
    ensures store.Valid()
    ensures IsOrderOf(order, Prepared(groups))
    ensures store.entries == old(store.entries)[GroupsKey :=
              GroupTable(EncodedGroups(Merged(StoredGroups(old(store.entries)), Reloaded(groups, order))))]
  {
    var prepared := PrepareGroups(groups);
    var idx := BuildIndex(prepared);
    var withTriggers;
    withTriggers, order := AddTriggers(prepared, idx);
    var stored := store.GetGroups();
    var mergedGroups := MergeGroups(stored, withTriggers);
    store.PutGroups(mergedGroups);
  }

  /** After a reload the stored catalogue keeps every history within the
      limit, provided the stored one and the loaded definitions did. */
  lemma ReloadKeepsHistoryBound(stored: Groups, groups: Groups, order: seq<Key>)
    requires HistoryWithin(stored, RunHistoryLimit) && HistoryWithin(groups, RunHistoryLimit)
    ensures HistoryWithin(Merged(stored, Reloaded(groups, order)), RunHistoryLimit)
    ensures HistoryWithin(EncodedGroups(Merged(stored, Reloaded(groups, order))), RunHistoryLimit)
  {
    ReloadedHistoryWithin(groups, order);
    MergedHistoryWithin(stored, Reloaded(groups, order), RunHistoryLimit);
    EncodedHistoryWithin(Merged(stored, Reloaded(groups, order)), RunHistoryLimit);
  }
}
