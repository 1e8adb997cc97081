/** The run bookkeeping of routes/routes.go: the bounded run history of an
    action, writing a run back into its group, the lock flag, the bounded
    notification list, `$PAL_*` placeholder expansion, the command line of
    a run and the download-name check. Configuration values, the clock and
    fresh identifiers are parameters. */
module Routes {
  import opened Wrappers
  import opened Data
  import opened Text
  import opened Db

  /** `runHistoryLimit`. */
  const RunHistoryLimit: nat := 5

  // ---------------------------------------------------------------------
  // Run history

  /** `addRun`: the latest run goes in front of the history; when that makes
      the history longer than the limit, its last (oldest) entry goes. */
  function AddRun(action: ActionData): (r: ActionData)
    ensures |r.runHistory| == if |action.runHistory| + 1 > RunHistoryLimit then |action.runHistory| else |action.runHistory| + 1
    ensures r.runHistory[0] == RunHistory(action.lastRan, action.lastDuration, action.status)
    ensures r.runHistory[1..] == action.runHistory[..|r.runHistory| - 1]
    ensures r == action.(runHistory := r.runHistory)
  {
    var h := [RunHistory(action.lastRan, action.lastDuration, action.status)] + action.runHistory;
    action.(runHistory := if |h| > RunHistoryLimit then h[..|h| - 1] else h)
  }

  /** A history within the limit stays within it, and a full one stays full:
      the newest run comes in and the oldest goes. */
  lemma AddRunBounded(action: ActionData)
    requires |action.runHistory| <= RunHistoryLimit
    ensures |AddRun(action).runHistory| <= RunHistoryLimit
    ensures |action.runHistory| == RunHistoryLimit ==>
              AddRun(action).runHistory ==
                [RunHistory(action.lastRan, action.lastDuration, action.status)] + action.runHistory[..RunHistoryLimit - 1]
  {
    var r := AddRun(action).runHistory;
    assert r == [r[0]] + r[1..];
  }

  /** The group of `action` and the index of the first action of that group
      with its name, when there is one: where `mergeGroup` writes. */
  function MergeTarget(groups: Groups, action: ActionData): (r: Option<nat>)
    ensures r.Some? ==> action.group in groups && r.value < |groups[action.group]|
  {
    if action.group in groups then FirstNamed(groups[action.group], action.action) else None
  }

  /** The group table after `mergeGroup` records the latest run of `action`. */
  function AfterMerge(groups: Groups, action: ActionData): (r: Groups)
    ensures r.Keys == groups.Keys
    ensures forall g :: g in groups && g != action.group ==> r[g] == groups[g]
    ensures action.group !in groups || action.action !in Names(groups[action.group]) ==> r == groups
    ensures action.group in groups ==> |r[action.group]| == |groups[action.group]|
  {
    match MergeTarget(groups, action)
    case None => groups
    case Some(i) => groups[action.group := groups[action.group][i := AddRun(action)]]
  }

  /** After `mergeGroup`, a lookup of the action by name finds the action with
      its new run in front of its history, at the same place; every other
      action and every other group is as it was. */
  lemma AfterMergeRecordsRun(groups: Groups, action: ActionData, i: nat)
    requires MergeTarget(groups, action) == Some(i)
    ensures AfterMerge(groups, action).Keys == groups.Keys
    ensures forall g :: g in groups && g != action.group ==> AfterMerge(groups, action)[g] == groups[g]
    ensures |AfterMerge(groups, action)[action.group]| == |groups[action.group]|
    ensures forall j :: 0 <= j < |groups[action.group]| && j != i ==>
              AfterMerge(groups, action)[action.group][j] == groups[action.group][j]
    ensures FirstNamed(AfterMerge(groups, action)[action.group], action.action) == Some(i)
    ensures AfterMerge(groups, action)[action.group][i] == AddRun(action)
  {
    var s := AfterMerge(groups, action)[action.group];
    forall k | 0 <= k < i
      ensures s[k].action != action.action
    {
      assert s[k] == groups[action.group][k];
    }
    FirstNamedAt(s, action.action, i);
  }

  /** Recording runs keeps every history of the table within the limit, as
      long as the action written back came with a history within it. */
  lemma AfterMergeHistoryWithin(groups: Groups, action: ActionData)
    requires HistoryWithin(groups, RunHistoryLimit)
    requires |action.runHistory| <= RunHistoryLimit
    ensures HistoryWithin(AfterMerge(groups, action), RunHistoryLimit)
    ensures HistoryWithin(EncodedGroups(AfterMerge(groups, action)), RunHistoryLimit)
  {
    AddRunBounded(action);
    var r := AfterMerge(groups, action);
    if MergeTarget(groups, action).Some? {
      var i := MergeTarget(groups, action).value;
      forall g: string, a: ActionData | g in r && a in r[g]
        ensures |a.runHistory| <= RunHistoryLimit
      {
        if g == action.group {
          var j :| 0 <= j < |r[g]| && r[g][j] == a;
          if j != i {
            assert a == groups[g][j];
          }
        } else {
          assert a in groups[g];
        }
      }
    }
    EncodedHistoryWithin(r, RunHistoryLimit);
  }

  /** `mergeGroup`: the action, with its latest run recorded, replaces the
      first action of its group with the same name, and the table is stored
      in its encoding; when there is no such group or action, nothing is
      written. */
  method MergeGroup(store: Store, action: ActionData)
    requires store.Valid()
    modifies store
    ensures store.Valid()
    ensures MergeTarget(StoredGroups(old(store.entries)), action).None? ==> store.entries == old(store.entries)
    ensures MergeTarget(StoredGroups(old(store.entries)), action).Some? ==>
              store.entries ==
                old(store.entries)[GroupsKey := GroupTable(EncodedGroups(AfterMerge(StoredGroups(old(store.entries)), action)))]
  {
    var a := AddRun(action);
    var groupsData := store.GetGroups();
    if a.group in groupsData {
      var v := groupsData[a.group];
      for i := 0 to |v|
        invariant forall k :: 0 <= k < i ==> v[k].action != a.action
      {
        if v[i].action == a.action {
          FirstNamedAt(v, a.action, i);
          v := v[i := a];
          groupsData := groupsData[a.group := v];
          store.PutGroups(groupsData);
          return;
        }
      }
    }
  }

  // ---------------------------------------------------------------------
  // The lock flag

  /** What `lock` writes back: the first action of the group with the name,
      or Go's zero ActionData when there is none, with the flag set. */
  function LockedCopy(actions: seq<ActionData>, name: string, lockState: bool): (r: ActionData)
    ensures r.lock == lockState
    ensures FirstNamed(actions, name).Some? ==> r == actions[FirstNamed(actions, name).value].(lock := lockState)
    ensures FirstNamed(actions, name).None? ==> r == ZeroAction.(lock := lockState)
  {
    (match FirstNamed(actions, name)
     case Some(i) => actions[i]
     case None => ZeroAction).(lock := lockState)
  }

  /** `lock`: reads the action, sets its flag and writes it back over every
      action of the group with that name. The store keeps the encoding, in
      which the flag is not written. */
  method Lock(store: Store, group: string, action: string, lockState: bool)
    requires store.Valid()
    modifies store
    ensures store.Valid()
    ensures StoredGroups(store.entries) ==
              StoredGroups(old(store.entries))[group := EncodedActions(ReplaceNamed(StoredActions(old(store.entries), group),
                                                                     LockedCopy(StoredActions(old(store.entries), group), action, lockState)))]
    ensures store.entries.Keys == old(store.entries).Keys + {GroupsKey}
    ensures forall k :: k in store.entries && k != GroupsKey ==> store.entries[k] == old(store.entries)[k]
  {
    var resData := store.GetGroupAction(group, action);
    resData := resData.(lock := lockState);
    store.PutGroupAction(group, resData);
  }

  /** In the list `lock` hands to `PutGroupAction`, the flag of the first
      occurrence of a known action is set, a lookup still finds it first,
      and actions with other names are untouched. */
  lemma LockSetsFlag(actions: seq<ActionData>, name: string, lockState: bool, i: nat)
    requires FirstNamed(actions, name) == Some(i)
    ensures ReplaceNamed(actions, LockedCopy(actions, name, lockState))[i] == actions[i].(lock := lockState)
    ensures FirstNamed(ReplaceNamed(actions, LockedCopy(actions, name, lockState)), name) == Some(i)
    ensures forall j :: 0 <= j < |actions| && actions[j].action != name ==>
              ReplaceNamed(actions, LockedCopy(actions, name, lockState))[j] == actions[j]
  {
    var r := ReplaceNamed(actions, LockedCopy(actions, name, lockState));
    forall k | 0 <= k < i
      ensures r[k].action != name
    {
    }
    FirstNamedAt(r, name, i);
  }

  /** What `lock` stores does not depend on the lock state it is given:
      locking and unlocking write the same list. */
  lemma LockStateNotStored(actions: seq<ActionData>, name: string)
    ensures EncodedActions(ReplaceNamed(actions, LockedCopy(actions, name, true)))
         == EncodedActions(ReplaceNamed(actions, LockedCopy(actions, name, false)))
  {
    var on := ReplaceNamed(actions, LockedCopy(actions, name, true));
    var off := ReplaceNamed(actions, LockedCopy(actions, name, false));
    forall j | 0 <= j < |actions|
      ensures Encoded(on[j]) == Encoded(off[j])
    {
    }
  }

  /** Locking an unknown action writes Go's zero ActionData over the actions
      with an empty name; a group without such actions keeps its list. */
  lemma LockUnknownAction(actions: seq<ActionData>, name: string, lockState: bool)
    requires name !in Names(actions) && "" !in Names(actions)
    ensures ReplaceNamed(actions, LockedCopy(actions, name, lockState)) == actions
  {
    var r := ReplaceNamed(actions, LockedCopy(actions, name, lockState));
    forall j | 0 <= j < |actions|
      ensures r[j] == actions[j]
    {
      assert actions[j] in actions;
    }
  }

  // ---------------------------------------------------------------------
  // Notifications

  /** The notification maximum the loader stores when none is configured. */
  const DefaultNotifications: int := 100

  /** The integer setting the loader of config/config.go:165-170 stores for
      notifications: `notifications_max`, 100 when left at zero. That loader
      reads a `Notifications.Max` field, while data/data.go:139 declares
      `StoreMax`: the two files come from different revisions. */
  function ShippedLoaderConfig(configuredMax: int): map<string, int> {
    map["notifications_max" := if configuredMax == 0 then DefaultNotifications else configuredMax]
  }

  /** A loader that stores the configured `store_max` of data/data.go:139
      under the key `putNotifications` reads, 100 when left at zero. */
  function LoadedConfig(storeMax: int): map<string, int> {
    map["notifications_store_max" := if storeMax == 0 then DefaultNotifications else storeMax]
  }

  /** `GetConfigInt`: the setting, or 0 when it is not set. */
  function GetConfigInt(cfg: map<string, int>, key: string): (r: int)
    ensures key !in cfg ==> r == 0
    ensures key in cfg ==> r == cfg[key]
  {
    if key in cfg then cfg[key] else 0
  }

  /** The limit `putNotifications` reads. */
  function StoreLimit(cfg: map<string, int>): int {
    GetConfigInt(cfg, "notifications_store_max")
  }

  /** `putNotifications` as written: when the stored list is longer than the
      limit its element 0 is cut off, then the stamped notification goes in
      front; `None` where cutting an empty list panics. */
  function PushNotificationAsWritten(stored: seq<Notification>, limit: int, n: Notification,
                                     id: string, now: string): (r: Option<seq<Notification>>)
    ensures r.None? <==> stored == [] && limit < 0
    ensures r.Some? ==> |r.value| > 0 && r.value[0] == n.(id := id, notificationRcv := now)
    ensures r.Some? && |stored| > limit ==> r.value[1..] == stored[1..]
    ensures r.Some? && |stored| <= limit ==> r.value[1..] == stored
  {
    var stamped := n.(id := id, notificationRcv := now);
    if |stored| > limit then
      if stored == [] then None else Some([stamped] + stored[1..])
    else Some([stamped] + stored)
  }

  /** `putNotifications` as intended: the list is newest first, so the entry
      to give up is the last one; an empty list has nothing to give up. */
  function PushNotification(stored: seq<Notification>, limit: int, n: Notification,
                            id: string, now: string): (r: seq<Notification>)
    ensures |r| == if |stored| > limit && stored != [] then |stored| else |stored| + 1
    ensures r[0] == n.(id := id, notificationRcv := now)
    ensures r[1..] == stored[..|r| - 1]
  {
    var kept := if |stored| > limit && stored != [] then stored[..|stored| - 1] else stored;
    [n.(id := id, notificationRcv := now)] + kept
  }

  /** A list of at most limit+1 notifications stays that short, keeping the
      newest ones. */
  lemma PushNotificationBounded(stored: seq<Notification>, limit: nat, n: Notification, id: string, now: string)
    requires |stored| <= limit + 1
    ensures |PushNotification(stored, limit, n, id, now)| <= limit + 1
    ensures |stored| == limit + 1 ==>
              PushNotification(stored, limit, n, id, now) == [n.(id := id, notificationRcv := now)] + stored[..limit]
  {
    var r := PushNotification(stored, limit, n, id, now);
    assert r == [r[0]] + r[1..];
  }

  /** With the newest notification "b" stored ahead of "a" and a limit of 1,
      the code as written gives up "b" and keeps the older "a". */
  lemma AsWrittenDropsNewest(n: Notification)
    ensures PushNotificationAsWritten([Note("b"), Note("a")], 1, n, "id", "now") ==
              Some([n.(id := "id", notificationRcv := "now"), Note("a")])
    ensures PushNotification([Note("b"), Note("a")], 1, n, "id", "now") ==
              [n.(id := "id", notificationRcv := "now"), Note("b")]
  {
    var stored := [Note("b"), Note("a")];
    assert |stored| == 2;
    var stamped := n.(id := "id", notificationRcv := "now");
    assert stored[1..] == [Note("a")];
    assert stored[..|stored| - 1] == [Note("b")];
    assert PushNotificationAsWritten(stored, 1, n, "id", "now") == Some([stamped] + stored[1..]);
    assert [stamped] + [Note("a")] == [stamped, Note("a")];
  }

  /** With the loader of config/config.go, which never sets the key
      `putNotifications` reads, the limit is 0 whatever is configured, and a
      put on a stored notification keeps only the new one. */
  lemma AsWrittenLimitIsZero(configuredMax: int, old_: Notification, n: Notification)
    ensures StoreLimit(ShippedLoaderConfig(configuredMax)) == 0
    ensures PushNotificationAsWritten([old_], StoreLimit(ShippedLoaderConfig(configuredMax)), n, "id", "now") ==
              Some([n.(id := "id", notificationRcv := "now")])
  {
    assert "notifications_store_max" != "notifications_max" by {
      assert |"notifications_store_max"| != |"notifications_max"|;
    }
    assert "notifications_store_max" !in ShippedLoaderConfig(configuredMax);
    var stamped := n.(id := "id", notificationRcv := "now");
    assert [old_][1..] == [];
    assert PushNotificationAsWritten([old_], 0, n, "id", "now") == Some([stamped] + [old_][1..]);
    assert [stamped] + [] == [stamped];
  }

  /** With a loader that stores the configured maximum under the key
      `putNotifications` reads, the limit is that maximum, 100 by default,
      and a full list keeps its length on a put. */
  lemma LoadedLimit(storeMax: nat, stored: seq<Notification>, n: Notification, id: string, now: string)
    ensures StoreLimit(LoadedConfig(storeMax)) == if storeMax == 0 then 100 else storeMax
    ensures |stored| == StoreLimit(LoadedConfig(storeMax)) + 1 ==>
              |PushNotification(stored, StoreLimit(LoadedConfig(storeMax)), n, id, now)| == |stored|
  {
    var limit := StoreLimit(LoadedConfig(storeMax));
    assert limit >= 0;
    if |stored| == limit + 1 {
      PushNotificationBounded(stored, limit, n, id, now);
    }
  }

  /** With a negative configured limit, a put on an empty store panics as
      written; the corrected put stores the one notification. */
  lemma AsWrittenPanicsOnEmpty(n: Notification)
    ensures PushNotificationAsWritten([], -1, n, "id", "now") == None
    ensures PushNotification([], -1, n, "id", "now") == [n.(id := "id", notificationRcv := "now")]
  {
  }

  /** `putNotifications`, corrected: the notification gets its identifier and
      arrival time and goes in front of the stored list, which gives up its
      oldest entry when it is longer than the configured maximum. */
  method PutNotification(store: Store, notification: Notification, cfg: map<string, int>, id: string, now: string)
    requires store.Valid()
    modifies store
    ensures store.Valid()
    ensures store.entries == old(store.entries)[NotificationsKey :=
              NotificationList(PushNotification(StoredNotifications(old(store.entries)), StoreLimit(cfg),
                                                notification, id, now))]
  {
    var notifications := store.GetNotifications("");
    var limit := GetConfigInt(cfg, "notifications_store_max");
    if |notifications| > limit && notifications != [] {
      notifications := notifications[..|notifications| - 1];
    }
    var stamped := notification.(id := id, notificationRcv := now);
    notifications := [stamped] + notifications;
    store.PutNotifications(notifications);
  }

  /** The notifications whose identifier is not `id`, in order. */
  function WithoutId(items: seq<Notification>, id: string): (r: seq<Notification>)
    ensures forall n :: n in r <==> n in items && n.id != id
    ensures |r| <= |items|
  {
    if items == [] then []
    else (if items[0].id != id then [items[0]] else []) + WithoutId(items[1..], id)
  }

  lemma {:induction false} WithoutIdSnoc(items: seq<Notification>, x: Notification, id: string)
    ensures WithoutId(items + [x], id) == WithoutId(items, id) + (if x.id != id then [x] else [])
  {
    if items != [] {
      assert (items + [x])[1..] == items[1..] + [x];
      WithoutIdSnoc(items[1..], x, id);
    }
  }

  lemma {:induction false} WithoutIdAbsent(items: seq<Notification>, id: string)
    requires forall k :: 0 <= k < |items| ==> items[k].id != id
    ensures WithoutId(items, id) == items
  {
    if items != [] {
      WithoutIdAbsent(items[1..], id);
      assert items == [items[0]] + items[1..];
    }
  }

  /** When identifiers are unique, deleting one that is present removes
      exactly one notification. */
  lemma {:induction false} WithoutIdUnique(items: seq<Notification>, id: string, i: nat)
    requires i < |items| && items[i].id == id
    requires forall j, k :: 0 <= j < k < |items| ==> items[j].id != items[k].id
    ensures |WithoutId(items, id)| == |items| - 1
  {
    if i == 0 {
      WithoutIdAbsent(items[1..], id);
    } else {
      WithoutIdUnique(items[1..], id, i - 1);
    }
  }

  /** The loop of the delete branch of `GetNotificationsPage`: the
      notifications whose identifier differs from `id`, collected in order. */
  method KeepOthers(stored: seq<Notification>, id: string) returns (notifications: seq<Notification>)
    ensures notifications == WithoutId(stored, id)
  {
    notifications := [];
    for i := 0 to |stored|
      invariant notifications == WithoutId(stored[..i], id)
    {
      WithoutIdSnoc(stored[..i], stored[i], id);
      assert stored[..i + 1] == stored[..i] + [stored[i]];
      if stored[i].id != id {
        notifications := notifications + [stored[i]];
      }
    }
    assert stored[..|stored|] == stored;
  }

  /** The delete branch of `GetNotificationsPage`: with an identifier given,
      every notification carrying it is removed and the rest stored back in
      order; without one nothing is written. */
  method DeleteNotification(store: Store, notificationID: string)
    requires store.Valid()
    modifies store
    ensures store.Valid()
    ensures notificationID == "" ==> store.entries == old(store.entries)
    ensures notificationID != "" ==>
              store.entries == old(store.entries)[NotificationsKey :=
                NotificationList(WithoutId(StoredNotifications(old(store.entries)), notificationID))]
  {
    if notificationID != "" {
      var stored := store.GetNotifications("");
      var notifications := KeepOthers(stored, notificationID);
      store.PutNotifications(notifications);
    }
  }

  // ---------------------------------------------------------------------
  // Placeholders

  /** The `$PAL_*` expansion of `registerActionDB` and of the notification
      text: group, action, input and status in that order, then the output
      only for an action that keeps its output. A template without `$PAL_`
      comes out as it went in. */
  function Expand(template: string, a: ActionData, input: string, output: string): (r: string)
    ensures !Contains(template, "$PAL_") ==> r == template
  {
    var t := ReplaceAll(ReplaceAll(ReplaceAll(ReplaceAll(template, "$PAL_GROUP", a.group),
                                              "$PAL_ACTION", a.action),
                                   "$PAL_INPUT", input),
                        "$PAL_STATUS", a.status);
    var r := if a.output then ReplaceAll(t, "$PAL_OUTPUT", output) else t;
    if Contains(template, "$PAL_") then r
    else
      PlaceholdersAbsent(template, a, input, output);
      r
  }

  /** A string without `$PAL_` holds none of the placeholders. */
  lemma NoPlaceholder(s: string)
    requires !Contains(s, "$PAL_")
    ensures !Contains(s, "$PAL_GROUP") && !Contains(s, "$PAL_ACTION") && !Contains(s, "$PAL_INPUT")
    ensures !Contains(s, "$PAL_STATUS") && !Contains(s, "$PAL_OUTPUT")
  {
    assert "$PAL_GROUP" == "$PAL_" + "GROUP" && "$PAL_ACTION" == "$PAL_" + "ACTION";
    assert "$PAL_INPUT" == "$PAL_" + "INPUT" && "$PAL_STATUS" == "$PAL_" + "STATUS";
    assert "$PAL_OUTPUT" == "$PAL_" + "OUTPUT";
    if Contains(s, "$PAL_GROUP") { ContainsPrefixOf(s, "$PAL_", "GROUP"); }
    if Contains(s, "$PAL_ACTION") { ContainsPrefixOf(s, "$PAL_", "ACTION"); }
    if Contains(s, "$PAL_INPUT") { ContainsPrefixOf(s, "$PAL_", "INPUT"); }
    if Contains(s, "$PAL_STATUS") { ContainsPrefixOf(s, "$PAL_", "STATUS"); }
    if Contains(s, "$PAL_OUTPUT") { ContainsPrefixOf(s, "$PAL_", "OUTPUT"); }
  }

  /** Each of the five replacements leaves a string without `$PAL_` alone. */
  lemma PlaceholdersAbsent(s: string, a: ActionData, input: string, output: string)
    requires !Contains(s, "$PAL_")
    ensures ReplaceAll(s, "$PAL_GROUP", a.group) == s && ReplaceAll(s, "$PAL_ACTION", a.action) == s
    ensures ReplaceAll(s, "$PAL_INPUT", input) == s && ReplaceAll(s, "$PAL_STATUS", a.status) == s
    ensures ReplaceAll(s, "$PAL_OUTPUT", output) == s
  {
    NoPlaceholder(s);
    ReplaceAllAbsent(s, "$PAL_GROUP", a.group);
    ReplaceAllAbsent(s, "$PAL_ACTION", a.action);
    ReplaceAllAbsent(s, "$PAL_INPUT", input);
    ReplaceAllAbsent(s, "$PAL_STATUS", a.status);
    ReplaceAllAbsent(s, "$PAL_OUTPUT", output);
  }

  /** The output takes part only for an action that keeps its output. */
  lemma ExpandIgnoresOutput(template: string, a: ActionData, input: string, output1: string, output2: string)
    requires !a.output
    ensures Expand(template, a, input, output1) == Expand(template, a, input, output2)
  {
  }

  /** Replacing a string that is exactly the pattern gives the replacement. */
  lemma ReplaceWhole(pat: string, rep: string)
    requires pat != ""
    ensures ReplaceAll(pat, pat, rep) == rep
  {
    assert pat[..|pat|] == pat;
    assert pat[|pat|..] == [];
    assert ReplaceAll([], pat, rep) == [];
  }

  /** The five placeholders, in the order the expansion replaces them. */
  const Placeholders: seq<string> := ["$PAL_GROUP", "$PAL_ACTION", "$PAL_INPUT", "$PAL_STATUS", "$PAL_OUTPUT"]

  /** The text a placeholder stands for. */
  function Value(p: string, a: ActionData, input: string, output: string): string {
    if p == "$PAL_GROUP" then a.group
    else if p == "$PAL_ACTION" then a.action
    else if p == "$PAL_INPUT" then input
    else if p == "$PAL_STATUS" then a.status
    else output
  }

  /** Every placeholder starts with `$PAL_`, holds its `$` only in front,
      and is told apart from the others by its character at index 5. */
  lemma PlaceholderShape(p: string, q: string)
    requires p in Placeholders && q in Placeholders
    ensures |p| > 5 && p[..5] == "$PAL_"
    ensures forall k :: 1 <= k < |p| ==> p[k] != p[0]
    ensures p[0] == q[0]
    ensures p != q ==> p[5] != q[5]
  {
  }

  /** In a template with one placeholder `p` and no other `$PAL_`, replacing
      `p` puts its replacement in its place, and replacing any other
      placeholder changes nothing. */
  lemma ReplaceAt(x: string, p: string, y: string, q: string, rep: string)
    requires p in Placeholders && q in Placeholders
    requires !Contains(x, "$PAL_") && !Contains(y, "$PAL_")
    ensures q == p ==> ReplaceAll(x + p + y, q, rep) == x + rep + y
    ensures q != p ==> ReplaceAll(x + p + y, q, rep) == x + p + y
  {
    PlaceholderShape(q, p);
    assert q == "$PAL_" + q[5..];
    if Contains(x, q) { ContainsPrefixOf(x, "$PAL_", q[5..]); }
    if Contains(y, q) { ContainsPrefixOf(y, "$PAL_", q[5..]); }
    if q == p {
      NoStraddle(x, q);
      ReplaceAllSplit(x, q, y, rep);
      ReplaceAllAbsent(x, q, rep);
      ReplaceAllAbsent(y, q, rep);
    } else {
      NotAround(x, p, y, q, 5);
      ReplaceAllAbsent(x + p + y, q, rep);
    }
  }

  /** A placeholder inside a template becomes the text it stands for and the
      text around it stays as it is, provided the result holds no `$PAL_`;
      the output only for an action that keeps its output. */
  lemma ExpandIn(x: string, p: string, y: string, a: ActionData, input: string, output: string)
    requires p in Placeholders
    requires p == "$PAL_OUTPUT" ==> a.output
    requires !Contains(x + Value(p, a, input, output) + y, "$PAL_")
    ensures Expand(x + p + y, a, input, output) == x + Value(p, a, input, output) + y
  {
    var v := Value(p, a, input, output);
    var e := x + v + y;
    assert !Contains(x, "$PAL_") by {
      assert e == x + (v + y);
      if Contains(x, "$PAL_") { ContainsAppend(x, v + y, "$PAL_"); }
    }
    assert !Contains(y, "$PAL_") by {
      assert e == (x + v) + y;
      if Contains(y, "$PAL_") { ContainsPrepend(x + v, y, "$PAL_"); }
    }
    PlaceholdersAbsent(e, a, input, output);
    ReplaceAt(x, p, y, "$PAL_GROUP", a.group);
    ReplaceAt(x, p, y, "$PAL_ACTION", a.action);
    ReplaceAt(x, p, y, "$PAL_INPUT", input);
    ReplaceAt(x, p, y, "$PAL_STATUS", a.status);
    ReplaceAt(x, p, y, "$PAL_OUTPUT", output);
  }

  /** For an action that keeps no output, `$PAL_OUTPUT` stays in the text. */
  lemma ExpandKeepsOutput(x: string, y: string, a: ActionData, input: string, output: string)
    requires !a.output
    requires !Contains(x, "$PAL_") && !Contains(y, "$PAL_")
    ensures Expand(x + "$PAL_OUTPUT" + y, a, input, output) == x + "$PAL_OUTPUT" + y
  {
    var p := "$PAL_OUTPUT";
    ReplaceAt(x, p, y, "$PAL_GROUP", a.group);
    ReplaceAt(x, p, y, "$PAL_ACTION", a.action);
    ReplaceAt(x, p, y, "$PAL_INPUT", input);
    ReplaceAt(x, p, y, "$PAL_STATUS", a.status);
  }

  /** The record `registerActionDB` writes, when it writes one: key and value
      expanded from the templates of `Register`, the secret flag copied;
      templates without placeholders are stored as they are. */
  function Registered(a: ActionData, output: string, input: string): (r: Option<DBSet>)
    ensures r.None? <==> a.register.key == ""
    ensures r.Some? ==> r.value.secret == a.register.secret
    ensures r.Some? && !Contains(a.register.key, "$PAL_") && !Contains(a.register.value, "$PAL_") ==>
              r.value == a.register
  {
    if a.register.key == "" then None
    else Some(DBSet(Expand(a.register.key, a, input, output), Expand(a.register.value, a, input, output),
                    a.register.secret))
  }

  /** `registerActionDB`: writes the expanded record; nothing is written when
      there is no key template, and the store's refusals (a reserved key,
      the empty key or one of Badger's own keys) are only logged. */
  method RegisterActionDB(store: Store, a: ActionData, output: string, input: string)
    requires store.Valid()
    modifies store
    ensures store.Valid()
    ensures Registered(a, output, input).None? ==> store.entries == old(store.entries)
    ensures Registered(a, output, input).Some? ==>
              var d := Registered(a, output, input).value;
              if Refused(d.key) then store.entries == old(store.entries)
              else store.entries == old(store.entries)[d.key := Record(d)] && Lookup(store.entries, d.key) == Ok(d)
  {
    var key := a.register.key;
    if key == "" {
      return;
    }
    key := Expand(key, a, input, output);
    var value := Expand(a.register.value, a, input, output);
    var dbSet := DBSet(key, value, a.register.secret);
    var err := store.Put(dbSet);
  }

  // ---------------------------------------------------------------------
  // Command line

  /** The settings `cmdString` reads: `global_container_cmd`,
      `http_upload_dir`, `global_cmd_prefix`. */
  datatype CmdConfig = CmdConfig(containerCmd: string, uploadDir: string, cmdPrefix: string)

  /** One `-e NAME='value'` option of a containerised run. */
  function EnvVar(name: string, value: string): string {
    "-e " + name + "='" + value + "'"
  }

  /** One `export NAME='value';` of a plain run. */
  function ExportVar(name: string, value: string): string {
    "export " + name + "='" + value + "';"
  }

  /** The `-e` options of a containerised run, separated by spaces. */
  function ContainerEnv(a: ActionData, input: string, req: string, cfg: CmdConfig): string {
    EnvVar("PAL_UPLOAD_DIR", cfg.uploadDir) + " " + EnvVar("PAL_GROUP", a.group) + " " + EnvVar("PAL_ACTION", a.action)
    + " " + EnvVar("PAL_INPUT", input) + " " + EnvVar("PAL_REQUEST", req)
  }

  /** The `export`s in front of a plain run, separated by spaces. */
  function Exports(a: ActionData, input: string, req: string, cfg: CmdConfig): string {
    ExportVar("PAL_UPLOAD_DIR", cfg.uploadDir) + " " + ExportVar("PAL_GROUP", a.group) + " " + ExportVar("PAL_ACTION", a.action)
    + " " + ExportVar("PAL_INPUT", input) + " " + ExportVar("PAL_REQUEST", req)
  }

  /** The container command with its options, image and command prefix. */
  function ContainerRun(a: ActionData, input: string, req: string, cfg: CmdConfig): string {
    cfg.containerCmd + " run --rm " + ContainerEnv(a, input, req, cfg) + " " + a.container.options + " "
    + a.container.image + " " + cfg.cmdPrefix
  }

  /** The part of a containerised command line before the action's command. */
  function ContainerHead(a: ActionData, input: string, req: string, cfg: CmdConfig): string {
    (if a.container.sudo then "sudo" else "") + " " + ContainerRun(a, input, req, cfg)
  }

  /** `cmdString`: the containerised command line when the action names a
      container image, otherwise the command after `export`s of the
      `PAL_*` variables. Either way the action's command comes last: quoted
      inside a container, after a space otherwise. */
  function CmdString(a: ActionData, input: string, req: string, cfg: CmdConfig): (r: string)
    ensures a.container.image != "" ==> HasSuffix(r, " '" + a.cmd + "'")
    ensures a.container.image == "" ==> HasSuffix(r, " " + a.cmd)
  {
    if a.container.image != "" then
      var h := ContainerHead(a, input, req, cfg);
      assert h + " '" + a.cmd + "'" == h + (" '" + a.cmd + "'");
      h + " '" + a.cmd + "'"
    else
      var h := Exports(a, input, req, cfg);
      assert h + " " + a.cmd == h + (" " + a.cmd);
      h + " " + a.cmd
  }

  /** A containerised command line starts with `sudo` exactly when the
      container asks for it. */
  lemma CmdStringSudo(a: ActionData, input: string, req: string, cfg: CmdConfig)
    requires a.container.image != ""
    ensures HasPrefix(CmdString(a, input, req, cfg), "sudo ") <==> a.container.sudo
  {
    var r := CmdString(a, input, req, cfg);
    var rest := ContainerRun(a, input, req, cfg) + " '" + a.cmd + "'";
    var h := (if a.container.sudo then "sudo" else "") + " ";
    assert r == h + rest;
    if a.container.sudo {
      assert h == "sudo ";
      assert r[..5] == h;
    } else {
      assert h == " ";
      assert r[0] == ' ';
      assert r[..5][0] != "sudo "[0];
    }
  }

  /** A plain command line starts with the export of the upload directory. */
  lemma CmdStringExportsFirst(a: ActionData, input: string, req: string, cfg: CmdConfig)
    requires a.container.image == ""
    ensures HasPrefix(CmdString(a, input, req, cfg), ExportVar("PAL_UPLOAD_DIR", cfg.uploadDir))
  {
    var e := Exports(a, input, req, cfg);
    ExportsStartWithUploadDir(a, input, req, cfg);
    assert CmdString(a, input, req, cfg) == e + (" " + a.cmd);
    PrefixExtends(e, " " + a.cmd, ExportVar("PAL_UPLOAD_DIR", cfg.uploadDir));
  }

  /** The `export` of the upload directory leads the list of exports. */
  lemma ExportsStartWithUploadDir(a: ActionData, input: string, req: string, cfg: CmdConfig)
    ensures HasPrefix(Exports(a, input, req, cfg), ExportVar("PAL_UPLOAD_DIR", cfg.uploadDir))
  {
    var p := ExportVar("PAL_UPLOAD_DIR", cfg.uploadDir);
    assert p[..|p|] == p;
    var g, act := ExportVar("PAL_GROUP", a.group), ExportVar("PAL_ACTION", a.action);
    var inp, rq := ExportVar("PAL_INPUT", input), ExportVar("PAL_REQUEST", req);
    PrefixExtends(p, " ", p);
    PrefixExtends(p + " ", g, p);
    PrefixExtends(p + " " + g, " ", p);
    PrefixExtends(p + " " + g + " ", act, p);
    PrefixExtends(p + " " + g + " " + act, " ", p);
    PrefixExtends(p + " " + g + " " + act + " ", inp, p);
    PrefixExtends(p + " " + g + " " + act + " " + inp, " ", p);
    PrefixExtends(p + " " + g + " " + act + " " + inp + " ", rq, p);
  }

  /** The container options contain the text `-e PAL_INPUT='<input>'`. */
  lemma EnvCarriesInput(a: ActionData, input: string, req: string, cfg: CmdConfig)
    ensures Contains(ContainerEnv(a, input, req, cfg), EnvVar("PAL_INPUT", input))
  {
    var p := EnvVar("PAL_INPUT", input);
    var before := EnvVar("PAL_UPLOAD_DIR", cfg.uploadDir) + " " + EnvVar("PAL_GROUP", a.group) + " "
                  + EnvVar("PAL_ACTION", a.action) + " ";
    var after := " " + EnvVar("PAL_REQUEST", req);
    assert ContainerEnv(a, input, req, cfg) == before + p + after;
    ContainsIn(before, p, after);
  }

  /** The container invocation contains the text `-e PAL_INPUT='<input>'`. */
  lemma RunCarriesInput(a: ActionData, input: string, req: string, cfg: CmdConfig)
    ensures Contains(ContainerRun(a, input, req, cfg), EnvVar("PAL_INPUT", input))
  {
    var p := EnvVar("PAL_INPUT", input);
    var env := ContainerEnv(a, input, req, cfg);
    var runTail := " " + a.container.options + " " + a.container.image + " " + cfg.cmdPrefix;
    assert ContainerRun(a, input, req, cfg) == (cfg.containerCmd + " run --rm ") + (env + runTail);
    EnvCarriesInput(a, input, req, cfg);
    ContainsAppend(env, runTail, p);
    ContainsPrepend(cfg.containerCmd + " run --rm ", env + runTail, p);
  }

  /** A containerised command line contains the text
      `-e PAL_INPUT='<input>'`; the shell reads it as the input only when the
      input holds no single quote. */
  lemma ContainerCarriesInput(a: ActionData, input: string, req: string, cfg: CmdConfig)
    requires a.container.image != ""
    ensures Contains(CmdString(a, input, req, cfg), EnvVar("PAL_INPUT", input))
  {
    var p := EnvVar("PAL_INPUT", input);
    var run := ContainerRun(a, input, req, cfg);
    var h := (if a.container.sudo then "sudo" else "") + " ";
    RunCarriesInput(a, input, req, cfg);
    ContainsPrepend(h, run, p);
    assert CmdString(a, input, req, cfg) == (h + run) + (" '" + a.cmd + "'");
    ContainsAppend(h + run, " '" + a.cmd + "'", p);
  }

  /** A plain command line contains the text `export PAL_INPUT='<input>';`;
      the shell reads it as the input only when the input holds no single
      quote. */
  lemma ExportsCarryInput(a: ActionData, input: string, req: string, cfg: CmdConfig)
    requires a.container.image == ""
    ensures Contains(CmdString(a, input, req, cfg), ExportVar("PAL_INPUT", input))
  {
    var r := CmdString(a, input, req, cfg);
    var p := ExportVar("PAL_INPUT", input);
    var before := ExportVar("PAL_UPLOAD_DIR", cfg.uploadDir) + " " + ExportVar("PAL_GROUP", a.group) + " "
                  + ExportVar("PAL_ACTION", a.action) + " ";
    var after := " " + ExportVar("PAL_REQUEST", req) + " " + a.cmd;
    assert r == before + p + after;
    ContainsIn(before, p, after);
  }

  // ---------------------------------------------------------------------
  // Downloads

  /** The name check of `GetFilesDownload`. */
  predicate SafeFileName(file: string) {
    !Contains(file, "/") && !Contains(file, "\\") && !Contains(file, "..")
  }

  /** `GetFilesDownload`: the path under the upload directory, or the error
      for a name that could leave it. */
  function DownloadPath(uploadDir: string, file: string): (r: Result<string, string>)
    ensures r.Ok? <==> SafeFileName(file)
    ensures r.Ok? ==> r.value == uploadDir + "/" + file
    ensures r.Err? ==> r.error == "error invalid file name: " + file
  {
    if !SafeFileName(file) then Err("error invalid file name: " + file) else Ok(uploadDir + "/" + file)
  }

  /** A name passes exactly when it holds no separator and no two dots in a
      row. */
  lemma SafeFileNameChars(file: string)
    ensures SafeFileName(file) <==>
              (forall k :: 0 <= k < |file| ==> file[k] != '/' && file[k] != '\\')
              && (forall k :: 0 <= k < |file| - 1 ==> !(file[k] == '.' && file[k + 1] == '.'))
  {
    assert "/" == ['/'] && "\\" == ['\\'] && ".." == ['.', '.'];
    ContainsChar(file, '/');
    ContainsChar(file, '\\');
    ContainsPair(file, '.', '.');
  }
}
