/** The keyed store of db/db.go. Badger is a map from keys to values; a value
    is what its JSON decodes to: a `DBSet` record under an ordinary key, the
    notification list under `pal_notifications`, the group table under
    `pal_groups`. */
module Db {
  import opened Wrappers
  import opened Data
  import opened Text
  import opened KeyOrder

  const NotificationsKey := "pal_notifications"
  const GroupsKey := "pal_groups"

  /** Badger keeps its own bookkeeping under keys with this prefix and
      refuses to set or delete such a key for a caller. */
  const BadgerPrefix := "!badger!"

  /** `getRestrictedKeys`. */
  const RestrictedKeys: seq<string> := [NotificationsKey, GroupsKey]

  /** `Put` refuses exactly the restricted keys. */
  predicate Reserved(key: string) {
    key in RestrictedKeys
  }

  /** `Dump` hides every key that starts with a restricted key. */
  predicate Restricted(key: string) {
    exists t :: 0 <= t < |RestrictedKeys| && HasPrefix(key, RestrictedKeys[t])
  }

  /** The keys `Put` refuses: the restricted keys it checks itself, and the
      empty key and Badger's own keys that the transaction refuses. */
  predicate Refused(key: string) {
    Reserved(key) || key == "" || HasPrefix(key, BadgerPrefix)
  }

  datatype Value =
    | Record(entry: DBSet)
    | NotificationList(items: seq<Notification>)
    | GroupTable(groups: Groups)

  /** What may sit under a key: the reserved keys hold their own shapes, every
      other key a record that carries that key. A stored group table holds
      no lock, since the encoding does not keep it. */
  predicate ValidEntry(key: string, v: Value) {
    if key == NotificationsKey then v.NotificationList?
    else if key == GroupsKey then v.GroupTable? && Unlocked(v.groups)
    else v.Record? && v.entry.key == key
  }

  /** The contents a store can have: no empty key, none of Badger's own
      keys, and each value of the shape its key calls for. */
  predicate ValidEntries(entries: map<string, Value>) {
    && "" !in entries
    && (forall k :: k in entries ==> !HasPrefix(k, BadgerPrefix))
    && (forall k :: k in entries ==> ValidEntry(k, entries[k]))
  }

  /** The store's own two keys are ordinary Badger keys. */
  lemma OwnKeysAllowed()
    ensures !HasPrefix(NotificationsKey, BadgerPrefix) && !HasPrefix(GroupsKey, BadgerPrefix)
  {
    assert NotificationsKey[0] != BadgerPrefix[0];
    assert GroupsKey[0] != BadgerPrefix[0];
  }

  // ---------------------------------------------------------------------
  // What the JSON encoding keeps
  //
  // Values are stored as their JSON encoding. `ActionData.Lock` is tagged
  // `json:"-"` (data/data.go:95): it is never written, and an action read
  // back has it false. Every other field survives the round trip.

  /** An action as it reads back after being stored. */
  function Encoded(a: ActionData): ActionData {
    a.(lock := false)
  }

  function EncodedActions(s: seq<ActionData>): (r: seq<ActionData>)
    ensures |r| == |s|
    ensures forall i :: 0 <= i < |s| ==> r[i] == Encoded(s[i])
  {
    seq(|s|, i requires 0 <= i < |s| => Encoded(s[i]))
  }

  function EncodedGroups(groups: Groups): (r: Groups)
    ensures r.Keys == groups.Keys
    ensures forall g :: g in groups ==> r[g] == EncodedActions(groups[g])
  {
    map g | g in groups :: EncodedActions(groups[g])
  }

  /** No action of the table is locked. */
  predicate Unlocked(groups: Groups) {
    forall g, i :: g in groups && 0 <= i < |groups[g]| ==> !groups[g][i].lock
  }

  /** A table read back from the store holds no lock. */
  lemma EncodedUnlocked(groups: Groups)
    ensures Unlocked(EncodedGroups(groups))
  {
  }

  /** The round trip changes an action only by clearing its lock. */
  lemma EncodedKeepsAllButLock(a: ActionData)
    ensures Encoded(a).(lock := a.lock) == a
    ensures !a.lock ==> Encoded(a) == a
  {
  }

  /** Storing a table that holds no lock gives back the same table. */
  lemma {:induction false} EncodedUnlockedSame(groups: Groups)
    requires Unlocked(groups)
    ensures EncodedGroups(groups) == groups
  {
    forall g | g in groups
      ensures EncodedActions(groups[g]) == groups[g]
    {
      var s := groups[g];
      forall i | 0 <= i < |s|
        ensures EncodedActions(s)[i] == s[i]
      {
        assert !groups[g][i].lock;
        EncodedKeepsAllButLock(s[i]);
      }
    }
  }

  /** Storing one group of a table that holds no lock changes only that
      group. */
  lemma EncodedUpdate(groups: Groups, group: string, actions: seq<ActionData>)
    requires Unlocked(groups)
    ensures EncodedGroups(groups[group := actions]) == groups[group := EncodedActions(actions)]
  {
    EncodedUnlockedSame(groups);
  }

  /** The round trip keeps the names, so a lookup by name finds the same
      index. */
  lemma EncodedFirstNamed(s: seq<ActionData>, name: string)
    ensures FirstNamed(EncodedActions(s), name) == FirstNamed(s, name)
  {
    var e := EncodedActions(s);
    if FirstNamed(s, name).Some? {
      FirstNamedAt(e, name, FirstNamed(s, name).value);
    }
  }

  /** The round trip keeps every run history. */
  lemma EncodedHistoryWithin(groups: Groups, limit: nat)
    requires HistoryWithin(groups, limit)
    ensures HistoryWithin(EncodedGroups(groups), limit)
  {
    forall g, a | g in EncodedGroups(groups) && a in EncodedGroups(groups)[g]
      ensures |a.runHistory| <= limit
    {
      var s := groups[g];
      var i :| 0 <= i < |EncodedActions(s)| && EncodedActions(s)[i] == a;
      assert s[i] in groups[g];
    }
  }

  /** A table read from a valid store holds no lock. */
  lemma StoredUnlocked(entries: map<string, Value>)
    requires ValidEntries(entries)
    ensures Unlocked(StoredGroups(entries))
  {
    if GroupsKey in entries {
      assert ValidEntry(GroupsKey, entries[GroupsKey]);
    }
  }

  // ---------------------------------------------------------------------
  // Decoding a stored value as a record
  //
  // `Get` decodes whatever is stored under the key into a `DBSet`. Go's
  // decoder ignores object members that name no field, matches member names
  // to the field tags `key`, `value` and `secret` ignoring case, and fails
  // when a member's value does not fit its field. The group table is an
  // object whose members are lists, so it decodes to the zero record unless
  // a group name is taken for a field; the notification list is an array,
  // which never decodes into a record.

  /** ASCII lower case, as Go's decoder compares member names. */
  function LowerAscii(c: char): char {
    if 'A' <= c <= 'Z' then (c as int + 32) as char else c
  }

  /** `name` equals `field` (which is lower case) ignoring ASCII case. */
  predicate FoldsTo(name: string, field: string) {
    |name| == |field| && forall i :: 0 <= i < |name| ==> LowerAscii(name[i]) == field[i]
  }

  /** A group name the decoder would take for a field of `DBSet`. */
  predicate NamesRecordField(name: string) {
    FoldsTo(name, "key") || FoldsTo(name, "value") || FoldsTo(name, "secret")
  }

  /** Go's zero `DBSet`. */
  const ZeroRecord := DBSet("", "", false)

  /** The group table decodes as a record when no group name is taken for a
      field. */
  predicate TableDecodes(groups: Groups) {
    forall g :: g in groups ==> !NamesRecordField(g)
  }

  // ---------------------------------------------------------------------
  // Reading the store, as functions of its contents

  /** `Get`: the value under `key` decoded as a record. A missing key and
      the notification list fail; a record comes back as stored; the group
      table comes back as the zero record unless a group name is taken for
      one of the record's fields. */
  function Lookup(entries: map<string, Value>, key: string): (r: Result<DBSet, string>)
    ensures key !in entries ==> r.Err?
    ensures key in entries && entries[key].Record? ==> r == Ok(entries[key].entry)
    ensures key in entries && entries[key].NotificationList? ==> r.Err?
    ensures key in entries && entries[key].GroupTable? ==>
              (r.Ok? <==> TableDecodes(entries[key].groups)) && (r.Ok? ==> r.value == ZeroRecord)
  {
    if key !in entries then Err("failed to get state from key: " + key)
    else match entries[key]
      case Record(d) => Ok(d)
      case NotificationList(_) => Err("failed to get state from key: " + key)
      case GroupTable(groups) =>
        if TableDecodes(groups) then Ok(ZeroRecord) else Err("failed to get state from key: " + key)
  }

  /** The stored notification list; empty when there is none. */
  function StoredNotifications(entries: map<string, Value>): seq<Notification> {
    if NotificationsKey in entries && entries[NotificationsKey].NotificationList?
    then entries[NotificationsKey].items else []
  }

  /** The stored group table; empty when there is none. */
  function StoredGroups(entries: map<string, Value>): Groups {
    if GroupsKey in entries && entries[GroupsKey].GroupTable? then entries[GroupsKey].groups else map[]
  }

  /** The actions stored for `group`; none when the group is unknown. */
  function StoredActions(entries: map<string, Value>, group: string): seq<ActionData> {
    var groups := StoredGroups(entries);
    if group in groups then groups[group] else []
  }

  /** The notifications of `group`, in order. */
  function OfGroup(items: seq<Notification>, group: string): (r: seq<Notification>)
    ensures forall n :: n in r ==> n in items && n.group == group
    ensures forall n :: n in items && n.group == group ==> n in r
  {
    if items == [] then []
    else
      var last := items[|items| - 1];
      assert items == items[..|items| - 1] + [last];
      OfGroup(items[..|items| - 1], group) + (if last.group == group then [last] else [])
  }

  /** What `GetNotifications(group)` is meant to return: every notification
      for the empty group, only those of the group otherwise. */
  function NotificationsFor(items: seq<Notification>, group: string): seq<Notification> {
    if group == "" then items else OfGroup(items, group)
  }

  /** `s` with every action called `a.action` replaced by `a`. */
  function ReplaceNamed(s: seq<ActionData>, a: ActionData): (r: seq<ActionData>)
    ensures |r| == |s|
    ensures forall i :: 0 <= i < |s| ==> r[i] == if s[i].action == a.action then a else s[i]
  {
    seq(|s|, i requires 0 <= i < |s| => if s[i].action == a.action then a else s[i])
  }

  /** The records `Dump` lists when it visits `keys` in order. */
  function DumpList(entries: map<string, Value>, keys: seq<string>): seq<DBSet> {
    if keys == [] then []
    else
      var k := keys[|keys| - 1];
      DumpList(entries, keys[..|keys| - 1])
        + (if k in entries && !Restricted(k) && entries[k].Record? then [entries[k].entry] else [])
  }

  lemma DumpListSnoc(entries: map<string, Value>, keys: seq<string>, k: string)
    ensures DumpList(entries, keys + [k]) ==
      DumpList(entries, keys) + (if k in entries && !Restricted(k) && entries[k].Record? then [entries[k].entry] else [])
  {
    assert (keys + [k])[..|keys|] == keys;
  }

  /** `Dump`: the visible records, in ascending key order. */
  ghost function DumpOf(entries: map<string, Value>): seq<DBSet> {
    DumpList(entries, SortedKeys(entries.Keys))
  }

  /** Each record listed comes from a visited key that is present, not
      restricted and holds that record. */
  lemma {:induction false} DumpListSound(entries: map<string, Value>, keys: seq<string>, d: DBSet)
    requires d in DumpList(entries, keys)
    ensures exists t :: 0 <= t < |keys| && keys[t] in entries && !Restricted(keys[t]) && entries[keys[t]] == Record(d)
    decreases |keys|
  {
    var init, k := keys[..|keys| - 1], keys[|keys| - 1];
    assert keys == init + [k];
    DumpListSnoc(entries, init, k);
    if d in DumpList(entries, init) {
      DumpListSound(entries, init, d);
      var t :| 0 <= t < |init| && init[t] in entries && !Restricted(init[t]) && entries[init[t]] == Record(d);
      assert keys[t] == init[t];
    } else {
      assert keys[|keys| - 1] == k;
    }
  }

  /** Every visited key that is present, not restricted and holds a record
      has its record listed. */
  lemma {:induction false} DumpListComplete(entries: map<string, Value>, keys: seq<string>, k: string)
    requires k in keys && k in entries && !Restricted(k) && entries[k].Record?
    ensures entries[k].entry in DumpList(entries, keys)
    decreases |keys|
  {
    var init, last := keys[..|keys| - 1], keys[|keys| - 1];
    assert keys == init + [last];
    DumpListSnoc(entries, init, last);
    if k != last {
      DumpListComplete(entries, init, k);
    }
  }

  /** Visiting keys in strictly ascending order lists the records in strictly
      ascending order of their keys. */
  lemma {:induction false} DumpListAscending(entries: map<string, Value>, keys: seq<string>)
    requires forall a, b :: 0 <= a < b < |keys| ==> KeyLessEq(keys[a], keys[b]) && keys[a] != keys[b]
    requires forall k :: k in entries ==> ValidEntry(k, entries[k])
    ensures forall i, j :: 0 <= i < j < |DumpList(entries, keys)| ==>
              KeyLessEq(DumpList(entries, keys)[i].key, DumpList(entries, keys)[j].key)
              && DumpList(entries, keys)[i].key != DumpList(entries, keys)[j].key
    decreases |keys|
  {
    if keys != [] {
      var init, k := keys[..|keys| - 1], keys[|keys| - 1];
      assert keys == init + [k];
      DumpListSnoc(entries, init, k);
      DumpListAscending(entries, init);
      var before, r := DumpList(entries, init), DumpList(entries, keys);
      if |r| > |before| {
        forall i | 0 <= i < |before|
          ensures KeyLessEq(r[i].key, k) && r[i].key != k
        {
          assert r[i] == before[i];
          DumpListSound(entries, init, before[i]);
          var t :| 0 <= t < |init| && init[t] in entries && !Restricted(init[t])
                   && entries[init[t]] == Record(before[i]);
          assert keys[t] == init[t];
          assert !Reserved(init[t]) by {
            assert HasPrefix(NotificationsKey, RestrictedKeys[0]);
            assert HasPrefix(GroupsKey, RestrictedKeys[1]);
          }
        }
        assert r[|before|].key == k by {
          assert !Reserved(k) by {
            assert HasPrefix(NotificationsKey, RestrictedKeys[0]);
            assert HasPrefix(GroupsKey, RestrictedKeys[1]);
          }
        }
      }
    }
  }

  /** `Dump` shows no key that starts with a restricted key, and each record
      it shows is the one stored under its own key. */
  lemma DumpHidesRestricted(entries: map<string, Value>, d: DBSet)
    requires forall k :: k in entries ==> ValidEntry(k, entries[k])
    requires d in DumpOf(entries)
    ensures !Restricted(d.key) && d.key in entries && entries[d.key] == Record(d)
  {
    DumpListSound(entries, SortedKeys(entries.Keys), d);
  }

  /** `Dump` shows every record whose key starts with no restricted key. */
  lemma DumpShowsVisible(entries: map<string, Value>, k: string)
    requires k in entries && !Restricted(k) && entries[k].Record?
    ensures entries[k].entry in DumpOf(entries)
  {
    SortedKeysMembers(entries.Keys);
    DumpListComplete(entries, SortedKeys(entries.Keys), k);
  }

  /** `Dump` lists its records in strictly ascending key order. */
  lemma DumpAscending(entries: map<string, Value>)
    requires forall k :: k in entries ==> ValidEntry(k, entries[k])
    ensures forall i, j :: 0 <= i < j < |DumpOf(entries)| ==>
              KeyLessEq(DumpOf(entries)[i].key, DumpOf(entries)[j].key) && DumpOf(entries)[i].key != DumpOf(entries)[j].key
  {
    var keys := SortedKeys(entries.Keys);
    forall a, b | 0 <= a < b < |keys|
      ensures KeyLessEq(keys[a], keys[b]) && keys[a] != keys[b]
    {
      SortedKeysAscending(entries.Keys, a, b);
    }
    DumpListAscending(entries, keys);
  }

  /** The restricted test is on prefixes while `Put` refuses exact keys: a key
      such as "pal_groups_x" is stored by `Put` but hidden by `Dump`. */
  lemma PrefixHiddenButStorable()
    ensures Restricted("pal_groups_x") && !Reserved("pal_groups_x")
  {
    assert HasPrefix("pal_groups_x", RestrictedKeys[1]);
  }

  /** The check `Dump` makes on each key: does it start with any of the
      restricted keys? */
  method HasRestrictedPrefix(k: string) returns (restricted: bool)
    ensures restricted <==> Restricted(k)
  {
    restricted := false;
    for j := 0 to |RestrictedKeys|
      invariant restricted <==> exists t :: 0 <= t < j && HasPrefix(k, RestrictedKeys[t])
    {
      if HasPrefix(k, RestrictedKeys[j]) {
        restricted := true;
      }
    }
  }

  // ---------------------------------------------------------------------
  // The group filter of `GetNotifications` as written
  //
  // The loop ranges over the list as it was when the loop started (a fixed
  // length over the same backing array) while each removal shifts the rest
  // of the array down by one and shortens the slice. The entry that moves
  // into a removed entry's place is never examined, and once the slice is
  // shorter than the index reached, the next removal takes a slice out of
  // range, which makes Go panic.

  /** The backing array after removing entry `i` of its first `len` entries:
      the tail moves down one place, the last entry stays where it was. */
  function RemoveAt(buf: seq<Notification>, len: nat, i: nat): (r: seq<Notification>)
    requires i < len <= |buf|
    ensures |r| == |buf|
  {
    buf[..i] + buf[i + 1..len] + buf[len - 1..]
  }

  lemma RemoveAtIndex(buf: seq<Notification>, len: nat, i: nat)
    requires i < len <= |buf|
    ensures forall k :: 0 <= k < |buf| ==> RemoveAt(buf, len, i)[k] == if i <= k < len - 1 then buf[k + 1] else buf[k]
  {
  }

  /** The loop from index `i` on, with the slice holding the first `len`
      entries of `buf`; `None` when it panics. */
  function FilterFromAsWritten(buf: seq<Notification>, len: nat, i: nat, group: string): Option<seq<Notification>>
    requires len <= |buf|
    decreases |buf| - i
  {
    if i >= |buf| then Some(buf[..len])
    else if buf[i].group == group then FilterFromAsWritten(buf, len, i + 1, group)
    else if i + 1 > len then None
    else FilterFromAsWritten(RemoveAt(buf, len, i), len - 1, i + 1, group)
  }

  /** `GetNotifications` as written, on the stored list. */
  function NotificationsForAsWritten(items: seq<Notification>, group: string): Option<seq<Notification>> {
    if group == "" then Some(items) else FilterFromAsWritten(items, |items|, 0, group)
  }

  /** `append(s[:i], s[i+1:]...)` on a slice holding the first `len` entries
      of `a`: the entries after `i` are copied one place down, in place. */
  method RemoveInPlace(a: array<Notification>, len: nat, i: nat)
    requires i < len <= a.Length
    modifies a
    ensures a[..] == RemoveAt(old(a[..]), len, i)
  {
    ghost var buf := a[..];
    var t := i;
    while t < len - 1
      invariant i <= t <= len - 1 && |buf| == a.Length
      invariant forall k :: 0 <= k < i ==> a[k] == buf[k]
      invariant forall k :: i <= k < t ==> a[k] == buf[k + 1]
      invariant forall k :: t <= k < a.Length ==> a[k] == buf[k]
    {
      a[t] := a[t + 1];
      t := t + 1;
    }
    RemoveAtIndex(buf, len, i);
    assert forall k :: 0 <= k < a.Length ==> a[..][k] == RemoveAt(buf, len, i)[k];
  }

  /** The loop as written, over the backing array itself. */
  method FilterInPlaceAsWritten(a: array<Notification>, group: string) returns (r: Option<seq<Notification>>)
    modifies a
    ensures r == FilterFromAsWritten(old(a[..]), a.Length, 0, group)
  {
    var len: nat := a.Length;
    var i := 0;
    while i < a.Length
      invariant 0 <= i <= a.Length && len <= a.Length
      invariant FilterFromAsWritten(old(a[..]), a.Length, 0, group) == FilterFromAsWritten(a[..], len, i, group)
    {
      var e := a[i];
      if e.group != group {
        if i + 1 > len {
          return None;
        }
        RemoveInPlace(a, len, i);
        len := len - 1;
      }
      i := i + 1;
    }
    return Some(a[..len]);
  }

  function Note(group: string): Notification {
    Notification("", group, "", "", "", "")
  }

  /** With one other group's notification ahead of two, the next one slips
      past the filter: two notifications of "g1" and one of "g2", filtered
      for "g2", leave the second "g1" notification in the result. */
  lemma AsWrittenKeepsOtherGroup()
    ensures NotificationsForAsWritten([Note("g1"), Note("g1"), Note("g2")], "g2") == Some([Note("g1"), Note("g2")])
    ensures NotificationsFor([Note("g1"), Note("g1"), Note("g2")], "g2") == [Note("g2")]
  {
    var buf := [Note("g1"), Note("g1"), Note("g2")];
    var buf1 := RemoveAt(buf, 3, 0);
    assert buf1 == [Note("g1"), Note("g2"), Note("g2")];
    assert buf1[..2] == [Note("g1"), Note("g2")];
    assert FilterFromAsWritten(buf1, 2, 3, "g2") == Some([Note("g1"), Note("g2")]);
    assert FilterFromAsWritten(buf1, 2, 1, "g2") == FilterFromAsWritten(buf1, 2, 2, "g2");
    assert buf[..2][..1] == buf[..1] && buf[..1][..0] == [];
    assert OfGroup(buf[..1], "g2") == [];
    assert OfGroup(buf[..2], "g2") == [];
  }

  /** Two notifications of another group make the second removal slice out
      of range: Go panics where the intended result is empty. */
  lemma AsWrittenPanics()
    ensures NotificationsForAsWritten([Note("g1"), Note("g1")], "g2") == None
    ensures NotificationsFor([Note("g1"), Note("g1")], "g2") == []
  {
    var buf := [Note("g1"), Note("g1")];
    assert RemoveAt(buf, 2, 0) == buf;
    assert buf[..1][..0] == [];
    assert OfGroup(buf[..1], "g2") == [];
  }

  // ---------------------------------------------------------------------
  // The store

  class Store {
    var entries: map<string, Value>

    ghost predicate Valid()
      reads this
    {
      ValidEntries(entries)
    }

    constructor ()
      ensures Valid() && entries == map[]
    {
      entries := map[];
    }

    /** `Get`. */
    method Get(key: string) returns (r: Result<DBSet, string>)
      ensures r == Lookup(entries, key)
    {
      if key !in entries {
        return Err("failed to get state from key: " + key);
      }
      match entries[key]
      case Record(d) =>
        r := Ok(d);
      case NotificationList(_) =>
        r := Err("failed to get state from key: " + key);
      case GroupTable(groups) =>
        var decodes := true;
        var rest := groups.Keys;
        while rest != {}
          invariant rest <= groups.Keys
          invariant decodes <==> forall g :: g in groups.Keys - rest ==> !NamesRecordField(g)
          decreases |rest|
        {
          var g :| g in rest;
          if NamesRecordField(g) {
            decodes := false;
          }
          rest := rest - {g};
        }
        r := if decodes then Ok(ZeroRecord) else Err("failed to get state from key: " + key);
    }

    /** `Put`: refuses the restricted keys, the empty key and Badger's own
        keys, leaving the store as it was; otherwise stores the record under
        its key, after which `Get` of that key returns it. */
    method Put(dbSet: DBSet) returns (r: Outcome<string>)
      requires Valid()
      modifies this
      ensures Valid()
      ensures r.Fail? <==> Refused(dbSet.key)
      ensures r.Fail? ==> entries == old(entries)
      ensures r.Pass? ==> entries == old(entries)[dbSet.key := Record(dbSet)]
      ensures r.Pass? ==> Lookup(entries, dbSet.key) == Ok(dbSet)
    {
      if Reserved(dbSet.key) {
        return Fail("failed to add value to key " + dbSet.key + " due to restricted key denied");
      }
      if dbSet.key == "" || HasPrefix(dbSet.key, BadgerPrefix) {
        return Fail("failed to update state for key: " + dbSet.key);
      }
      entries := entries[dbSet.key := Record(dbSet)];
      r := Pass;
    }

    /** `Delete`: removes the key, which need not be present; the empty key
        and Badger's own keys are refused and the store is left as it was. */
    method Delete(key: string) returns (r: Outcome<string>)
      requires Valid()
      modifies this
      ensures Valid()
      ensures r.Fail? <==> key == "" || HasPrefix(key, BadgerPrefix)
      ensures entries == old(entries) - {key}
      ensures Lookup(entries, key).Err?
    {
      if key == "" || HasPrefix(key, BadgerPrefix) {
        return Fail("failed to update state for key: " + key);
      }
      entries := entries - {key};
      r := Pass;
    }

    /** `GetNotifications`: the stored list for the empty group, only the
        notifications of the group otherwise; empty when nothing is stored. */
    method GetNotifications(group: string) returns (retrievedData: seq<Notification>)
      ensures retrievedData == NotificationsFor(StoredNotifications(entries), group)
      ensures group == "" ==> retrievedData == StoredNotifications(entries)
    {
      retrievedData := StoredNotifications(entries);
      if group != "" {
        var all := retrievedData;
        retrievedData := [];
        for i := 0 to |all|
          invariant retrievedData == OfGroup(all[..i], group)
        {
          assert all[..i + 1] == all[..i] + [all[i]];
          if all[i].group == group {
            retrievedData := retrievedData + [all[i]];
          }
        }
        assert all[..|all|] == all;
      }
    }

    /** `PutNotifications`: replaces the notification list. */
    method PutNotifications(notifications: seq<Notification>)
      requires Valid()
      modifies this
      ensures Valid()
      ensures entries == old(entries)[NotificationsKey := NotificationList(notifications)]
      ensures StoredNotifications(entries) == notifications
    {
      OwnKeysAllowed();
      entries := entries[NotificationsKey := NotificationList(notifications)];
    }

    /** `DeleteNotifications`: stores an empty notification list. */
    method DeleteNotifications()
      requires Valid()
      modifies this
      ensures Valid()
      ensures entries == old(entries)[NotificationsKey := NotificationList([])]
      ensures StoredNotifications(entries) == []
    {
      OwnKeysAllowed();
      entries := entries[NotificationsKey := NotificationList([])];
    }

    /** `GetGroups`: the stored table, empty when there is none. */
    method GetGroups() returns (groups: Groups)
      ensures groups == StoredGroups(entries)
      ensures GroupsKey !in entries ==> groups == map[]
    {
      if GroupsKey in entries && entries[GroupsKey].GroupTable? {
        groups := entries[GroupsKey].groups;
      } else {
        groups := map[];
      }
    }

    /** `PutGroups`: replaces the group table with its encoding, which
        keeps every action but not its lock. */
    method PutGroups(groups: Groups)
      requires Valid()
      modifies this
      ensures Valid()
      ensures entries == old(entries)[GroupsKey := GroupTable(EncodedGroups(groups))]
      ensures StoredGroups(entries) == EncodedGroups(groups)
    {
      OwnKeysAllowed();
      EncodedUnlocked(groups);
      entries := entries[GroupsKey := GroupTable(EncodedGroups(groups))];
    }

    /** `GetGroupActions`: the actions of one group, none when it is unknown. */
    method GetGroupActions(group: string) returns (actions: seq<ActionData>)
      ensures actions == StoredActions(entries, group)
      ensures group in StoredGroups(entries) ==> actions == StoredGroups(entries)[group]
    {
      var groups := GetGroups();
      if group in groups {
        actions := groups[group];
      } else {
        actions := [];
      }
    }

    /** `GetGroupAction`: the first action of the group with the given name,
        Go's zero ActionData when the group or the action is unknown. */
    method GetGroupAction(group: string, action: string) returns (actionData: ActionData)
      ensures FirstNamed(StoredActions(entries, group), action).Some? ==>
                actionData == StoredActions(entries, group)[FirstNamed(StoredActions(entries, group), action).value]
      ensures FirstNamed(StoredActions(entries, group), action).None? ==> actionData == ZeroAction
    {
      var groups := GetGroups();
      if group in groups {
        var v := groups[group];
        var i := 0;
        while i < |v|
          invariant 0 <= i <= |v|
          invariant forall j :: 0 <= j < i ==> v[j].action != action
        {
          if v[i].action == action {
            FirstNamedAt(v, action, i);
            return v[i];
          }
          i := i + 1;
        }
      }
      return ZeroAction;
    }

    /** `PutGroupActions`: group `group` gets `actions`, without their
        locks; every other group is left as it was. */
    method PutGroupActions(group: string, actions: seq<ActionData>)
      requires Valid()
      modifies this
      ensures Valid()
      ensures entries ==
                old(entries)[GroupsKey := GroupTable(StoredGroups(old(entries))[group := EncodedActions(actions)])]
      ensures StoredGroups(entries) == StoredGroups(old(entries))[group := EncodedActions(actions)]
    {
      var groups := GetGroups();
      StoredUnlocked(entries);
      EncodedUpdate(groups, group, actions);
      groups := groups[group := actions];
      PutGroups(groups);
    }

    /** `PutGroupAction`: every action of the group with the same name is
        overwritten, without its lock; an unknown group is stored with no
        actions. */
    method PutGroupAction(group: string, action: ActionData)
      requires Valid()
      modifies this
      ensures Valid()
      ensures StoredGroups(entries) ==
                StoredGroups(old(entries))[group := EncodedActions(ReplaceNamed(StoredActions(old(entries), group), action))]
      ensures entries.Keys == old(entries).Keys + {GroupsKey}
      ensures forall k :: k in entries && k != GroupsKey ==> entries[k] == old(entries)[k]
    {
      var groups := GetGroupActions(group);
      ghost var stored := groups;
      for i := 0 to |groups|
        invariant |groups| == |stored|
        invariant forall j :: 0 <= j < i ==> groups[j] == if stored[j].action == action.action then action else stored[j]
        invariant forall j :: i <= j < |groups| ==> groups[j] == stored[j]
      {
        if groups[i].action == action.action {
          groups := groups[i := action];
        }
      }
      assert groups == ReplaceNamed(stored, action);
      PutGroupActions(group, groups);
    }

    /** `Dump`: every record whose key starts with no restricted key, in the
        ascending key order in which the store iterates. */
    method Dump() returns (dbSetSlice: seq<DBSet>)
      ensures dbSetSlice == DumpOf(entries)
    {
      dbSetSlice := [];
      var remaining := entries.Keys;
      ghost var visited: seq<string> := [];
      while remaining != {}
        invariant remaining <= entries.Keys
        invariant SortedKeys(entries.Keys) == visited + SortedKeys(remaining)
        invariant dbSetSlice == DumpList(entries, visited)
        decreases |remaining|
      {
        var k := LeastOf(remaining);
        SortedKeysStep(remaining);
        ghost var rest := SortedKeys(remaining - {k});
        assert visited + ([k] + rest) == (visited + [k]) + rest;
        var restricted := HasRestrictedPrefix(k);
        if !restricted && entries[k].Record? {
          dbSetSlice := dbSetSlice + [entries[k].entry];
        }
        DumpListSnoc(entries, visited, k);
        visited := visited + [k];
        remaining := remaining - {k};
      }
      assert visited + [] == visited;
    }
  }
}
