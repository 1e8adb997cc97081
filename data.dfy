/** The records of data/data.go that the server keeps in its store, and the
    one lookup every part of the server uses on a group's action list:
    the first action with a given name. */
module Data {
  import opened Wrappers

  datatype Headers = Headers(header: string, value: string)

  /** A chained run: which action to trigger, with which input. */
  datatype Run = Run(group: string, action: string, input: string)

  datatype OnError = OnError(notification: string, retries: int, retryInterval: int,
                             run: seq<Run>, webhook: seq<string>)

  datatype OnSuccess = OnSuccess(notification: string, run: seq<Run>, webhook: seq<string>)

  datatype Container = Container(sudo: bool, image: string, options: string)

  /** A trigger link between two actions, recorded on both of them. */
  datatype Triggers = Triggers(originGroup: string, originAction: string,
                               triggerGroup: string, triggerAction: string,
                               triggerCondition: string, triggerInput: string)

  datatype RunHistory = RunHistory(ran: string, duration: string, status: string)

  /** A user key-value entry; `register` of an action is a template of one. */
  datatype DBSet = DBSet(key: string, value: string, secret: bool)

  datatype Notification = Notification(id: string, group: string, action: string, status: string,
                                       notification: string, notificationRcv: string)

  /** One action of a group: its definition (loaded from the action files)
      and its run state (kept by the server). */
  datatype ActionData = ActionData(
    group: string,
    desc: string,
    background: bool,
    action: string,
    concurrent: bool,
    authHeader: string,
    output: bool,
    container: Container,
    timeout: int,
    cmdPrefix: string,
    cmd: string,
    responseHeaders: seq<Headers>,
    crons: seq<string>,
    onError: OnError,
    onSuccess: OnSuccess,
    input: string,
    inputValidate: string,
    register: DBSet,
    image: string,
    gitRepo: string,
    triggers: seq<Triggers>,
    lastRan: string,
    lastSuccess: string,
    lastFailure: string,
    lastDuration: string,
    lastSuccessOutput: string,
    lastFailureOutput: string,
    runCount: int,
    status: string,
    disabled: bool,
    lock: bool,
    runHistory: seq<RunHistory>)

  /** The action catalogue: group name to its actions, in order. */
  type Groups = map<string, seq<ActionData>>

  /** Go's zero value of ActionData, returned when a lookup finds nothing. */
  const ZeroAction: ActionData :=
    ActionData("", "", false, "", false, "", false, Container(false, "", ""), 0, "", "", [], [],
               OnError("", 0, 0, [], []), OnSuccess("", [], []), "", "", DBSet("", "", false), "", "",
               [], "", "", "", "", "", "", 0, "", false, false, [])

  /** The names of the actions in a list. */
  function Names(s: seq<ActionData>): (names: set<string>)
    ensures forall a :: a in s ==> a.action in names
    ensures forall n :: n in names ==> exists a :: a in s && a.action == n
  {
    set a | a in s :: a.action
  }

  /** The index of the first action of `s` called `name`, if any. */
  function FirstNamed(s: seq<ActionData>, name: string): (r: Option<nat>)
    ensures r.Some? ==> r.value < |s| && s[r.value].action == name
    ensures r.Some? ==> forall j :: 0 <= j < r.value ==> s[j].action != name
    ensures r.None? <==> name !in Names(s)
  {
    if s == [] then None
    else if s[0].action == name then Some(0)
    else match FirstNamed(s[1..], name)
      case None => None
      case Some(i) => Some(i + 1)
  }

  /** An index holding `name` with no earlier entry holding it is the first. */
  lemma FirstNamedAt(s: seq<ActionData>, name: string, i: nat)
    requires i < |s| && s[i].action == name
    requires forall k :: 0 <= k < i ==> s[k].action != name
    ensures FirstNamed(s, name) == Some(i)
  {
    assert s[i] in s;
    assert name in Names(s);
  }

  /** Every action of the table keeps at most `limit` runs in its history. */
  predicate HistoryWithin(groups: Groups, limit: nat) {
    forall g, a :: g in groups && a in groups[g] ==> |a.runHistory| <= limit
  }
}
