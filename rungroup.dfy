/** The gate of `RunGroup` in routes/routes.go: what a run request is
    answered with before any command runs, how its input is resolved, and
    the lock that keeps a non-concurrent action to one run at a time. The
    authentication check and input validation are parameters. */
module Gate {
  import opened Wrappers
  import opened Data
  import opened Text
  import opened Utils
  import opened Db
  import opened Routes

  const ErrorGroup := "error group invalid"
  const ErrorAction := "error invalid action"
  const ErrorAuth := "error unauthorized"
  const ErrorNotReady := "error not ready"
  const ErrorNoOutput := "error output not enabled"
  const ErrorDisabled := "error action is disabled"
  const ErrorValidation := "error with input validation: "
  const LoginPage := "/v1/pal/ui/login"

  /** The parts of a run request the gate reads. */
  datatype Request = Request(post: bool, body: string, query: map<string, string>)

  /** The outcome of the authentication step for an action with an auth
      header: the header or a UI session matched, nothing matched, or a UI
      request without a session. */
  datatype AuthCheck = Passed | Unauthorized | ToLogin

  /** A response, or the go-ahead to run the action with its resolved input
      and its command line. */
  datatype Reply = Reply(status: int, body: string) | Start(action: ActionData, input: string)

  /** `c.QueryParam`: the parameter's value, empty when it is absent. */
  function QueryParam(req: Request, key: string): string {
    if key in req.query then req.query[key] else ""
  }

  /** The input before trimming: the body of a POST, the `input` parameter
      otherwise. */
  function RawInput(req: Request): string {
    if req.post then req.body else QueryParam(req, "input")
  }

  /** The input of the run: the request's, or the action's default when the
      request brings none, with surrounding white space removed. */
  function ResolveInput(req: Request, a: ActionData): (input: string)
    ensures input != [] ==> !IsSpace(input[0]) && !IsSpace(input[|input| - 1])
  {
    TrimSpace(if RawInput(req) == "" then a.input else RawInput(req))
  }

  /** A request that brings only white space does not fall back to the
      default: the fallback is decided before trimming. */
  lemma BlankInputNotReplaced(req: Request, a: ActionData)
    requires RawInput(req) != ""
    requires forall k :: 0 <= k < |RawInput(req)| ==> IsSpace(RawInput(req)[k])
    ensures ResolveInput(req, a) == ""
  {
    TrimSpaceAllSpace(RawInput(req));
  }

  /** The request asks for a stored output instead of a run. */
  predicate AsksLast(req: Request) {
    QueryParam(req, "last_output") == "true" || QueryParam(req, "last_success") == "true"
    || QueryParam(req, "last_failure") == "true"
  }

  /** The answer to a request for a stored output: the last output, the last
      success's or the last failure's, in that order of precedence; only for
      an action that keeps its output. */
  function LastReply(a: ActionData, req: Request): Reply {
    if !a.output then Reply(400, ErrorNoOutput)
    else if QueryParam(req, "last_output") == "true" then Reply(200, GetLastOutput(a))
    else if QueryParam(req, "last_success") == "true" then Reply(200, a.lastSuccessOutput)
    else Reply(200, a.lastFailureOutput)
  }

  /** The last two steps of the gate: input validation, then the lock. */
  function Admit(a: ActionData, input: string, validate: (string, string) -> Option<string>,
                 reqJson: string, cfg: CmdConfig): Reply
  {
    match validate(input, a.inputValidate)
    case Some(e) => Reply(400, ErrorValidation + e)
    case None =>
      if !a.concurrent && a.lock then Reply(429, ErrorNotReady)
      else Start(a.(cmd := CmdString(a, input, reqJson, cfg)), input)
  }

  /** The answer for a known action `a`. */
  function Answer(a: ActionData, req: Request, auth: AuthCheck,
                  validate: (string, string) -> Option<string>, reqJson: string, cfg: CmdConfig): Reply
  {
    if a.authHeader != "" && auth == ToLogin then Reply(303, LoginPage)
    else if a.authHeader != "" && auth == Unauthorized then Reply(401, ErrorAuth)
    else if AsksLast(req) then LastReply(a, req)
    else if a.disabled then Reply(400, ErrorDisabled)
    else Admit(a, ResolveInput(req, a), validate, reqJson, cfg)
  }

  /** The answer of `RunGroup` to a request for `action` of `group`, given
      the group's stored actions, up to the point where the command runs:
      a missing group name, then a missing or unknown action name, is a bad
      request; a run only ever starts for a named group and a known action. */
  function Decide(group: string, action: string, actions: seq<ActionData>, req: Request, auth: AuthCheck,
                  validate: (string, string) -> Option<string>, reqJson: string, cfg: CmdConfig): (r: Reply)
    ensures group == "" ==> r == Reply(400, ErrorGroup)
    ensures group != "" && (action == "" || action !in Names(actions)) ==> r == Reply(400, ErrorAction)
    ensures r.Start? ==> group != "" && action in Names(actions)
  {
    if group == "" then Reply(400, ErrorGroup)
    else if action == "" then Reply(400, ErrorAction)
    else match FirstNamed(actions, action)
      case None => Reply(400, ErrorAction)
      case Some(i) => Answer(actions[i], req, auth, validate, reqJson, cfg)
  }

  /** A request passes the gate only for a known, enabled action that is not
      already running alone, with input that validates; it then runs the
      first action of that name with the resolved input. */
  lemma StartRequires(group: string, action: string, actions: seq<ActionData>, req: Request, auth: AuthCheck,
                      validate: (string, string) -> Option<string>, reqJson: string, cfg: CmdConfig)
    requires Decide(group, action, actions, req, auth, validate, reqJson, cfg).Start?
    ensures group != "" && FirstNamed(actions, action).Some?
    ensures var a := actions[FirstNamed(actions, action).value];
            var r := Decide(group, action, actions, req, auth, validate, reqJson, cfg);
            && !a.disabled
            && (a.concurrent || !a.lock)
            && (a.authHeader == "" || auth == Passed)
            && r.input == ResolveInput(req, a)
            && validate(r.input, a.inputValidate).None?
            && r.action == a.(cmd := CmdString(a, r.input, reqJson, cfg))
  {
    var i := FirstNamed(actions, action).value;
    assert Decide(group, action, actions, req, auth, validate, reqJson, cfg)
        == Answer(actions[i], req, auth, validate, reqJson, cfg);
    AnswerStarts(actions[i], req, auth, validate, reqJson, cfg);
  }

  /** The answer for a known action starts it only past every check. */
  lemma AnswerStarts(a: ActionData, req: Request, auth: AuthCheck,
                     validate: (string, string) -> Option<string>, reqJson: string, cfg: CmdConfig)
    requires Answer(a, req, auth, validate, reqJson, cfg).Start?
    ensures var r := Answer(a, req, auth, validate, reqJson, cfg);
            && !a.disabled
            && (a.concurrent || !a.lock)
            && (a.authHeader == "" || auth == Passed)
            && r.input == ResolveInput(req, a)
            && validate(r.input, a.inputValidate).None?
            && r.action == a.(cmd := CmdString(a, r.input, reqJson, cfg))
  {
  }

  /** A request that reaches the lock check is refused with 429 exactly when
      the action is not concurrent and already locked. */
  lemma RefusedWhenLocked(group: string, action: string, actions: seq<ActionData>, req: Request, auth: AuthCheck,
                          validate: (string, string) -> Option<string>, reqJson: string, cfg: CmdConfig, i: nat)
    requires group != "" && action != "" && FirstNamed(actions, action) == Some(i)
    requires actions[i].authHeader == "" || auth == Passed
    requires !AsksLast(req)
    requires !actions[i].disabled
    requires validate(ResolveInput(req, actions[i]), actions[i].inputValidate).None?
    ensures (Decide(group, action, actions, req, auth, validate, reqJson, cfg) == Reply(429, ErrorNotReady))
              == (!actions[i].concurrent && actions[i].lock)
    ensures Decide(group, action, actions, req, auth, validate, reqJson, cfg).Start?
              == (actions[i].concurrent || !actions[i].lock)
  {
  }

  /** The lock as intended: once a non-concurrent action has been let
      through and its flag set in the list it is read from, the same request
      is refused until the lock is released. */
  lemma SecondRunRefused(group: string, action: string, actions: seq<ActionData>, req: Request, auth: AuthCheck,
                         validate: (string, string) -> Option<string>, reqJson: string, cfg: CmdConfig)
    requires Decide(group, action, actions, req, auth, validate, reqJson, cfg).Start?
    requires !Decide(group, action, actions, req, auth, validate, reqJson, cfg).action.concurrent
    ensures Decide(group, action, ReplaceNamed(actions, LockedCopy(actions, action, true)), req, auth, validate, reqJson, cfg)
              == Reply(429, ErrorNotReady)
  {
    StartRequires(group, action, actions, req, auth, validate, reqJson, cfg);
    var i := FirstNamed(actions, action).value;
    LockSetsFlag(actions, action, true, i);
    var locked := ReplaceNamed(actions, LockedCopy(actions, action, true));
    assert Decide(group, action, actions, req, auth, validate, reqJson, cfg)
           == Answer(actions[i], req, auth, validate, reqJson, cfg);
    assert Decide(group, action, locked, req, auth, validate, reqJson, cfg)
           == Answer(locked[i], req, auth, validate, reqJson, cfg);
    AnswerLocked(actions[i], req, auth, validate, reqJson, cfg);
  }

  /** An action read from a valid store is never locked, since the encoding
      does not keep the flag: a request is never refused as not ready. */
  lemma NeverNotReady(entries: map<string, Value>, group: string, action: string, req: Request, auth: AuthCheck,
                      validate: (string, string) -> Option<string>, reqJson: string, cfg: CmdConfig)
    requires ValidEntries(entries)
    ensures Decide(group, action, StoredActions(entries, group), req, auth, validate, reqJson, cfg)
              != Reply(429, ErrorNotReady)
  {
    var actions := StoredActions(entries, group);
    if group != "" && action != "" && FirstNamed(actions, action).Some? {
      var i := FirstNamed(actions, action).value;
      StoredUnlocked(entries);
      assert actions == StoredGroups(entries)[group];
      UnlockedNotRefused(actions[i], req, auth, validate, reqJson, cfg);
    }
  }

  /** An unlocked action is never refused as not ready. */
  lemma UnlockedNotRefused(a: ActionData, req: Request, auth: AuthCheck,
                           validate: (string, string) -> Option<string>, reqJson: string, cfg: CmdConfig)
    requires !a.lock
    ensures Answer(a, req, auth, validate, reqJson, cfg) != Reply(429, ErrorNotReady)
  {
  }

  /** The lock as written: after `RunGroup` let a non-concurrent action
      through and called `lock`, the group as stored answers the same
      request exactly as before, so a second run starts while the first is
      still going. */
  lemma AsWrittenSecondRunStarts(entries: map<string, Value>, group: string, action: string, req: Request,
                                 auth: AuthCheck, validate: (string, string) -> Option<string>, reqJson: string,
                                 cfg: CmdConfig)
    requires ValidEntries(entries)
    requires Decide(group, action, StoredActions(entries, group), req, auth, validate, reqJson, cfg).Start?
    requires !Decide(group, action, StoredActions(entries, group), req, auth, validate, reqJson, cfg).action.concurrent
    ensures Decide(group, action,
                   EncodedActions(ReplaceNamed(StoredActions(entries, group),
                                               LockedCopy(StoredActions(entries, group), action, true))),
                   req, auth, validate, reqJson, cfg)
            == Decide(group, action, StoredActions(entries, group), req, auth, validate, reqJson, cfg)
  {
    var actions := StoredActions(entries, group);
    StartRequires(group, action, actions, req, auth, validate, reqJson, cfg);
    var i := FirstNamed(actions, action).value;
    LockSetsFlag(actions, action, true, i);
    var locked := ReplaceNamed(actions, LockedCopy(actions, action, true));
    EncodedFirstNamed(locked, action);
    StoredUnlocked(entries);
    assert actions == StoredGroups(entries)[group];
    assert !actions[i].lock;
    assert EncodedActions(locked)[i] == actions[i];
  }

  /** A non-concurrent action let through is refused once its lock is set. */
  lemma AnswerLocked(a: ActionData, req: Request, auth: AuthCheck,
                     validate: (string, string) -> Option<string>, reqJson: string, cfg: CmdConfig)
    requires Answer(a, req, auth, validate, reqJson, cfg).Start? && !a.concurrent
    ensures Answer(a.(lock := true), req, auth, validate, reqJson, cfg) == Reply(429, ErrorNotReady)
  {
    assert ResolveInput(req, a.(lock := true)) == ResolveInput(req, a);
  }

  /** The checks `RunGroup` makes on a known action, in the order it makes
      them: authentication, requests for a stored output, the disabled flag,
      input resolution and validation, and the lock flag. */
  method CheckAction(actionData: ActionData, req: Request, auth: AuthCheck,
                     validate: (string, string) -> Option<string>, reqJson: string, cfg: CmdConfig)
    returns (reply: Reply)
    ensures reply == Answer(actionData, req, auth, validate, reqJson, cfg)
  {
    var (hasAuth, _) := GetAuthHeader(actionData);
    if hasAuth {
      if auth == ToLogin {
        return Reply(303, LoginPage);
      } else if auth == Unauthorized {
        return Reply(401, ErrorAuth);
      }
    }
    if QueryParam(req, "last_output") == "true" {
      if actionData.output {
        return Reply(200, GetLastOutput(actionData));
      }
      return Reply(400, ErrorNoOutput);
    }
    if QueryParam(req, "last_success") == "true" {
      if actionData.output {
        return Reply(200, actionData.lastSuccessOutput);
      }
      return Reply(400, ErrorNoOutput);
    }
    if QueryParam(req, "last_failure") == "true" {
      if actionData.output {
        return Reply(200, actionData.lastFailureOutput);
      }
      return Reply(400, ErrorNoOutput);
    }
    if actionData.disabled {
      return Reply(400, ErrorDisabled);
    }
    var input: string;
    if req.post {
      input := req.body;
    } else {
      input := QueryParam(req, "input");
    }
    if input == "" {
      input := actionData.input;
    }
    input := TrimSpace(input);
    var err := validate(input, actionData.inputValidate);
    if err.Some? {
      return Reply(400, ErrorValidation + err.value);
    }
    if !actionData.concurrent && actionData.lock {
      return Reply(429, ErrorNotReady);
    }
    reply := Start(actionData.(cmd := CmdString(actionData, input, reqJson, cfg)), input);
  }

  /** `RunGroup` up to the run itself: answers the request as `Decide` does
      and, when a non-concurrent action goes ahead, calls `lock` on it, which
      writes the group back without the flag; no other key is written. */
  method RunGroup(store: Store, group: string, action: string, req: Request, auth: AuthCheck,
                  validate: (string, string) -> Option<string>, reqJson: string, cfg: CmdConfig)
    returns (reply: Reply)
    requires store.Valid()
    modifies store
    ensures store.Valid()
    ensures reply == Decide(group, action, StoredActions(old(store.entries), group), req, auth, validate, reqJson, cfg)
    ensures reply.Start? && !reply.action.concurrent ==>
              StoredGroups(store.entries) ==
                StoredGroups(old(store.entries))[group := EncodedActions(ReplaceNamed(StoredActions(old(store.entries), group),
                                                   LockedCopy(StoredActions(old(store.entries), group), action, true)))]
    ensures reply.Start? && !reply.action.concurrent ==> store.entries.Keys == old(store.entries).Keys + {GroupsKey}
    ensures reply.Start? && !reply.action.concurrent ==>
              forall k :: k in store.entries && k != GroupsKey ==> store.entries[k] == old(store.entries)[k]
    ensures !(reply.Start? && !reply.action.concurrent) ==> store.entries == old(store.entries)
  {
    if group == "" {
      return Reply(400, ErrorGroup);
    }
    var resData := store.GetGroupActions(group);
    if action == "" {
      return Reply(400, ErrorAction);
    }
    var actionPresent, actionData := HasAction(action, resData);
    if !actionPresent {
      return Reply(400, ErrorAction);
    }
    reply := CheckAction(actionData, req, auth, validate, reqJson, cfg);
    if reply.Start? && !reply.action.concurrent {
      Lock(store, group, action, true);
    }
  }
}
