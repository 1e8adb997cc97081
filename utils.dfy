/** The action-catalogue helpers of utils/utils.go: lookup by name, the
    field selectors, the field-by-field refresh of an action from its new
    definition, and the duration format. */
module Utils {
  import opened Wrappers
  import opened Data
  import opened Text

  /** `HasAction`: scans the group and returns the first action with the
      given name, or Go's zero ActionData when there is none. */
  method HasAction(action: string, group: seq<ActionData>) returns (found: bool, e: ActionData)
    ensures found <==> action in Names(group)
    ensures found ==> FirstNamed(group, action).Some? && e == group[FirstNamed(group, action).value]
    ensures !found ==> e == ZeroAction
  {
    var i := 0;
    while i < |group|
      invariant 0 <= i <= |group|
      invariant forall j :: 0 <= j < i ==> group[j].action != action
    {
      if group[i].action == action {
        FirstNamedAt(group, action, i);
        return true, group[i];
      }
      i := i + 1;
    }
    assert action !in Names(group);
    return false, ZeroAction;
  }

  /** `GetAuthHeader`: an action demands an auth header exactly when it
      configures a non-empty one, and that header is handed back as is. */
  function GetAuthHeader(action: ActionData): (r: (bool, string))
    ensures r.0 <==> action.authHeader != ""
    ensures r.1 == action.authHeader
  {
    if action.authHeader != "" then (true, action.authHeader) else (false, "")
  }

  const ErrorCmdEmpty := "error cmd is empty for action"

  /** `GetCmd`: the command of an action, an error when it has none. */
  function GetCmd(action: ActionData): (r: Result<string, string>)
    ensures r.Err? <==> action.cmd == ""
    ensures r.Ok? ==> r.value == action.cmd
    ensures r.Err? ==> r.error == ErrorCmdEmpty
  {
    if action.cmd != "" then Ok(action.cmd) else Err(ErrorCmdEmpty)
  }

  /** `GetLastOutput`: the output of the last successful run when the action
      last succeeded, the output of the last failed run otherwise. */
  function GetLastOutput(action: ActionData): (r: string)
    ensures action.status == "success" ==> r == action.lastSuccessOutput
    ensures action.status != "success" ==> r == action.lastFailureOutput
  {
    if action.status == "success" then action.lastSuccessOutput else action.lastFailureOutput
  }

  /** The sixteen fields a reload takes from an action's new definition. */
  predicate SameDefinition(a: ActionData, b: ActionData) {
    && a.group == b.group && a.desc == b.desc && a.background == b.background
    && a.concurrent == b.concurrent && a.authHeader == b.authHeader && a.output == b.output
    && a.timeout == b.timeout && a.container == b.container && a.cmd == b.cmd
    && a.responseHeaders == b.responseHeaders && a.crons == b.crons
    && a.onError == b.onError && a.onSuccess == b.onSuccess
    && a.input == b.input && a.inputValidate == b.inputValidate && a.triggers == b.triggers
  }

  /** The other sixteen fields: the name, the fields a reload does not touch,
      and the run state the server keeps. */
  predicate SameRunState(a: ActionData, b: ActionData) {
    && a.action == b.action && a.cmdPrefix == b.cmdPrefix && a.register == b.register
    && a.image == b.image && a.gitRepo == b.gitRepo
    && a.lastRan == b.lastRan && a.lastSuccess == b.lastSuccess && a.lastFailure == b.lastFailure
    && a.lastDuration == b.lastDuration && a.lastSuccessOutput == b.lastSuccessOutput
    && a.lastFailureOutput == b.lastFailureOutput && a.runCount == b.runCount
    && a.status == b.status && a.disabled == b.disabled && a.lock == b.lock
    && a.runHistory == b.runHistory
  }

  /** `updateAction`: the stored action refreshed from its new definition.
      The result is the one action that has the new definition and the old
      run state. */
  function UpdateAction(oldAction: ActionData, newAction: ActionData): (r: ActionData)
    ensures SameDefinition(r, newAction) && SameRunState(r, oldAction)
    ensures forall x :: SameDefinition(x, newAction) && SameRunState(x, oldAction) ==> x == r
  {
    oldAction.(group := newAction.group, desc := newAction.desc, background := newAction.background,
               concurrent := newAction.concurrent, authHeader := newAction.authHeader,
               output := newAction.output, timeout := newAction.timeout,
               container := newAction.container, cmd := newAction.cmd,
               responseHeaders := newAction.responseHeaders, crons := newAction.crons,
               onError := newAction.onError, onSuccess := newAction.onSuccess,
               input := newAction.input, inputValidate := newAction.inputValidate,
               triggers := newAction.triggers)
  }

  /** Refreshing twice is refreshing with the later definition: so it does
      not matter whether a refresh starts from the stored action or from an
      earlier refresh of it. */
  lemma UpdateActionOverwrite(o: ActionData, n1: ActionData, n2: ActionData)
    ensures UpdateAction(UpdateAction(o, n1), n2) == UpdateAction(o, n2)
  {
  }

  // ---------------------------------------------------------------------
  // fmtDuration

  /** Go's integer division, which truncates toward zero. */
  function GoQuo(a: int, b: int): int
    requires b > 0
  {
    if a >= 0 then a / b else -((-a) / b)
  }

  /** Go's remainder, which takes the sign of the dividend. */
  function GoRem(a: int, b: int): int
    requires b > 0
  {
    a - b * GoQuo(a, b)
  }

  /** One part of a duration: the number followed by its unit. */
  function Part(n: nat, unit: char): string {
    Decimal(n) + [unit]
  }

  /** The parts list of `fmtDuration`, appended in the order days, hours,
      minutes, seconds; "0s" when the seconds are not positive. */
  function DurationParts(days: int, hours: int, minutes: int, secs: int): seq<string> {
    var parts := if days > 0 then [Part(days, 'd')] else [];
    var parts := if hours > 0 then parts + [Part(hours, 'h')] else parts;
    var parts := if minutes > 0 then parts + [Part(minutes, 'm')] else parts;
    if secs > 0 then parts + [Part(secs, 's')] else parts + ["0s"]
  }

  /** `fmtDuration`: whole seconds as days, hours, minutes and seconds, each of
      the first three only when it is positive, the seconds always. */
  function FmtDuration(seconds: int): (r: string)
    ensures HasSuffix(r, "s")
  {
    var parts := DurationParts(GoQuo(seconds, 86400), GoRem(GoQuo(seconds, 3600), 24),
                               GoRem(GoQuo(seconds, 60), 60), GoRem(seconds, 60));
    assert parts == parts[..|parts| - 1] + [parts[|parts| - 1]];
    Concat(parts)
  }

  /** The number of seconds one unit letter stands for. */
  function UnitSeconds(c: char): Option<nat> {
    match c
    case 'd' => Some(86400)
    case 'h' => Some(3600)
    case 'm' => Some(60)
    case 's' => Some(1)
    case _ => None
  }

  /** The number of decimal digits at the start of `s`. */
  function LeadingDigits(s: string): (n: nat)
    ensures n <= |s|
    ensures forall k :: 0 <= k < n ==> IsDigit(s[k])
    ensures n < |s| ==> !IsDigit(s[n])
  {
    if s == [] || !IsDigit(s[0]) then 0 else 1 + LeadingDigits(s[1..])
  }

  /** Reads a duration written as numbers each followed by a unit letter
      (`d`, `h`, `m` or `s`) and returns its length in seconds. */
  function ParseDuration(s: string): Option<nat>
    decreases |s|
  {
    if s == [] then Some(0)
    else
      var k := LeadingDigits(s);
      if k == 0 || k == |s| || UnitSeconds(s[k]).None? then None
      else match ParseDuration(s[k + 1..])
        case None => None
        case Some(rest) => Some(DecimalValue(s[..k]) * UnitSeconds(s[k]).value + rest)
  }

  /** Reading one part in front of a readable rest. */
  lemma {:induction false} ParsePart(n: nat, unit: char, rest: string, v: nat)
    requires UnitSeconds(unit).Some?
    requires ParseDuration(rest) == Some(v)
    ensures ParseDuration(Part(n, unit) + rest) == Some(n * UnitSeconds(unit).value + v)
  {
    var s := Part(n, unit) + rest;
    var d := Decimal(n);
    assert s[|d|] == unit;
    assert LeadingDigits(s) == |d|;
    assert s[..|d|] == d;
    assert s[|d| + 1..] == rest;
    DecimalRoundTrip(n);
  }

  lemma {:induction false} ConcatAppend(a: seq<string>, b: seq<string>)
    ensures Concat(a + b) == Concat(a) + Concat(b)
    decreases |b|
  {
    if b != [] {
      assert (a + b)[..|a + b| - 1] == a + b[..|b| - 1];
      ConcatAppend(a, b[..|b| - 1]);
    } else {
      assert a + b == a;
    }
  }

  /** The part for `n` when it is positive, nothing otherwise. */
  function OptionalPart(n: int, unit: char): string {
    if n > 0 then Part(n, unit) else ""
  }

  lemma {:induction false} ParseOptionalPart(n: int, unit: char, rest: string, v: nat)
    requires n >= 0 && UnitSeconds(unit).Some?
    requires ParseDuration(rest) == Some(v)
    ensures ParseDuration(OptionalPart(n, unit) + rest) == Some(n * UnitSeconds(unit).value + v)
  {
    if n > 0 {
      ParsePart(n, unit, rest, v);
    } else {
      assert OptionalPart(n, unit) + rest == rest;
    }
  }

  lemma {:induction false} ConcatSnoc(parts: seq<string>, x: string)
    ensures Concat(parts + [x]) == Concat(parts) + x
  {
    assert (parts + [x])[..|parts|] == parts;
  }

  /** Appending a part when its number is positive adds its text. */
  lemma {:induction false} ConcatOptional(parts: seq<string>, n: int, unit: char)
    ensures Concat(if n > 0 then parts + [Part(n, unit)] else parts) == Concat(parts) + OptionalPart(n, unit)
  {
    if n > 0 {
      ConcatSnoc(parts, Part(n, unit));
    } else {
      assert Concat(parts) + "" == Concat(parts);
    }
  }

  /** The parts joined, written as one concatenation. */
  lemma {:induction false} ConcatDurationParts(d: nat, h: nat, m: nat, s: nat)
    ensures Concat(DurationParts(d, h, m, s)) ==
      OptionalPart(d, 'd') + OptionalPart(h, 'h') + OptionalPart(m, 'm') + Part(s, 's')
  {
    var p0: seq<string> := if d > 0 then [] + [Part(d, 'd')] else [];
    var p1 := if h > 0 then p0 + [Part(h, 'h')] else p0;
    var p2 := if m > 0 then p1 + [Part(m, 'm')] else p1;
    var last := if s > 0 then Part(s, 's') else "0s";
    assert last == Part(s, 's') by {
      if s == 0 {
        assert Decimal(0) == "0";
      }
    }
    assert DurationParts(d, h, m, s) == p2 + [last];
    ConcatOptional([], d, 'd');
    ConcatOptional(p0, h, 'h');
    ConcatOptional(p1, m, 'm');
    ConcatSnoc(p2, last);
    assert Concat([]) == "";
    assert Concat(p0) == OptionalPart(d, 'd');
    assert Concat(p1) == OptionalPart(d, 'd') + OptionalPart(h, 'h');
    assert Concat(p2) == OptionalPart(d, 'd') + OptionalPart(h, 'h') + OptionalPart(m, 'm');
  }

  /** For non-negative seconds Go's truncating operators are Dafny's, and the
      four parts add back up to the whole. */
  lemma {:induction false} DurationArithmetic(seconds: nat)
    ensures GoQuo(seconds, 86400) == seconds / 86400
    ensures GoRem(GoQuo(seconds, 3600), 24) == (seconds / 3600) % 24
    ensures GoRem(GoQuo(seconds, 60), 60) == (seconds / 60) % 60
    ensures GoRem(seconds, 60) == seconds % 60
    ensures (seconds / 86400) * 86400 + ((seconds / 3600) % 24) * 3600
            + ((seconds / 60) % 60) * 60 + seconds % 60 == seconds
  {
    var q1 := seconds / 60;
    var q2 := q1 / 60;
    assert q2 == seconds / 3600;
    assert q2 / 24 == seconds / 86400;
  }

  lemma Reassociate(a: string, b: string, c: string, d: string)
    ensures a + b + c + d == a + (b + (c + d))
  {
  }

  /** The minutes and seconds parts read back as their weighted sum. */
  lemma {:induction false} ParseMinutesSeconds(m: nat, s: nat)
    ensures ParseDuration(OptionalPart(m, 'm') + Part(s, 's')) == Some(m * 60 + s)
  {
    ParseSeconds(s);
    ParseOptionalPart(m, 'm', Part(s, 's'), s);
    assert UnitSeconds('m').value == 60;
  }

  /** The four parts, written one after the other, read back as the
      weighted sum of their numbers. */
  lemma {:induction false} ParseJoinedParts(d: nat, h: nat, m: nat, s: nat)
    ensures ParseDuration(OptionalPart(d, 'd') + (OptionalPart(h, 'h') + (OptionalPart(m, 'm') + Part(s, 's'))))
            == Some(d * 86400 + h * 3600 + m * 60 + s)
  {
    var rh := OptionalPart(h, 'h') + (OptionalPart(m, 'm') + Part(s, 's'));
    ParseHoursRest(h, m, s);
    ParseOptionalPart(d, 'd', rh, h * 3600 + m * 60 + s);
    assert UnitSeconds('d').value == 86400;
  }

  /** The hours, minutes and seconds parts read back as their weighted sum. */
  lemma {:induction false} ParseHoursRest(h: nat, m: nat, s: nat)
    ensures ParseDuration(OptionalPart(h, 'h') + (OptionalPart(m, 'm') + Part(s, 's'))) == Some(h * 3600 + m * 60 + s)
  {
    ParseMinutesSeconds(m, s);
    ParseOptionalPart(h, 'h', OptionalPart(m, 'm') + Part(s, 's'), m * 60 + s);
    assert UnitSeconds('h').value == 3600;
  }

  lemma {:induction false} ParseSeconds(s: nat)
    ensures ParseDuration(Part(s, 's')) == Some(s)
  {
    assert ParseDuration("") == Some(0);
    ParsePart(s, 's', "", 0);
    assert Part(s, 's') + "" == Part(s, 's');
  }

  /** The parts list read back gives the weighted sum of its numbers. */
  lemma {:induction false} ParseDurationParts(d: nat, h: nat, m: nat, s: nat)
    ensures ParseDuration(Concat(DurationParts(d, h, m, s))) == Some(d * 86400 + h * 3600 + m * 60 + s)
  {
    ConcatDurationParts(d, h, m, s);
    Reassociate(OptionalPart(d, 'd'), OptionalPart(h, 'h'), OptionalPart(m, 'm'), Part(s, 's'));
    ParseJoinedParts(d, h, m, s);
  }

  /** Reading back a formatted duration gives the number of seconds: no two
      non-negative durations share a text. */
  lemma {:induction false} FmtDurationRoundTrip(seconds: nat)
    ensures ParseDuration(FmtDuration(seconds)) == Some(seconds)
  {
    DurationArithmetic(seconds);
    ParseDurationParts(seconds / 86400, (seconds / 3600) % 24, (seconds / 60) % 60, seconds % 60);
  }

  /** A negative number of seconds formats as "0s": truncating division
      makes every part zero or negative. */
  lemma FmtDurationNegative(seconds: int)
    requires seconds < 0
    ensures FmtDuration(seconds) == "0s"
  {
    GoNonPositive(seconds, 86400);
    GoNonPositive(seconds, 3600);
    GoNonPositive(GoQuo(seconds, 3600), 24);
    GoNonPositive(seconds, 60);
    GoNonPositive(GoQuo(seconds, 60), 60);
    NoPositivePart(GoQuo(seconds, 86400), GoRem(GoQuo(seconds, 3600), 24),
                   GoRem(GoQuo(seconds, 60), 60), GoRem(seconds, 60));
  }

  /** With no positive number the parts list is just "0s". */
  lemma NoPositivePart(d: int, h: int, m: int, s: int)
    requires d <= 0 && h <= 0 && m <= 0 && s <= 0
    ensures Concat(DurationParts(d, h, m, s)) == "0s"
  {
    assert DurationParts(d, h, m, s) == ["0s"];
    assert Concat(["0s"]) == Concat([]) + "0s";
  }

  /** Go's quotient and remainder of a non-positive number are non-positive. */
  lemma GoNonPositive(a: int, b: int)
    requires a <= 0 && b > 0
    ensures GoQuo(a, b) <= 0 && GoRem(a, b) <= 0
  {
    var q := (-a) / b;
    assert b * q <= -a;
  }

  /** The text of a non-negative duration: days, hours and minutes each
      only when positive, then the seconds, always. */
  lemma {:induction false} FmtDurationLayout(seconds: nat)
    ensures FmtDuration(seconds) ==
      OptionalPart(seconds / 86400, 'd') + OptionalPart((seconds / 3600) % 24, 'h')
      + OptionalPart((seconds / 60) % 60, 'm') + Part(seconds % 60, 's')
  {
    DurationArithmetic(seconds);
    ConcatDurationParts(seconds / 86400, (seconds / 3600) % 24, (seconds / 60) % 60, seconds % 60);
  }

  /** Under a minute only the seconds part is printed, "0s" included. */
  lemma {:induction false} FmtDurationUnderMinute(seconds: nat)
    requires seconds < 60
    ensures FmtDuration(seconds) == Decimal(seconds) + "s"
  {
    FmtDurationLayout(seconds);
    UnderMinuteArithmetic(seconds);
    assert OptionalPart(0, 'd') == "" && OptionalPart(0, 'h') == "" && OptionalPart(0, 'm') == "";
    assert "" + "" + "" + Part(seconds, 's') == Part(seconds, 's');
  }

  lemma UnderMinuteArithmetic(seconds: nat)
    requires seconds < 60
    ensures seconds / 86400 == 0 && (seconds / 3600) % 24 == 0 && (seconds / 60) % 60 == 0
    ensures seconds % 60 == seconds
  {
    assert seconds / 60 == 0;
    assert seconds / 3600 == 0;
  }
}
