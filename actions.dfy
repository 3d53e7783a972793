/** `BaseAction`, the common part of every rdiff-backup action: validation
    of the parsed values, connection to the locations, the connection status,
    and the regression of a repository left behind by a failed backup. */
module Actions {
  import opened Common
  import opened Consts
  import opened Locations

  /** The calls `_operate_regress` makes on the repository and its result. */
  datatype Regression = Regression(code: RetCode, calls: seq<Call>)

  /** `_operate_regress(try_regress, force=force)` */
  function OperateRegress(repo: RepoAnswers, tryRegress: bool, force: bool): (r: Regression)
    ensures 1 <= |r.calls| <= 3 && r.calls[0] == NeedsRegress
  {
    if repo.needsRegress then
      if !tryRegress then Regression(RetCodeErr, [NeedsRegress])
      else Regression(repo.regress | RetCodeWarn, [NeedsRegress, Regress])
    else if force then
      if repo.forceRegress then Regression(repo.regress, [NeedsRegress, ForceRegress, Regress])
      else Regression(RetCodeWarn, [NeedsRegress, ForceRegress])
    else Regression(RetCodeOk, [NeedsRegress])
  }

  /** The decision table of `_operate_regress`: a repository that needs
      regressing is regressed (with a warning) or, if that is not to be
      tried, is an error; one that does not is regressed only when forced
      and forcing is possible. The repository is always asked first whether
      it needs regressing, and nothing but the regression is called. */
  lemma RegressDecisions(repo: RepoAnswers, tryRegress: bool, force: bool)
    ensures var r := OperateRegress(repo, tryRegress, force);
      && (repo.needsRegress && !tryRegress ==> r.code == RetCodeErr)
      && (repo.needsRegress && tryRegress ==> r.code == repo.regress | RetCodeWarn && HasWarning(r.code))
      && (!repo.needsRegress && force ==> r.code == if repo.forceRegress then repo.regress else RetCodeWarn)
      && (!repo.needsRegress && !force ==> r.code == RetCodeOk)
      && (Regress in r.calls <==>
          (repo.needsRegress && tryRegress) || (!repo.needsRegress && force && repo.forceRegress))
      && (ForceRegress in r.calls <==> !repo.needsRegress && force)
      && r.calls != [] && r.calls[0] == NeedsRegress
      && (forall i :: 0 <= i < |r.calls| ==> r.calls[i] in [NeedsRegress, ForceRegress, Regress])
  {
  }

  /** The error bit of a regression comes from exactly two places: a needed
      regression that is not tried, or a `regress` that reported an error. */
  lemma RegressErrorOrigin(repo: RepoAnswers, tryRegress: bool, force: bool)
    ensures var r := OperateRegress(repo, tryRegress, force);
      HasError(r.code) <==>
        (repo.needsRegress && !tryRegress) || (Regress in r.calls && HasError(repo.regress))
  {
    var r := OperateRegress(repo, tryRegress, force);
    if repo.needsRegress && tryRegress {
      assert (repo.regress | RetCodeWarn) & RetCodeErr == repo.regress & RetCodeErr;
    }
  }

  /** The parsed command line values the base action looks at. An absent
      or empty `tempdir`, and absent or empty `locations`, are alike. */
  datatype Values = Values(action: string, tempdir: Option<string>, locations: seq<string>)

  predicate TempdirGiven(v: Values)
  {
    v.tempdir.Some? && v.tempdir.value != []
  }

  /** How `format` prints a name that may be None. */
  function NameText(name: Option<string>): string
  {
    if name.None? then "None" else name.value
  }

  function ActionMismatchMessage(v: Values, name: Option<string>): string
  {
    "Action value '" + v.action + "' doesn't fit name of action class '" + NameText(name) + "'."
  }

  function MissingTempdirMessage(v: Values): string
    requires v.tempdir.Some?
  {
    "Temporary directory '" + v.tempdir.value + "' doesn't exist."
  }

  function NoSecurityMessage(name: Option<string>): string
  {
    "Action '" + NameText(name) + "' must have a security class to handle locations"
  }

  function UnconnectedMessage(location: string): string
  {
    "Location '" + location + "' couldn't be connected."
  }

  /** The error messages `connect` logs: one per location that could not be
      connected, in order. */
  function Unconnected(connected: seq<Option<Location>>, locations: seq<string>): (r: seq<string>)
    requires |connected| == |locations|
    ensures |r| <= |connected|
    ensures r == [] <==> forall i :: 0 <= i < |connected| ==> connected[i].Some?
  {
    if connected == [] then []
    else
      var n := |connected| - 1;
      var front := Unconnected(connected[..n], locations[..n]);
      assert forall i :: 0 <= i < n ==> connected[..n][i] == connected[i];
      front + if connected[n].None? then [UnconnectedMessage(locations[n])] else []
  }

  /** The first letter upper case and the others lower case (`str.capitalize`,
      for ASCII letters). */
  function Capitalize(s: string): (r: string)
    ensures |r| == |s|
    ensures s != [] ==> r[0] == Upper(s[0])
    ensures forall i :: 0 < i < |s| ==> r[i] == Lower(s[i])
  {
    if s == [] then [] else [Upper(s[0])] + seq(|s| - 1, i requires 0 <= i < |s| - 1 => Lower(s[i + 1]))
  }

  /** The same letter in upper case; anything but a lower-case letter is kept. */
  function Upper(c: char): (u: char)
    ensures 'A' <= u <= 'Z' <==> 'a' <= c <= 'z' || 'A' <= c <= 'Z'
    ensures 'a' <= c <= 'z' ==> u as int - 'A' as int == c as int - 'a' as int
    ensures !('a' <= c <= 'z') ==> u == c
  {
    if 'a' <= c <= 'z' then (c as int - 32) as char else c
  }

  /** The same letter in lower case; anything but an upper-case letter is kept. */
  function Lower(c: char): (l: char)
    ensures 'a' <= l <= 'z' <==> 'a' <= c <= 'z' || 'A' <= c <= 'Z'
    ensures 'A' <= c <= 'Z' ==> l as int - 'a' as int == c as int - 'A' as int
    ensures !('A' <= c <= 'Z') ==> l == c
  {
    if 'A' <= c <= 'Z' then (c as int + 32) as char else c
  }

  /** Changing a letter's case and back gives the letter again. */
  lemma CaseRoundTrip(c: char)
    ensures 'a' <= c <= 'z' ==> Lower(Upper(c)) == c
    ensures 'A' <= c <= 'Z' ==> Upper(Lower(c)) == c
  {
  }

  /** `get_desc`: the capitalised name; None where the name is not set
      (the AttributeError of `None.capitalize()`). */
  function GetDesc(name: Option<string>): (r: Option<string>)
    ensures r.Some? <==> name.Some?
    ensures r.Some? ==> r.value == Capitalize(name.value)
    ensures r.Some? ==> |r.value| == |name.value| && Capitalize(r.value) == r.value
  {
    if name.None? then None
    else
      CapitalizeIdempotent(name.value);
      Some(Capitalize(name.value))
  }

  /** Capitalising twice is capitalising once. */
  lemma CapitalizeIdempotent(s: string)
    ensures Capitalize(Capitalize(s)) == Capitalize(s)
  {
    var c := Capitalize(s);
    var cc := Capitalize(c);
    forall i | 0 <= i < |s|
      ensures cc[i] == c[i]
    {
      if i == 0 {
        assert Upper(Upper(s[0])) == Upper(s[0]);
      } else {
        assert Lower(Lower(s[i])) == Lower(s[i]);
      }
    }
  }

  class BaseAction {
    /** The action's name; None for the base class itself. */
    const name: Option<string>
    /** The action's security class; None if client/server is not relevant. */
    const security: Option<string>
    const values: Values
    var connStatus: RetCode
    var connectedLocations: seq<Option<Location>>

    constructor(name: Option<string>, security: Option<string>, values: Values)
      ensures this.name == name && this.security == security && this.values == values
      ensures connStatus == RetCodeOk && connectedLocations == []
    {
      this.name, this.security, this.values := name, security, values;
      connStatus, connectedLocations := RetCodeOk, [];
    }

    /** `pre_check`: all three checks run, each failing one is reported, and
        the result is OK iff none failed and ERR otherwise. `tempdirIsDir`
        is what `os.path.isdir` answers for the temporary directory. */
    method PreCheck(tempdirIsDir: bool) returns (r: RetCode, errors: seq<string>)
      ensures var actionWrong := name != Some(values.action);
        var tempdirMissing := TempdirGiven(values) && !tempdirIsDir;
        var noSecurity := security.None? && values.locations != [];
        && errors ==
          (if actionWrong then [ActionMismatchMessage(values, name)] else []) +
          (if tempdirMissing then [MissingTempdirMessage(values)] else []) +
          (if noSecurity then [NoSecurityMessage(name)] else [])
        && (r == RetCodeOk <==> !actionWrong && !tempdirMissing && !noSecurity)
        && (r == RetCodeOk || r == RetCodeErr)
    {
      r, errors := RetCodeOk, [];
      if values.action != NameText(name) || name.None? {
        errors := errors + [ActionMismatchMessage(values, name)];
        r := r | RetCodeErr;
      }
      if TempdirGiven(values) && !tempdirIsDir {
        errors := errors + [MissingTempdirMessage(values)];
        r := r | RetCodeErr;
      }
      if security.None? && values.locations != [] {
        errors := errors + [NoSecurityMessage(name)];
        r := r | RetCodeErr;
      }
    }

    /** `connect`: `connected` is the connected RPath (or None) that
        `get_connected_rpath` yields for each location. Any location that
        could not be connected is reported and sets the status to ERR. */
    method Connect(connected: seq<Option<Location>>) returns (errors: seq<string>)
      requires |connected| == |values.locations|
      modifies this`connStatus, this`connectedLocations
      ensures connectedLocations == connected
      ensures errors == Unconnected(connected, values.locations)
      ensures connStatus == if errors == [] then old(connStatus) else RetCodeErr
    {
      errors := [];
      if values.locations == [] {
        assert connected == [];
        connectedLocations := [];
        return;
      }
      connectedLocations := connected;
      var i := 0;
      while i < |connected|
        invariant 0 <= i <= |connected|
        invariant connectedLocations == connected
        invariant errors == Unconnected(connected[..i], values.locations[..i])
        invariant connStatus == if errors == [] then old(connStatus) else RetCodeErr
      {
        assert connected[..i + 1][..i] == connected[..i];
        assert values.locations[..i + 1][..i] == values.locations[..i];
        if connected[i].None? {
          errors := errors + [UnconnectedMessage(values.locations[i])];
          connStatus := RetCodeErr;
        }
        i := i + 1;
      }
      assert connected[..i] == connected && values.locations[..i] == values.locations;
    }

    /** `check`: the connection status. */
    method Check() returns (r: RetCode)
      ensures r == connStatus
    {
      r := connStatus;
    }

    /** `setup`: the process-wide preparations (current time, temporary
        directory, umask, signal handlers) are outside the model; it always
        succeeds. */
    method Setup() returns (r: RetCode)
      ensures r == RetCodeOk
    {
      r := RetCodeOk;
    }

    /** `run` of the base action does nothing and succeeds. */
    method Run() returns (r: RetCode)
      ensures r == RetCodeOk
    {
      r := RetCodeOk;
    }

    /** `is_connection_ok` */
    predicate IsConnectionOk()
      reads this
    {
      !HasError(connStatus)
    }
  }

  /** Connecting a fresh action leaves it usable exactly when every location
      was connected, and its `check` is then OK, and ERR otherwise. */
  method ConnectFresh(name: Option<string>, security: Option<string>, values: Values, connected: seq<Option<Location>>)
    returns (ok: bool, check: RetCode)
    requires |connected| == |values.locations|
    ensures ok <==> forall i :: 0 <= i < |connected| ==> connected[i].Some?
    ensures check == if ok then RetCodeOk else RetCodeErr
    ensures HasError(check) <==> exists i :: 0 <= i < |connected| && connected[i].None?
  {
    var action := new BaseAction(name, security, values);
    var _ := action.Connect(connected);
    ok := action.IsConnectionOk();
    check := action.Check();
  }
}
