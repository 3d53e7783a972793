/** The backup action: it checks and sets up the source directory and the
    repository, regresses a repository left behind by a failed backup, and
    runs the backup with the `current_mirror` marker moved around `apply`
    so that an interrupted backup can be recognised later. */
module Backup {
  import opened Common
  import opened Bytes
  import opened Consts
  import opened Locations
  import opened Actions

  const Slash: Byte := 47

  /** `_warn_if_infinite_recursion`: a heuristic that warns when the
      repository path lies below the source path on the same connection. */
  function WarnIfInfiniteRecursion(source: Location, target: Location): (r: RetCode)
    ensures r == RetCodeOk || r == RetCodeWarn
    ensures r == RetCodeWarn <==>
      && target.conn == source.conn
      && |target.path| > |source.path| + 1
      && target.path[..|source.path| + 1] == source.path + [Slash]
  {
    if target.conn != source.conn then RetCodeOk
    else if |target.path| <= |source.path| + 1 then RetCodeOk
    else if target.path[..|source.path| + 1] != source.path + [Slash] then RetCodeOk
    else RetCodeWarn
  }

  /** A repository anywhere below the source directory is warned about. */
  lemma NestedTargetWarns(conn: nat, source: seq<Byte>, below: seq<Byte>)
    requires below != []
    ensures WarnIfInfiniteRecursion(Location(conn, source), Location(conn, source + [Slash] + below)) == RetCodeWarn
  {
    assert (source + [Slash] + below)[..|source| + 1] == source + [Slash];
  }

  /** A sibling whose name merely extends the source's last component
      (`/a/bc` next to `/a/b`) is not. */
  lemma SiblingTargetNotWarned(conn: nat, source: seq<Byte>, b: Byte, rest: seq<Byte>)
    requires b != Slash
    ensures WarnIfInfiniteRecursion(Location(conn, source), Location(conn, source + [b] + rest)) == RetCodeOk
  {
    assert (source + [b] + rest)[|source|] == b;
  }

  /** Nor is a repository on another connection, whatever its path. */
  lemma OtherConnectionNotWarned(source: Location, target: Location)
    requires source.conn != target.conn
    ensures WarnIfInfiniteRecursion(source, target) == RetCodeOk
  {
  }

  /** The calls `_operate_backup(previous_time)` makes. */
  function BackupCalls(previousTime: int, curTime: int): seq<Call>
  {
    (if previousTime != 0 then [TouchCurrentMirror(curTime)] else []) +
    [GetSelect, GetSigs(previousTime), GetDiffs, Apply(previousTime)] +
    (if previousTime != 0 then [RemoveCurrentMirror] else [TouchCurrentMirror(curTime)]) +
    [CloseStatistics]
  }

  /** With a previous backup, the new `current_mirror` marker is touched
      before `apply` and the old one removed after it; for a first backup the
      marker is only touched after `apply`. `apply` runs once, the marker is
      touched once, and statistics are closed last. */
  lemma MarkerOrder(previousTime: int, curTime: int)
    ensures var r := BackupCalls(previousTime, curTime);
      && r != [] && r[|r| - 1] == CloseStatistics
      && Apply(previousTime) in r
      && TouchCurrentMirror(curTime) in r
      && (forall i :: 0 <= i < |r| && r[i].Apply? ==> r[i] == Apply(previousTime))
      && (forall i :: 0 <= i < |r| && r[i].TouchCurrentMirror? ==> r[i] == TouchCurrentMirror(curTime))
      && (forall i, j :: 0 <= i < |r| && 0 <= j < |r| && r[i].Apply? && r[j].Apply? ==> i == j)
      && (forall i, j :: 0 <= i < |r| && 0 <= j < |r| && r[i].TouchCurrentMirror? && r[j].TouchCurrentMirror? ==> i == j)
      && (previousTime != 0 ==>
        && RemoveCurrentMirror in r
        && (forall i, j :: 0 <= i < |r| && 0 <= j < |r| && r[i].TouchCurrentMirror? && r[j].Apply? ==> i < j)
        && (forall i, j :: 0 <= i < |r| && 0 <= j < |r| && r[i].Apply? && r[j] == RemoveCurrentMirror ==> i < j))
      && (previousTime == 0 ==>
        && RemoveCurrentMirror !in r
        && (forall i, j :: 0 <= i < |r| && 0 <= j < |r| && r[i].Apply? && r[j].TouchCurrentMirror? ==> i < j))
  {
    var r := BackupCalls(previousTime, curTime);
    if previousTime != 0 {
      assert r == [TouchCurrentMirror(curTime), GetSelect, GetSigs(previousTime), GetDiffs,
                   Apply(previousTime), RemoveCurrentMirror, CloseStatistics];
    } else {
      assert r == [GetSelect, GetSigs(previousTime), GetDiffs, Apply(previousTime),
                   TouchCurrentMirror(curTime), CloseStatistics];
    }
  }

  /** `run`, once `_operate_regress` has given `regression` and the
      repository the time of its current mirror: stop on an error of the
      regression; refuse a current mirror time that is negative or not in the
      past; otherwise back up, which adds nothing to the code. */
  function RunCode(regression: Regression, mirrorTime: int, curTime: int): RetCode
  {
    var code := RetCodeOk | regression.code;
    if HasError(code) then code
    else if mirrorTime < 0 || mirrorTime >= curTime then code | RetCodeErr
    else code | RetCodeOk
  }

  /** The calls `run` makes on the repository, in order. */
  function RunCalls(regression: Regression, mirrorTime: int, curTime: int): seq<Call>
  {
    if HasError(RetCodeOk | regression.code) then regression.calls
    else if mirrorTime < 0 || mirrorTime >= curTime then regression.calls + [GetMirrorTime]
    else regression.calls + [GetMirrorTime] + BackupCalls(mirrorTime, curTime)
  }

  /** Whether a run of calls applies a backup. */
  predicate AppliesBackup(calls: seq<Call>)
  {
    exists i :: 0 <= i < |calls| && calls[i].Apply?
  }

  lemma AppliesBackupConcat(a: seq<Call>, b: seq<Call>)
    ensures AppliesBackup(a + b) <==> AppliesBackup(a) || AppliesBackup(b)
  {
    if AppliesBackup(a) {
      var i :| 0 <= i < |a| && a[i].Apply?;
      assert (a + b)[i] == a[i];
    }
    if AppliesBackup(b) {
      var i :| 0 <= i < |b| && b[i].Apply?;
      assert (a + b)[|a| + i] == b[i];
    }
    if AppliesBackup(a + b) {
      var i :| 0 <= i < |a + b| && (a + b)[i].Apply?;
      if i >= |a| {
        assert b[i - |a|] == (a + b)[i];
      } else {
        assert a[i] == (a + b)[i];
      }
    }
  }

  /** `run` applies a backup exactly when the regression went through and the
      current mirror lies in the past, and it fails exactly when it does not
      apply one. */
  lemma RunBacksUpOnlyFromThePast(repo: RepoAnswers, curTime: int)
    ensures var regression := OperateRegress(repo, true, false);
      var calls := RunCalls(regression, repo.mirrorTime, curTime);
      && (AppliesBackup(calls) <==> !HasError(regression.code) && 0 <= repo.mirrorTime < curTime)
      && (HasError(RunCode(regression, repo.mirrorTime, curTime)) <==> !AppliesBackup(calls))
  {
    var regression := OperateRegress(repo, true, false);
    var code := RetCodeOk | regression.code;
    assert code == regression.code;
    RegressDecisions(repo, true, false);
    assert !AppliesBackup(regression.calls);
    assert !AppliesBackup([GetMirrorTime]);
    AppliesBackupConcat(regression.calls, [GetMirrorTime]);
    if !HasError(code) {
      if 0 <= repo.mirrorTime < curTime {
        var calls := BackupCalls(repo.mirrorTime, curTime);
        MarkerOrder(repo.mirrorTime, curTime);
        AppliesBackupConcat(regression.calls + [GetMirrorTime], calls);
        assert (code | RetCodeOk) == code;
      } else {
        assert (code | RetCodeErr) & RetCodeErr != 0;
      }
    }
  }

  /** A needed regression is always tried by `run`, so a backup that follows
      it carries the warning of the regression. */
  lemma RunAfterRegressWarns(repo: RepoAnswers, curTime: int)
    requires repo.needsRegress
    ensures HasWarning(RunCode(OperateRegress(repo, true, false), repo.mirrorTime, curTime))
  {
    var code := RetCodeOk | OperateRegress(repo, true, false).code;
    assert code == repo.regress | RetCodeWarn;
    assert (code | RetCodeErr) & RetCodeWarn != 0;
  }

  /** The backup action. Its source directory and repository are fixed sets
      of answers; `trace` records the calls made on them. */
  class BackupAction {
    const action: BaseAction
    const dir: DirAnswers
    const repo: RepoAnswers
    /** `Time.getcurtime()` */
    const curTime: int
    /** Whether `connect` created the directory and repository objects. */
    var located: bool
    var source: Location
    var target: Location
    var trace: seq<Call>

    constructor(action: BaseAction, dir: DirAnswers, repo: RepoAnswers, curTime: int)
      ensures this.action == action && this.dir == dir && this.repo == repo && this.curTime == curTime
      ensures !located && trace == []
    {
      this.action, this.dir, this.repo, this.curTime := action, dir, repo, curTime;
      located, source, target, trace := false, Location(0, []), Location(0, []), [];
    }

    /** `connect`: the base connection, then, if it is fine, the source
        directory on the first location and the repository on the second. */
    method Connect(connected: seq<Option<Location>>) returns (errors: seq<string>)
      requires |action.values.locations| == 2 && |connected| == 2
      modifies action`connStatus, action`connectedLocations, this`located, this`source, this`target
      ensures action.connectedLocations == connected
      ensures errors == Unconnected(connected, action.values.locations)
      ensures action.connStatus == if errors == [] then old(action.connStatus) else RetCodeErr
      ensures located <==> action.IsConnectionOk()
      ensures located ==> connected[0] == Some(source) && connected[1] == Some(target)
      ensures !located ==> source == old(source) && target == old(target)
    {
      errors := action.Connect(connected);
      located := action.IsConnectionOk();
      if located {
        source := connected[0].value;
        target := connected[1].value;
      }
    }

    /** `check`: all three checks run and their codes are combined. */
    method Check() returns (r: RetCode)
      requires located
      modifies this`trace
      ensures r == action.connStatus | dir.check | repo.check
      ensures HasError(r) <==> HasError(action.connStatus) || HasError(dir.check) || HasError(repo.check)
      ensures trace == old(trace) + [DirCheck, RepoCheck]
    {
      r := action.Check();
      trace := trace + [DirCheck];
      r := r | dir.check;
      trace := trace + [RepoCheck];
      r := r | repo.check;
    }

    /** `setup`: stops at the first step reporting an error and then calls
        nothing more. Each step's code replaces the previous one, so a
        warning of the directory setup is not passed on. */
    method Setup() returns (r: RetCode)
      requires located
      modifies this`trace
      ensures HasError(dir.setup) ==> r == dir.setup && trace == old(trace) + [DirSetup]
      ensures !HasError(dir.setup) && HasError(repo.setup) ==>
        r == repo.setup && trace == old(trace) + [DirSetup, RepoSetup]
      ensures !HasError(dir.setup) && !HasError(repo.setup) ==>
        && r == repo.setup | WarnIfInfiniteRecursion(source, target)
        && trace == old(trace) + [DirSetup, RepoSetup, SetSelect]
    {
      r := action.Setup();
      if HasError(r) {
        return;
      }
      trace := trace + [DirSetup];
      r := dir.setup;
      if HasError(r) {
        return;
      }
      trace := trace + [RepoSetup];
      r := repo.setup;
      if HasError(r) {
        return;
      }
      trace := trace + [SetSelect];
      r := r | WarnIfInfiniteRecursion(source, target);
    }

    /** `_operate_backup(previous_time)`: always OK once the statistics are
        closed. */
    method OperateBackup(previousTime: int) returns (r: RetCode)
      modifies this`trace
      ensures r == RetCodeOk
      ensures trace == old(trace) + BackupCalls(previousTime, curTime)
    {
      if previousTime != 0 {
        trace := trace + [TouchCurrentMirror(curTime)];
      }
      trace := trace + [GetSelect, GetSigs(previousTime), GetDiffs, Apply(previousTime)];
      if previousTime != 0 {
        trace := trace + [RemoveCurrentMirror];
      } else {
        trace := trace + [TouchCurrentMirror(curTime)];
      }
      trace := trace + [CloseStatistics];
      r := RetCodeOk;
    }

    /** `run` */
    method Run() returns (r: RetCode)
      requires located
      modifies this`trace
      ensures r == RunCode(OperateRegress(repo, true, false), repo.mirrorTime, curTime)
      ensures trace == old(trace) + RunCalls(OperateRegress(repo, true, false), repo.mirrorTime, curTime)
    {
      ghost var start := trace;
      r := action.Run();
      if HasError(r) {
        return;
      }
      var regression := OperateRegress(repo, true, false);
      ghost var code := RetCodeOk | regression.code;
      assert code == regression.code;
      trace := trace + regression.calls;
      r := r | regression.code;
      if HasError(r) {
        return;
      }
      trace := trace + [GetMirrorTime];
      ConcatAssoc(start, regression.calls, [GetMirrorTime]);
      var previousTime := repo.mirrorTime;
      if previousTime < 0 || previousTime >= curTime {
        return r | RetCodeErr;
      }
      var backedUp := OperateBackup(previousTime);
      ConcatAssoc(start, regression.calls + [GetMirrorTime], BackupCalls(previousTime, curTime));
      r := r | backedUp;
    }
  }
}
