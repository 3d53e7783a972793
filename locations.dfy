/** What the actions see of their locations: the source directory
    (`directory.ReadDir`) and the backup repository (`repository.Repo`).
    Their implementations are not part of this model: each query is a fixed
    answer, and each call an action makes on them is recorded as a `Call`. */
module Locations {
  import opened Bytes
  import opened Consts

  /** An RPath: the connection it lives on and its path as bytes. */
  datatype Location = Location(conn: nat, path: seq<Byte>)

  /** The answers of the source directory. */
  datatype DirAnswers = DirAnswers(check: RetCode, setup: RetCode)

  /** The answers of the repository: its checks, whether a failed backup
      must be regressed, whether a regression can be forced, the outcome of
      `regress`, and the time of the current mirror (`get_mirror_time`). */
  datatype RepoAnswers = RepoAnswers(
    check: RetCode,
    setup: RetCode,
    needsRegress: bool,
    forceRegress: bool,
    regress: RetCode,
    mirrorTime: int)

  /** The calls made on the directory and the repository, in order. */
  datatype Call =
    | DirCheck | RepoCheck
    | DirSetup | RepoSetup | SetSelect
    | NeedsRegress | ForceRegress | Regress
    | GetMirrorTime
    | TouchCurrentMirror(time: int)
    | GetSelect | GetSigs(previousTime: int) | GetDiffs
    | Apply(previousTime: int)
    | RemoveCurrentMirror
    | CloseStatistics
}
