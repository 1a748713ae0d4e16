/**
 * What the diff engine hands to the core: a file delta (its status and the two
 * paths) and, per callback, one hunk's four line numbers. Commits are reduced to
 * an identity and a commit time in seconds.
 */
module Diff {

  type FileName = string

  /** The status of a file delta, one value per variant git reports. */
  datatype Status =
    | Unmodified | Added | Deleted | Modified | Renamed | Copied
    | Ignored | Untracked | Typechange | Unreadable | Conflicted

  /** A zero-context hunk: 1-based starts and line counts on the old and new side. */
  datatype Hunk = Hunk(oldStart: nat, oldLines: nat, newStart: nat, newLines: nat)

  /** A file delta: the status and the paths of the old and the new side. */
  datatype Delta = Delta(status: Status, oldPath: FileName, newPath: FileName)

  /** One invocation of the hunk callback. */
  datatype HunkEvent = HunkEvent(delta: Delta, hunk: Hunk)

  /** A commit: its identity (standing for its tree) and its time in seconds since the epoch. */
  datatype Commit = Commit(id: nat, time: int)
}
