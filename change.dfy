/**
 * The change translator of git-metrics/src/change.rs: a hunk of a file delta
 * becomes positional line changes appended to a changeset. The same code is
 * repeated in src/axe/mod.rs and src/axe.rs.
 */
module Changes {

  import opened Diff

  /** A positional line operation on one file. */
  datatype Change =
    | Add(file: FileName, start: nat, length: nat)
    | Delete(file: FileName, start: nat, length: nat)
    | DeleteFile(file: FileName)
    | AddFile(file: FileName, length: nat)

  /** The statuses the translator handles; every other one is refused. */
  predicate Handled(s: Status) {
    s == Added || s == Deleted || s == Modified
  }

  /** The 0-based line at which a hunk's changes apply: the 1-based new start, or 0 for "before the first line". */
  function HunkStart(h: Hunk): nat {
    if h.newStart > 0 then h.newStart - 1 else 0
  }

  /** Total length removed by the Delete changes of a list. */
  function Removed(chs: seq<Change>): nat {
    if |chs| == 0 then 0
    else (if chs[0].Delete? then chs[0].length else 0) + Removed(chs[1..])
  }

  /** Total length inserted by the Add changes of a list. */
  function Inserted(chs: seq<Change>): nat {
    if |chs| == 0 then 0
    else (if chs[0].Add? then chs[0].length else 0) + Inserted(chs[1..])
  }

  /** The removed and inserted totals of a concatenation add up. */
  lemma {:induction false} TotalsAppend(a: seq<Change>, b: seq<Change>)
    ensures Removed(a + b) == Removed(a) + Removed(b)
    ensures Inserted(a + b) == Inserted(a) + Inserted(b)
  {
    if |a| > 0 {
      assert (a + b)[1..] == a[1..] + b;
      TotalsAppend(a[1..], b);
    } else {
      assert a + b == b;
    }
  }

  /** The changes a Modified hunk becomes: Delete of the old lines, then Add of the new ones. */
  function ModifiedChanges(file: FileName, h: Hunk): (r: seq<Change>)
    ensures |r| <= 2
    ensures forall i | 0 <= i < |r| ::
              (r[i].Add? || r[i].Delete?) && r[i].file == file && r[i].start == HunkStart(h) && r[i].length > 0
    ensures Removed(r) == h.oldLines && Inserted(r) == h.newLines
    ensures forall i, j | 0 <= i < j < |r| :: r[i].Delete? && r[j].Add?
  {
    var start := HunkStart(h);
    var oldEnd := start + h.oldLines;
    var newEnd := start + h.newLines;
    var deletes := if h.oldLines > 0 then [Delete(file, start, oldEnd - start)] else [];
    var adds := if h.newLines > 0 then [Add(file, start, newEnd - start)] else [];
    TotalsAppend(deletes, adds);
    deletes + adds
  }

  /** The file a handled delta's changes name: the new path, except for a deletion. */
  function ChangedFile(d: Delta): FileName {
    if d.status == Deleted then d.oldPath else d.newPath
  }

  /** `add_diff_hunk`'s contribution to the change list. */
  function Translate(d: Delta, h: Hunk): (r: seq<Change>)
    ensures !Handled(d.status) <==> r == [] && d.status != Modified
    ensures forall i | 0 <= i < |r| :: r[i].file == ChangedFile(d)
    ensures d.status == Added ==> r == [AddFile(d.newPath, h.newLines)]
    ensures d.status == Deleted ==> r == [DeleteFile(d.oldPath)]
    ensures d.status == Modified ==> r == ModifiedChanges(d.newPath, h)
  {
    match d.status
    case Added => [AddFile(d.newPath, h.newLines)]
    case Deleted => [DeleteFile(d.oldPath)]
    case Modified => ModifiedChanges(d.newPath, h)
    case _ => []
  }

  /** A Modified hunk with no old and no new lines contributes nothing. */
  lemma EmptyHunkNoChanges(d: Delta, h: Hunk)
    requires d.status == Modified && h.oldLines == 0 && h.newLines == 0
    ensures Translate(d, h) == []
  {
  }

  /** The changes for one snapshot transition, in the order the hunk callbacks produced them. */
  class Changeset {
    var dateTime: int
    var changes: seq<Change>

    /** `Changeset::new`: the given date and no changes. */
    constructor (dt: int)
      ensures dateTime == dt && changes == []
    {
      dateTime := dt;
      changes := [];
    }

    method ProcessAdded(d: Delta, h: Hunk) returns (ok: bool)
      modifies this
      ensures ok && dateTime == old(dateTime)
      ensures changes == old(changes) + [AddFile(d.newPath, h.newLines)]
    {
      changes := changes + [AddFile(d.newPath, h.newLines)];
      ok := true;
    }

    method ProcessDeleted(d: Delta, h: Hunk) returns (ok: bool)
      modifies this
      ensures ok && dateTime == old(dateTime)
      ensures changes == old(changes) + [DeleteFile(d.oldPath)]
    {
      changes := changes + [DeleteFile(d.oldPath)];
      ok := true;
    }

    method ProcessModified(d: Delta, h: Hunk) returns (ok: bool)
      modifies this
      ensures ok && dateTime == old(dateTime)
      ensures changes == old(changes) + ModifiedChanges(d.newPath, h)
    {
      var start := if h.newStart > 0 then h.newStart - 1 else 0;
      var oldEnd := start + h.oldLines;
      var newEnd := start + h.newLines;
      if h.oldLines > 0 {
        changes := changes + [Delete(d.newPath, start, oldEnd - start)];
      }
      if h.newLines > 0 {
        changes := changes + [Add(d.newPath, start, newEnd - start)];
      }
      ok := true;
    }

    /** Dispatch on the delta status; an unhandled status appends nothing and reports `false`. */
    method AddDiffHunk(d: Delta, h: Hunk) returns (ok: bool)
      modifies this
      ensures ok == Handled(d.status) && dateTime == old(dateTime)
      ensures changes == old(changes) + Translate(d, h)
    {
      match d.status
      case Added => ok := ProcessAdded(d, h);
      case Deleted => ok := ProcessDeleted(d, h);
      case Modified => ok := ProcessModified(d, h);
      case _ => ok := false;
    }
  }
}
