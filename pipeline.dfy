/**
 * The collection steps every variant but src/ax/mod.rs shares: thinning the
 * commit list by a minimum interval, pairing consecutive trees, and turning the
 * hunks of each pair's diff into a changeset while skipping filtered files.
 */
module Pipeline {

  import opened Wrappers
  import opened Diff
  import opened Changes
  import opened Store

  // ----- thinning -----

  /** The fold that keeps a commit when it is at least `interval` after the last kept one. */
  function ThinFrom(acc: seq<Commit>, ids: seq<Commit>, interval: int): (r: seq<Commit>)
    requires |acc| > 0
    ensures |acc| <= |r| && r[..|acc|] == acc
    decreases |ids|
  {
    if |ids| == 0 then acc
    else if ids[0].time < acc[|acc| - 1].time + interval then ThinFrom(acc, ids[1..], interval)
    else ThinFrom(acc + [ids[0]], ids[1..], interval)
  }

  /** The kept commits: the fold starts from `[first]` and visits every commit, the first included. */
  function Thin(ids: seq<Commit>, interval: int): (r: seq<Commit>)
    requires |ids| > 0
    ensures |r| >= 1 && r[0] == ids[0]
  {
    ThinFrom([ids[0]], ids, interval)
  }

  /** Consecutive commits at least `interval` apart. */
  predicate Spaced(cs: seq<Commit>, interval: int) {
    forall i | 0 < i < |cs| :: cs[i].time >= cs[i - 1].time + interval
  }

  /** Thinning keeps the spacing, and keeps only commits it was given. */
  lemma {:induction false} ThinFromSpaced(acc: seq<Commit>, ids: seq<Commit>, interval: int)
    requires |acc| > 0 && Spaced(acc, interval)
    ensures Spaced(ThinFrom(acc, ids, interval), interval)
    ensures forall i | |acc| <= i < |ThinFrom(acc, ids, interval)| :: ThinFrom(acc, ids, interval)[i] in ids
    decreases |ids|
  {
    if |ids| > 0 {
      var next := if ids[0].time < acc[|acc| - 1].time + interval then acc else acc + [ids[0]];
      ThinFromSpaced(next, ids[1..], interval);
      var r := ThinFrom(acc, ids, interval);
      forall i | |acc| <= i < |r|
        ensures r[i] in ids
      {
        if i < |next| {
          assert r[i] == next[..|next|][i] == ids[0];
        } else {
          assert r[i] in ids[1..];
        }
      }
    }
  }

  /**
   * The kept commits start with the first commit and are spaced at least
   * `interval` apart; with a non-positive interval the first commit is kept twice.
   */
  lemma ThinProperties(ids: seq<Commit>, interval: int)
    requires |ids| > 0
    ensures var r := Thin(ids, interval);
            r[0] == ids[0] && Spaced(r, interval) && (forall c | c in r :: c in ids)
    ensures interval <= 0 ==> |Thin(ids, interval)| >= 2 && Thin(ids, interval)[1] == ids[0]
  {
    ThinFromSpaced([ids[0]], ids, interval);
    if interval <= 0 {
      assert [ids[0]] + [ids[0]] == [ids[0], ids[0]];
      assert Thin(ids, interval) == ThinFrom([ids[0], ids[0]], ids[1..], interval);
      assert ThinFrom([ids[0], ids[0]], ids[1..], interval)[..2] == [ids[0], ids[0]];
    }
  }

  /** Visiting one more commit appends it exactly when it is at least `interval` after the last kept one. */
  lemma {:induction false} ThinFromSnoc(acc: seq<Commit>, ids: seq<Commit>, x: Commit, interval: int)
    requires |acc| > 0
    ensures var r := ThinFrom(acc, ids, interval);
            ThinFrom(acc, ids + [x], interval) == if x.time < r[|r| - 1].time + interval then r else r + [x]
    decreases |ids|
  {
    if |ids| == 0 {
      assert ([] + [x])[1..] == [];
    } else {
      assert (ids + [x])[0] == ids[0] && (ids + [x])[1..] == ids[1..] + [x];
      var next := if ids[0].time < acc[|acc| - 1].time + interval then acc else acc + [ids[0]];
      ThinFromSnoc(next, ids[1..], x, interval);
    }
  }

  /**
   * Thinning read commit by commit: after the first `j` commits have been
   * visited, commit `j` is dropped exactly when it is less than `interval` after
   * the last kept commit, and is appended otherwise. So the kept commits after
   * the first are the commits of `ids` in order, and every commit left out lies
   * within one interval of the kept commit before it.
   */
  lemma ThinMaximal(ids: seq<Commit>, interval: int)
    requires |ids| > 0
    ensures ThinFrom([ids[0]], ids[..|ids|], interval) == Thin(ids, interval)
    ensures forall j | 0 <= j < |ids| ::
              var before := ThinFrom([ids[0]], ids[..j], interval);
              var after := ThinFrom([ids[0]], ids[..j + 1], interval);
              (ids[j].time < before[|before| - 1].time + interval ==> after == before) &&
              (ids[j].time >= before[|before| - 1].time + interval ==> after == before + [ids[j]])
  {
    assert ids[..|ids|] == ids;
    forall j | 0 <= j < |ids|
      ensures var before := ThinFrom([ids[0]], ids[..j], interval);
              var after := ThinFrom([ids[0]], ids[..j + 1], interval);
              (ids[j].time < before[|before| - 1].time + interval ==> after == before) &&
              (ids[j].time >= before[|before| - 1].time + interval ==> after == before + [ids[j]])
    {
      assert ids[..j + 1] == ids[..j] + [ids[j]];
      ThinFromSnoc([ids[0]], ids[..j], ids[j], interval);
    }
  }

  /** The thinning fold of `collect_samples`. */
  method ThinCommits(ids: seq<Commit>, interval: int) returns (commits: seq<Commit>)
    requires |ids| > 0
    ensures commits == Thin(ids, interval)
  {
    commits := [ids[0]];
    var i := 0;
    while i < |ids|
      invariant 0 <= i <= |ids| && |commits| > 0
      invariant ThinFrom(commits, ids[i..], interval) == Thin(ids, interval)
    {
      assert ids[i..][0] == ids[i] && ids[i..][1..] == ids[i + 1..];
      var last := commits[|commits| - 1];
      if ids[i].time >= last.time + interval {
        commits := commits + [ids[i]];
      }
      i := i + 1;
    }
  }

  // ----- tree pairs -----

  /** `TreeData`: a tree, named by the commit it belongs to, and that commit's time. */
  datatype TreeData = TreeData(tree: Option<nat>, dateTime: int)

  /** `[no tree at the first commit's time]` followed by the kept commits' trees. */
  function Trees(dt: int, commits: seq<Commit>): (r: seq<TreeData>)
    ensures |r| == |commits| + 1 && r[0] == TreeData(None, dt)
    ensures forall i | 0 <= i < |commits| :: r[i + 1] == TreeData(Some(commits[i].id), commits[i].time)
  {
    [TreeData(None, dt)] + seq(|commits|, i requires 0 <= i < |commits| => TreeData(Some(commits[i].id), commits[i].time))
  }

  // ----- changesets -----

  /**
   * The hunk callback over one diff, from the changes `acc`: a hunk whose file
   * (the old path) is skipped contributes nothing and the walk goes on; an
   * unsupported status makes the callback return `false`, which aborts the walk
   * (`None`).
   */
  function ChangesFrom(acc: seq<Change>, events: seq<HunkEvent>, skip: FileName -> bool): (r: Option<seq<Change>>)
    ensures r.Some? ==> |acc| <= |r.value| && r.value[..|acc|] == acc
    decreases |events|
  {
    if |events| == 0 then Some(acc)
    else
      var e := events[0];
      if skip(e.delta.oldPath) then ChangesFrom(acc, events[1..], skip)
      else if !Handled(e.delta.status) then None
      else ChangesFrom(acc + Translate(e.delta, e.hunk), events[1..], skip)
  }

  /** The events whose file is not skipped. */
  function Kept(events: seq<HunkEvent>, skip: FileName -> bool): seq<HunkEvent>
    decreases |events|
  {
    if |events| == 0 then []
    else (if skip(events[0].delta.oldPath) then [] else [events[0]]) + Kept(events[1..], skip)
  }

  /** The kept events are events of the diff whose file is not skipped. */
  lemma {:induction false} KeptFiltered(events: seq<HunkEvent>, skip: FileName -> bool)
    ensures forall i | 0 <= i < |Kept(events, skip)| ::
              Kept(events, skip)[i] in events && !skip(Kept(events, skip)[i].delta.oldPath)
    decreases |events|
  {
    if |events| > 0 {
      KeptFiltered(events[1..], skip);
      var rest := Kept(events[1..], skip);
      var r := Kept(events, skip);
      forall i | 0 <= i < |r|
        ensures r[i] in events && !skip(r[i].delta.oldPath)
      {
        if !skip(events[0].delta.oldPath) && i == 0 {
          assert r[0] == events[0];
        } else {
          var k := if skip(events[0].delta.oldPath) then i else i - 1;
          assert r[i] == rest[k];
          assert rest[k] in events[1..];
        }
      }
    }
  }

  /** Filtering a concatenation filters its two parts. */
  lemma {:induction false} KeptAppend(a: seq<HunkEvent>, b: seq<HunkEvent>, skip: FileName -> bool)
    ensures Kept(a + b, skip) == Kept(a, skip) + Kept(b, skip)
    decreases |a|
  {
    if |a| == 0 {
      assert a + b == b;
    } else {
      assert (a + b)[0] == a[0] && (a + b)[1..] == a[1..] + b;
      KeptAppend(a[1..], b, skip);
    }
  }

  /** Where event `i` lands among the kept events: the number kept before it. */
  function KeptBefore(events: seq<HunkEvent>, skip: FileName -> bool, i: nat): nat
    requires i <= |events|
  {
    |Kept(events[..i], skip)|
  }

  /**
   * Every event whose file is not skipped is kept, at the place given by the
   * events kept before it, and those places increase with the event's index:
   * the kept events are the unskipped ones, none missing, in diff order.
   */
  lemma KeptComplete(events: seq<HunkEvent>, skip: FileName -> bool)
    ensures forall i | 0 <= i < |events| && !skip(events[i].delta.oldPath) ::
              KeptBefore(events, skip, i) < |Kept(events, skip)| &&
              Kept(events, skip)[KeptBefore(events, skip, i)] == events[i]
    ensures forall i, j | 0 <= i < j <= |events| && !skip(events[i].delta.oldPath) ::
              KeptBefore(events, skip, i) < KeptBefore(events, skip, j)
  {
    forall i | 0 <= i < |events| && !skip(events[i].delta.oldPath)
      ensures KeptBefore(events, skip, i) < |Kept(events, skip)| &&
              Kept(events, skip)[KeptBefore(events, skip, i)] == events[i]
    {
      assert events == events[..i] + events[i..];
      KeptAppend(events[..i], events[i..], skip);
      assert events[i..][0] == events[i];
      assert Kept(events[i..], skip)[0] == events[i];
    }
    forall i, j | 0 <= i < j <= |events| && !skip(events[i].delta.oldPath)
      ensures KeptBefore(events, skip, i) < KeptBefore(events, skip, j)
    {
      assert events[..j] == events[..i] + events[i..j];
      KeptAppend(events[..i], events[i..j], skip);
      assert events[i..j][0] == events[i];
      assert |Kept(events[i..j], skip)| > 0;
    }
  }

  /** When no file is skipped, every event is kept. */
  lemma {:induction false} AllKept(events: seq<HunkEvent>, skip: FileName -> bool)
    requires forall i | 0 <= i < |events| :: !skip(events[i].delta.oldPath)
    ensures Kept(events, skip) == events
    decreases |events|
  {
    if |events| > 0 {
      assert forall i | 0 <= i < |events[1..]| :: events[1..][i] == events[i + 1];
      AllKept(events[1..], skip);
    }
  }

  /** Every event's translation, concatenated in order. */
  function TranslateAll(events: seq<HunkEvent>): seq<Change> {
    if |events| == 0 then [] else Translate(events[0].delta, events[0].hunk) + TranslateAll(events[1..])
  }

  /** Every event has a status the translation supports. */
  predicate AllHandled(events: seq<HunkEvent>)
    decreases |events|
  {
    |events| == 0 || (Handled(events[0].delta.status) && AllHandled(events[1..]))
  }

  /** The walk succeeds exactly when every kept event has a supported status. */
  lemma {:induction false} ChangesFromSucceeds(acc: seq<Change>, events: seq<HunkEvent>, skip: FileName -> bool)
    ensures ChangesFrom(acc, events, skip).Some? <==> AllHandled(Kept(events, skip))
    decreases |events|
  {
    if |events| > 0 {
      var e := events[0];
      var kept := Kept(events, skip);
      var rest := Kept(events[1..], skip);
      if skip(e.delta.oldPath) {
        assert kept == rest;
        ChangesFromSucceeds(acc, events[1..], skip);
      } else {
        assert kept == [e] + rest && kept[1..] == rest;
        ChangesFromSucceeds(acc + Translate(e.delta, e.hunk), events[1..], skip);
      }
    }
  }

  /** A successful walk yields the translations of the kept events, in order, after `acc`. */
  lemma {:induction false} ChangesFromValue(acc: seq<Change>, events: seq<HunkEvent>, skip: FileName -> bool)
    requires ChangesFrom(acc, events, skip).Some?
    ensures ChangesFrom(acc, events, skip).value == acc + TranslateAll(Kept(events, skip))
    decreases |events|, 1
  {
    if |events| == 0 {
      assert acc + [] == acc;
    } else if skip(events[0].delta.oldPath) {
      ChangesFromSkipped(acc, events, skip);
    } else {
      ChangesFromTranslated(acc, events, skip);
    }
  }

  /** The step of `ChangesFromValue` for a first event whose file is skipped. */
  lemma {:induction false} ChangesFromSkipped(acc: seq<Change>, events: seq<HunkEvent>, skip: FileName -> bool)
    requires |events| > 0 && skip(events[0].delta.oldPath)
    requires ChangesFrom(acc, events, skip).Some?
    ensures ChangesFrom(acc, events, skip).value == acc + TranslateAll(Kept(events, skip))
    decreases |events|, 0
  {
    assert Kept(events, skip) == Kept(events[1..], skip);
    ChangesFromValue(acc, events[1..], skip);
  }

  /** The step of `ChangesFromValue` for a first event that is translated. */
  lemma {:induction false} ChangesFromTranslated(acc: seq<Change>, events: seq<HunkEvent>, skip: FileName -> bool)
    requires |events| > 0 && !skip(events[0].delta.oldPath)
    requires ChangesFrom(acc, events, skip).Some?
    ensures ChangesFrom(acc, events, skip).value == acc + TranslateAll(Kept(events, skip))
    decreases |events|, 0
  {
    var e := events[0];
    var rest := Kept(events[1..], skip);
    assert Kept(events, skip) == [e] + rest;
    var t := Translate(e.delta, e.hunk);
    assert ChangesFrom(acc, events, skip) == ChangesFrom(acc + t, events[1..], skip);
    ChangesFromValue(acc + t, events[1..], skip);
    TranslateAllCons(e, rest);
    AppendAssoc(acc, t, TranslateAll(rest));
  }

  /** Concatenation of change lists is associative. */
  lemma AppendAssoc(a: seq<Change>, b: seq<Change>, c: seq<Change>)
    ensures a + b + c == a + (b + c)
  {
  }

  /** The translations of a list with a first event: that event's, then the rest's. */
  lemma TranslateAllCons(e: HunkEvent, rest: seq<HunkEvent>)
    ensures TranslateAll([e] + rest) == Translate(e.delta, e.hunk) + TranslateAll(rest)
  {
    assert ([e] + rest)[1..] == rest;
  }

  /** When every file is skipped, the changeset stays empty. */
  lemma AllSkippedNoChanges(events: seq<HunkEvent>, skip: FileName -> bool)
    requires forall i | 0 <= i < |events| :: skip(events[i].delta.oldPath)
    ensures ChangesFrom([], events, skip) == Some([])
  {
    NoneKept(events, skip);
    ChangesFromSucceeds([], events, skip);
    ChangesFromValue([], events, skip);
  }

  /** When every file is skipped, no event is kept. */
  lemma {:induction false} NoneKept(events: seq<HunkEvent>, skip: FileName -> bool)
    requires forall i | 0 <= i < |events| :: skip(events[i].delta.oldPath)
    ensures Kept(events, skip) == []
    decreases |events|
  {
    if |events| > 0 {
      assert forall i | 0 <= i < |events[1..]| :: events[1..][i] == events[i + 1];
      NoneKept(events[1..], skip);
    }
  }

  /** The walk over the diff between trees `i` and `i + 1`. */
  function PairChanges(trees: seq<TreeData>, diff: (Option<nat>, nat) -> seq<HunkEvent>, skip: FileName -> bool, i: nat): Option<seq<Change>>
    requires forall k | 1 <= k < |trees| :: trees[k].tree.Some?
    requires i + 1 < |trees|
  {
    ChangesFrom([], diff(trees[i].tree, trees[i + 1].tree.value), skip)
  }

  /**
   * One changeset per pair of consecutive trees, dated by the later tree;
   * `None` when the walk over some pair aborts.
   */
  function PairSteps(trees: seq<TreeData>, diff: (Option<nat>, nat) -> seq<HunkEvent>, skip: FileName -> bool): (r: Option<seq<Step>>)
    requires forall i | 1 <= i < |trees| :: trees[i].tree.Some?
    ensures r.Some? <==> forall i | 0 <= i < |trees| - 1 :: PairChanges(trees, diff, skip, i).Some?
    ensures r.Some? ==> |r.value| == if |trees| < 2 then 0 else |trees| - 1
    ensures r.Some? ==> forall i | 0 <= i < |r.value| :: r.value[i].dateTime == trees[i + 1].dateTime
  {
    if |trees| < 2 then Some([])
    else if forall i | 0 <= i < |trees| - 1 :: PairChanges(trees, diff, skip, i).Some? then
      Some(seq(|trees| - 1, i requires 0 <= i < |trees| - 1 =>
        Step(trees[i + 1].dateTime, PairChanges(trees, diff, skip, i).value)))
    else None
  }

  /** The hunks of one diff walked with the file filter into a new changeset dated `dt`. */
  method CollectChangeset(dt: int, events: seq<HunkEvent>, skip: FileName -> bool) returns (cs: Changeset)
    requires ChangesFrom([], events, skip).Some?
    ensures fresh(cs) && cs.dateTime == dt && cs.changes == ChangesFrom([], events, skip).value
  {
    cs := new Changeset(dt);
    var j := 0;
    while j < |events|
      invariant 0 <= j <= |events| && cs.dateTime == dt
      invariant ChangesFrom(cs.changes, events[j..], skip) == ChangesFrom([], events, skip)
    {
      assert events[j..][0] == events[j] && events[j..][1..] == events[j + 1..];
      var d := events[j].delta;
      if !skip(d.oldPath) {
        var ok := cs.AddDiffHunk(d, events[j].hunk);
        assert ok;
      }
      j := j + 1;
    }
  }

  /** `trees.windows(2)`: one changeset per pair, in pair order. */
  method CollectChangesets(trees: seq<TreeData>, diff: (Option<nat>, nat) -> seq<HunkEvent>, skip: FileName -> bool)
    returns (css: seq<Changeset>)
    requires forall i | 1 <= i < |trees| :: trees[i].tree.Some?
    requires PairSteps(trees, diff, skip).Some?
    ensures Steps(css) == PairSteps(trees, diff, skip).value
  {
    css := [];
    if |trees| < 2 {
      return;
    }
    var i := 1;
    while i < |trees|
      invariant 1 <= i <= |trees| && |css| == i - 1
      invariant forall j | 0 <= j < i - 1 ::
                  css[j].dateTime == trees[j + 1].dateTime && css[j].changes == PairChanges(trees, diff, skip, j).value
    {
      var before, after := trees[i - 1], trees[i];
      assert PairChanges(trees, diff, skip, i - 1).Some?;
      var cs := CollectChangeset(after.dateTime, diff(before.tree, after.tree.value), skip);
      css := css + [cs];
      i := i + 1;
    }
    ghost var steps := PairSteps(trees, diff, skip).value;
    assert |Steps(css)| == |steps|;
    forall j | 0 <= j < |steps|
      ensures Steps(css)[j] == steps[j]
    {
    }
  }

  /** The changesets collected from the kept commits' trees, `None` when a hunk walk aborts. */
  function History(ids: seq<Commit>, interval: int, diff: (Option<nat>, nat) -> seq<HunkEvent>,
                   skip: FileName -> bool): (r: Option<seq<Step>>)
    requires |ids| > 0
    ensures r.Some? ==> |r.value| == |Thin(ids, interval)|
    ensures r.Some? ==> forall i | 0 <= i < |r.value| :: r.value[i].dateTime == Thin(ids, interval)[i].time
  {
    PairSteps(Trees(ids[0].time, Thin(ids, interval)), diff, skip)
  }
}
