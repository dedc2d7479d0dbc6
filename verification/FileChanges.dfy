/**
 Changes between two scans (app/file_changes.py): the state of every file is compared with the
 snapshot of the previous scan, the differences are appended to a log, and the log keeps the
 rows of the newest runs only. `excluded` stands for the exclusion patterns.
 */
module FileChanges {
  import opened Basics

  const KEEP_RUNS := 30

  datatype Key = Key(side: string, disk: int, path: string)

  datatype FileState = FileState(
    size: int, state: string, stopped: bool, contentType: Option<string>, tmdbId: Option<int>)

  /** A row of the snapshot table. */
  datatype Shot = Shot(size: int, state: string, stopped: bool)

  datatype Change = Added | Removed | StateChanged | Stopped | Resumed

  datatype Row = Row(
    run: nat, key: Key, size: int, change: Change, state: Option<string>, previousState: Option<string>,
    contentType: Option<string>, tmdbId: Option<int>)

  datatype Log = Log(snapshot: map<Key, Shot>, changes: seq<Row>)

  // ---------------------------------------------------------------- one comparison

  function ShotsOf(current: map<Key, FileState>): map<Key, Shot> {
    map key | key in current :: Shot(current[key].size, current[key].state, current[key].stopped)
  }

  /** `_state_change` */
  function StateChange(before: Shot, after: FileState): Option<Change> {
    if before.state != after.state then Some(StateChanged)
    else if before.stopped != after.stopped then Some(if after.stopped then Stopped else Resumed)
    else None
  }

  /** The row a key deserves, if any. */
  function RowFor(run: nat, key: Key, before: map<Key, Shot>, after: map<Key, FileState>, excluded: string -> bool)
    : Option<Row>
  {
    if excluded(key.path) then None
    else if key in after then
      var now := after[key];
      if key !in before then
        Some(Row(run, key, now.size, Added, Some(now.state), None, now.contentType, now.tmdbId))
      else
        match StateChange(before[key], now)
        case None => None
        case Some(change) =>
          Some(Row(run, key, now.size, change, Some(now.state), Some(before[key].state), now.contentType, now.tmdbId))
    else if key in before then
      Some(Row(run, key, before[key].size, Removed, None, Some(before[key].state), None, None))
    else None
  }

  predicate DistinctKeys(rows: seq<Row>) {
    forall i, j :: 0 <= i < j < |rows| ==> rows[i].key != rows[j].key
  }

  predicate HasKey(rows: seq<Row>, key: Key) {
    exists i :: 0 <= i < |rows| && rows[i].key == key
  }

  /** Exactly the rows deserved, one per key, in any order. */
  ghost predicate Describes(rows: seq<Row>, run: nat, before: map<Key, Shot>, after: map<Key, FileState>,
                            excluded: string -> bool)
  {
    && DistinctKeys(rows)
    && (forall i :: 0 <= i < |rows| ==> RowFor(run, rows[i].key, before, after, excluded) == Some(rows[i]))
    && forall key :: HasKey(rows, key) <==> RowFor(run, key, before, after, excluded).Some?
  }

  // ---------------------------------------------------------------- what is kept

  function Ids(rows: seq<Row>): set<nat> {
    set i | 0 <= i < |rows| :: rows[i].run
  }

  function Since(rows: seq<Row>, run: nat): seq<Row> {
    if rows == [] then []
    else (if rows[0].run >= run then [rows[0]] else []) + Since(rows[1..], run)
  }

  /** The last of the first `n` identifiers, newest first. */
  function OldestOfNewest(ids: set<nat>, n: nat): nat
    requires ids != {} && n > 0
  {
    var rest := ids - {MaxOf(ids)};
    if n == 1 || rest == {} then MaxOf(ids) else OldestOfNewest(rest, n - 1)
  }

  function Prune(rows: seq<Row>): seq<Row> {
    if Ids(rows) == {} then rows else Since(rows, OldestOfNewest(Ids(rows), KEEP_RUNS))
  }

  // ---------------------------------------------------------------- the program

  class ChangeLog {
    var snapshot: map<Key, Shot>
    var changes: seq<Row>

    constructor ()
      ensures Current() == Log(map[], [])
    {
      snapshot, changes := map[], [];
    }

    ghost function Current(): Log
      reads this
    {
      Log(snapshot, changes)
    }

    /** `record_changes`; `rows` are the rows added. */
    method Record(run: nat, current: map<Key, FileState>, excluded: string -> bool) returns (count: nat, rows: seq<Row>)
      modifies this
      ensures count == |rows| && Legal(old(Current()), Recording(run, current, rows), excluded)
      ensures Current() == After(old(Current()), Recording(run, current, rows))
    {
      if snapshot == map[] {
        snapshot := ShotsOf(current);
        return 0, [];
      }
      rows := Compare(run, snapshot, current, excluded);
      changes := Prune(changes + rows);
      snapshot := ShotsOf(current);
      count := |rows|;
    }
  }

  /** The two loops of the comparison: the keys there now, then those there before and gone. */
  method Compare(run: nat, before: map<Key, Shot>, after: map<Key, FileState>, excluded: string -> bool)
    returns (rows: seq<Row>)
    ensures Describes(rows, run, before, after, excluded)
  {
    rows := [];
    var todo := after.Keys;
    ghost var done: set<Key> := {};
    while todo != {}
      invariant todo !! done && todo + done == after.Keys
      invariant Covers(rows, done, run, before, after, excluded)
    {
      var key :| key in todo;
      todo := todo - {key};
      ghost var previous := rows;
      if !excluded(key.path) {
        var now := after[key];
        if key !in before {
          rows := rows + [Row(run, key, now.size, Added, Some(now.state), None, now.contentType, now.tmdbId)];
        } else {
          var change := StateChange(before[key], now);
          if change.Some? {
            rows := rows + [Row(run, key, now.size, change.value, Some(now.state), Some(before[key].state),
                now.contentType, now.tmdbId)];
          }
        }
      }
      CoversOneMore(previous, done, key, run, before, after, excluded);
      done := done + {key};
    }
    todo := before.Keys;
    ghost var gone: set<Key> := {};
    while todo != {}
      invariant todo !! gone && todo + gone == before.Keys
      invariant Covers(rows, after.Keys + gone, run, before, after, excluded)
    {
      var key :| key in todo;
      todo := todo - {key};
      ghost var previous := rows;
      if key !in after {
        if !excluded(key.path) {
          rows := rows + [Row(run, key, before[key].size, Removed, None, Some(before[key].state), None, None)];
        }
        CoversOneMore(previous, after.Keys + gone, key, run, before, after, excluded);
      }
      assert after.Keys + (gone + {key}) == (after.Keys + gone) + {key};
      assert key in after ==> after.Keys + gone + {key} == after.Keys + gone;
      gone := gone + {key};
    }
    CoversAll(rows, run, before, after, excluded);
  }

  /** `Describes`, as far as the keys in `done`. */
  ghost predicate Covers(rows: seq<Row>, done: set<Key>, run: nat, before: map<Key, Shot>, after: map<Key, FileState>,
                         excluded: string -> bool)
  {
    && DistinctKeys(rows)
    && (forall i :: 0 <= i < |rows| ==> RowFor(run, rows[i].key, before, after, excluded) == Some(rows[i]))
    && forall key :: HasKey(rows, key) <==> key in done && RowFor(run, key, before, after, excluded).Some?
  }

  lemma HasKeyOfMore(rows: seq<Row>, row: Row, key: Key)
    ensures HasKey(rows + [row], key) <==> HasKey(rows, key) || row.key == key
  {
    var more := rows + [row];
    if HasKey(rows, key) {
      var i :| 0 <= i < |rows| && rows[i].key == key;
      assert more[i].key == key;
    }
    assert more[|rows|] == row;
  }

  lemma CoversOneMore(rows: seq<Row>, done: set<Key>, key: Key, run: nat, before: map<Key, Shot>,
                      after: map<Key, FileState>, excluded: string -> bool)
    requires Covers(rows, done, run, before, after, excluded) && key !in done
    ensures var row := RowFor(run, key, before, after, excluded);
      Covers(if row.Some? then rows + [row.value] else rows, done + {key}, run, before, after, excluded)
  {
    hide HasKey;
    RowForOwnKey(run, key, before, after, excluded);
    hide RowFor;
    var row := RowFor(run, key, before, after, excluded);
    if row.Some? {
      var more := rows + [row.value];
      forall other ensures HasKey(more, other) <==> HasKey(rows, other) || key == other {
        HasKeyOfMore(rows, row.value, other);
      }
      forall i | 0 <= i < |rows| ensures rows[i].key != key {
        KeyAt(rows, i);
      }
    }
  }

  lemma RowForOwnKey(run: nat, key: Key, before: map<Key, Shot>, after: map<Key, FileState>, excluded: string -> bool)
    ensures var row := RowFor(run, key, before, after, excluded); row.Some? ==>
              row.value.key == key && row.value.run == run
  {
  }

  lemma KeyAt(rows: seq<Row>, i: nat)
    requires i < |rows|
    ensures HasKey(rows, rows[i].key)
  {
  }

  lemma CoversAll(rows: seq<Row>, run: nat, before: map<Key, Shot>, after: map<Key, FileState>,
                  excluded: string -> bool)
    requires Covers(rows, after.Keys + before.Keys, run, before, after, excluded)
    ensures Describes(rows, run, before, after, excluded)
  {
    hide HasKey, DistinctKeys;
  }

  /** A file has a row exactly when it counts and it appeared, vanished, or changed state or stopped; never two rows. */
  lemma OneRowIff(rows: seq<Row>, run: nat, before: map<Key, Shot>, after: map<Key, FileState>,
                  excluded: string -> bool, key: Key)
    requires Describes(rows, run, before, after, excluded)
    ensures HasKey(rows, key) <==>
            !excluded(key.path)
            && (key in before || key in after)
            && !(key in before && key in after && before[key].state == after[key].state
                  && before[key].stopped == after[key].stopped)
    ensures forall i, j :: 0 <= i < |rows| && 0 <= j < |rows| && rows[i].key == key == rows[j].key ==> i == j
  {
    assert HasKey(rows, key) <==> RowFor(run, key, before, after, excluded).Some?;
  }

  // ---------------------------------------------------------------- replaying the rows

  /** The states of the files that count: the snapshot without what is excluded. */
  function States(snapshot: map<Key, Shot>, excluded: string -> bool): map<Key, string> {
    map key | key in snapshot && !excluded(key.path) :: snapshot[key].state
  }

  /** What a row says: the file is gone, or it is there in this state. */
  function ApplyRow(states: map<Key, string>, row: Row): map<Key, string> {
    if row.state.None? then states - {row.key} else states[row.key := row.state.value]
  }

  function Replay(states: map<Key, string>, rows: seq<Row>): map<Key, string>
    decreases |rows|
  {
    if rows == [] then states else Replay(ApplyRow(states, rows[0]), rows[1..])
  }

  /** One row per key: the row decides what it is about, and nothing else changes. */
  lemma {:induction false} ReplayAt(states: map<Key, string>, rows: seq<Row>, key: Key)
    requires DistinctKeys(rows)
    ensures !HasKey(rows, key) ==> (key in Replay(states, rows) <==> key in states)
    ensures !HasKey(rows, key) && key in states ==> Replay(states, rows)[key] == states[key]
    ensures forall i :: 0 <= i < |rows| && rows[i].key == key ==>
              (key in Replay(states, rows) <==> rows[i].state.Some?)
              && (key in Replay(states, rows) ==> Replay(states, rows)[key] == rows[i].state.value)
    decreases |rows|
  {
    if rows != [] {
      var rest, next := rows[1..], ApplyRow(states, rows[0]);
      ReplayAt(next, rest, key);
      assert HasKey(rest, key) ==> HasKey(rows, key);
      if rows[0].key == key {
        assert !HasKey(rest, key);
      }
      forall i | 0 <= i < |rows| && rows[i].key == key
        ensures (key in Replay(states, rows) <==> rows[i].state.Some?)
                && (key in Replay(states, rows) ==> Replay(states, rows)[key] == rows[i].state.value)
      {
        assert i == 0 || rest[i - 1].key == key;
      }
    }
  }

  /** What the row of a key says about it, against the two sides of the comparison. */
  lemma RowTellsState(run: nat, key: Key, before: map<Key, Shot>, after: map<Key, FileState>, excluded: string -> bool)
    ensures var row := RowFor(run, key, before, after, excluded);
      && (row.Some? ==> !excluded(key.path) && (row.value.state.Some? <==> key in after)
                        && (key in after ==> row.value.state == Some(after[key].state)))
      && (row.None? && !excluded(key.path) ==> (key in before <==> key in after)
                                               && (key in after ==> before[key].state == after[key].state))
  {
  }

  lemma {:induction false} ReplayOne(rows: seq<Row>, run: nat, before: map<Key, Shot>, after: map<Key, FileState>,
                                     excluded: string -> bool)
    requires Describes(rows, run, before, after, excluded)
    ensures Replay(States(before, excluded), rows) == States(ShotsOf(after), excluded)
  {
    hide Replay, RowFor, DistinctKeys;
    var was, result, now := States(before, excluded), Replay(States(before, excluded), rows),
        States(ShotsOf(after), excluded);
    forall key ensures (key in result <==> key in now) && (key in result ==> result[key] == now[key]) {
      ReplayAt(was, rows, key);
      RowTellsState(run, key, before, after, excluded);
      if HasKey(rows, key) {
        var i :| 0 <= i < |rows| && rows[i].key == key;
        assert RowFor(run, key, before, after, excluded) == Some(rows[i]);
      }
    }
    assert result.Keys == now.Keys;
  }

  lemma {:induction false} ReplayConcat(states: map<Key, string>, a: seq<Row>, b: seq<Row>)
    ensures Replay(states, a + b) == Replay(Replay(states, a), b)
    decreases |a|
  {
    if a == [] {
      assert a + b == b;
    } else {
      assert (a + b)[1..] == a[1..] + b;
      ReplayConcat(ApplyRow(states, a[0]), a[1..], b);
    }
  }

  // ---------------------------------------------------------------- runs

  datatype Recording = Recording(run: nat, current: map<Key, FileState>, rows: seq<Row>)

  /** `rows` are rows the comparison can have added: none at all without a snapshot to compare with. */
  ghost predicate Legal(s: Log, rec: Recording, excluded: string -> bool) {
    if s.snapshot == map[] then rec.rows == [] else Describes(rec.rows, rec.run, s.snapshot, rec.current, excluded)
  }

  function After(s: Log, rec: Recording): Log {
    Log(ShotsOf(rec.current), if s.snapshot == map[] then s.changes else Prune(s.changes + rec.rows))
  }

  function RunAll(s: Log, recs: seq<Recording>): Log {
    if recs == [] then s else After(RunAll(s, recs[..|recs| - 1]), recs[|recs| - 1])
  }

  /** Recordings one after the other, with growing run identifiers and some file every time. */
  ghost predicate LegalRun(s: Log, recs: seq<Recording>, excluded: string -> bool) {
    recs == [] ||
    var last := recs[|recs| - 1];
    && LegalRun(s, recs[..|recs| - 1], excluded)
    && Legal(RunAll(s, recs[..|recs| - 1]), last, excluded)
    && last.current != map[]
    && forall i :: 0 <= i < |recs| - 1 ==> recs[i].run < last.run
  }

  /** A single recording is told by its rows exactly when there was a snapshot to compare with, or nothing to tell. */
  lemma FaithfulIff(s: Log, rec: Recording, excluded: string -> bool)
    requires Legal(s, rec, excluded)
    ensures Replay(States(s.snapshot, excluded), rec.rows) == States(After(s, rec).snapshot, excluded)
            <==> s.snapshot != map[] || forall key :: key in rec.current ==> excluded(key.path)
  {
    if s.snapshot != map[] {
      ReplayOne(rec.rows, rec.run, s.snapshot, rec.current, excluded);
    } else {
      var now := States(ShotsOf(rec.current), excluded);
      assert States(s.snapshot, excluded) == map[];
      if forall key :: key in rec.current ==> excluded(key.path) {
        assert now == map[];
      } else {
        var key :| key in rec.current && !excluded(key.path);
        assert key in now;
      }
    }
  }

  /** A scan that finds no file at all makes the next one look like the first. */
  lemma AfterAnEmptyScanNothingIsTold(key: Key, state: FileState, excluded: string -> bool)
    requires !excluded(key.path)
    ensures var empty := Log(map[], []);
      var rec := Recording(7, map[key := state], []);
      && Legal(empty, rec, excluded)
      && Replay(States(empty.snapshot, excluded), rec.rows) != States(After(empty, rec).snapshot, excluded)
  {
    FaithfulIff(Log(map[], []), Recording(7, map[key := state], []), excluded);
    assert key in map[key := state];
  }

  // ---------------------------------------------------------------- pruning

  lemma SinceMember(rows: seq<Row>, run: nat, id: nat)
    ensures id in Ids(Since(rows, run)) <==> id in Ids(rows) && id >= run
  {
    if rows != [] {
      SinceMember(rows[1..], run, id);
      var rest := Since(rows[1..], run);
      IdsOfConcat([rows[0]], rows[1..], id);
      assert [rows[0]] + rows[1..] == rows;
      if rows[0].run >= run {
        IdsOfConcat([rows[0]], rest, id);
      } else {
        assert Since(rows, run) == rest;
      }
    }
  }

  lemma IdsOfConcat(a: seq<Row>, b: seq<Row>, id: nat)
    ensures id in Ids(a + b) <==> id in Ids(a) || id in Ids(b)
  {
    var ab := a + b;
    if id in Ids(a) {
      var i :| 0 <= i < |a| && a[i].run == id;
      assert ab[i].run == id;
    }
    if id in Ids(b) {
      var i :| 0 <= i < |b| && b[i].run == id;
      assert ab[|a| + i].run == id;
    }
  }

  function FromOn(ids: set<nat>, cut: nat): set<nat> {
    set id | id in ids && id >= cut
  }

  lemma SizeWithout(ids: set<nat>, one: nat)
    requires one in ids
    ensures |ids| == |ids - {one}| + 1
  {
    assert ids == (ids - {one}) + {one};
  }

  /** Exactly the newest `n` identifiers, or all of them, are at or above the cut. */
  lemma {:induction false} CutKeepsNewest(ids: set<nat>, n: nat)
    requires ids != {} && n > 0
    ensures OldestOfNewest(ids, n) in ids
    ensures |FromOn(ids, OldestOfNewest(ids, n))| == Min(n, |ids|)
    decreases n
  {
    var top := MaxOf(ids);
    MaxIsMax(ids);
    hide MaxOf;
    var rest, cut := ids - {top}, OldestOfNewest(ids, n);
    SizeWithout(ids, top);
    if n == 1 || rest == {} {
      assert FromOn(ids, cut) == {top};
    } else {
      CutKeepsNewest(rest, n - 1);
      assert FromOn(ids, cut) == FromOn(rest, cut) + {top};
      SizeWithout(FromOn(ids, cut), top);
      assert FromOn(ids, cut) - {top} == FromOn(rest, cut);
    }
  }

  /** At most KEEP_RUNS runs keep rows; they are the newest, and they keep all of them. */
  lemma PruneKeepsNewest(rows: seq<Row>)
    ensures |Ids(Prune(rows))| == Min(KEEP_RUNS, |Ids(rows)|) && Ids(Prune(rows)) <= Ids(rows)
    ensures forall kept, dropped :: kept in Ids(Prune(rows)) && dropped in Ids(rows) - Ids(Prune(rows)) ==>
              dropped < kept
    ensures forall kept, run: nat :: kept in Ids(Prune(rows)) && kept <= run ==>
              Since(Prune(rows), run) == Since(rows, run)
    ensures |Ids(rows)| <= KEEP_RUNS ==> Prune(rows) == rows
  {
    hide OldestOfNewest;
    hide Ids;
    hide Since;
    if Ids(rows) != {} {
      var cut := OldestOfNewest(Ids(rows), KEEP_RUNS);
      CutKeepsNewest(Ids(rows), KEEP_RUNS);
      forall id ensures id in Ids(Prune(rows)) <==> id in Ids(rows) && id >= cut {
        SinceMember(rows, cut, id);
      }
      assert Ids(Prune(rows)) == FromOn(Ids(rows), cut);
      forall kept, run: nat | kept in Ids(Prune(rows)) && kept <= run
        ensures Since(Prune(rows), run) == Since(rows, run)
      {
        SinceSince(rows, cut, run);
      }
      if |Ids(rows)| <= KEEP_RUNS {
        SubsetOfSameSize(Ids(Prune(rows)), Ids(rows));
        SinceAll(rows, cut);
      }
    }
  }

  lemma SubsetOfSameSize(a: set<nat>, b: set<nat>)
    requires a <= b && |a| == |b|
    ensures a == b
  {
    assert |b - a| == 0;
  }

  lemma {:induction false} SinceSince(rows: seq<Row>, low: nat, high: nat)
    requires low <= high
    ensures Since(Since(rows, low), high) == Since(rows, high)
  {
    if rows != [] {
      SinceSince(rows[1..], low, high);
      var rest := Since(rows[1..], low);
      if rows[0].run >= low {
        assert ([rows[0]] + rest)[1..] == rest;
      } else {
        assert Since(rows, low) == rest;
      }
    }
  }

  lemma {:induction false} SinceAll(rows: seq<Row>, run: nat)
    requires forall id :: id in Ids(rows) ==> id >= run
    ensures Since(rows, run) == rows
  {
    if rows != [] {
      assert rows[0].run in Ids(rows);
      forall id | id in Ids(rows[1..]) ensures id >= run {
        IdsOfConcat([rows[0]], rows[1..], id);
        assert [rows[0]] + rows[1..] == rows;
      }
      SinceAll(rows[1..], run);
    }
  }

  lemma {:induction false} SinceNone(rows: seq<Row>, run: nat)
    requires forall id :: id in Ids(rows) ==> id < run
    ensures Since(rows, run) == []
  {
    if rows != [] {
      assert rows[0].run in Ids(rows);
      forall id | id in Ids(rows[1..]) ensures id < run {
        IdsOfConcat([rows[0]], rows[1..], id);
        assert [rows[0]] + rows[1..] == rows;
      }
      SinceNone(rows[1..], run);
    }
  }

  lemma {:induction false} SinceConcat(a: seq<Row>, b: seq<Row>, run: nat)
    ensures Since(a + b, run) == Since(a, run) + Since(b, run)
  {
    if a == [] {
      assert a + b == b;
    } else {
      assert (a + b)[1..] == a[1..] + b;
      SinceConcat(a[1..], b, run);
      var head := if a[0].run >= run then [a[0]] else [];
      assert Since(a + b, run) == head + (Since(a[1..], run) + Since(b, run));
      assert Since(a, run) == head + Since(a[1..], run);
    }
  }

  // ---------------------------------------------------------------- whole runs

  lemma ShotsNotEmpty(current: map<Key, FileState>)
    requires current != map[]
    ensures ShotsOf(current) != map[]
  {
    var key :| key in current;
    assert key in ShotsOf(current);
  }

  lemma RowsAreOfTheRun(s: Log, rec: Recording, excluded: string -> bool)
    requires Legal(s, rec, excluded)
    ensures Ids(rec.rows) <= {rec.run}
  {
    forall id | id in Ids(rec.rows) ensures id == rec.run {
      var i :| 0 <= i < |rec.rows| && rec.rows[i].run == id;
      RowForOwnKey(rec.run, rec.rows[i].key, s.snapshot, rec.current, excluded);
    }
  }

  /** Unfolding of one recording: what is compared, what is added, and what identifiers there are. */
  lemma {:induction false} LastRecording(s: Log, recs: seq<Recording>, excluded: string -> bool)
    requires s.snapshot != map[] && s.changes == [] && LegalRun(s, recs, excluded) && recs != []
    ensures var t, last := RunAll(s, recs[..|recs| - 1]), recs[|recs| - 1];
      && t.snapshot != map[]
      && Describes(last.rows, last.run, t.snapshot, last.current, excluded)
      && RunAll(s, recs) == Log(ShotsOf(last.current), Prune(t.changes + last.rows))
      && forall id :: id in Ids(t.changes) ==> id < last.run
  {
    hide Describes, Prune, ShotsOf, Ids;
    var before, last := recs[..|recs| - 1], recs[|recs| - 1];
    var t := RunAll(s, before);
    if before != [] {
      ShotsNotEmpty(before[|before| - 1].current);
    }
    forall id | id in Ids(t.changes) ensures id < last.run {
      IdsAreOfTheRuns(s, before, id, excluded);
      var k :| 0 <= k < |before| && before[k].run == id;
      assert recs[k].run == id;
    }
  }

  lemma {:induction false} IdsAreOfTheRuns(s: Log, recs: seq<Recording>, id: nat, excluded: string -> bool)
    requires s.snapshot != map[] && s.changes == [] && LegalRun(s, recs, excluded) && id in Ids(RunAll(s, recs).changes)
    ensures exists k :: 0 <= k < |recs| && recs[k].run == id
  {
    hide Describes, Prune, ShotsOf, Ids;
    if recs == [] {
      NoIds();
    } else {
      var before, last := recs[..|recs| - 1], recs[|recs| - 1];
      var t := RunAll(s, before);
      PruneKeepsNewest(t.changes + last.rows);
      IdsOfConcat(t.changes, last.rows, id);
      RowsAreOfTheRun(t, last, excluded);
      if id in Ids(t.changes) {
        IdsAreOfTheRuns(s, before, id, excluded);
        var k :| 0 <= k < |before| && before[k].run == id;
        assert recs[k].run == id;
      } else {
        assert last.run == id;
      }
    }
  }

  lemma NoIds()
    ensures Ids([]) == {}
  {
  }

  /**
   As long as the log still has rows of a run not after the i-th, the rows since the i-th run, replayed over
   the snapshot it was compared with, give the files and the states there are now.
   */
  lemma {:induction false} LogTellsSince(s: Log, recs: seq<Recording>, i: nat, kept: nat, excluded: string -> bool)
    requires s.snapshot != map[] && s.changes == [] && LegalRun(s, recs, excluded) && i < |recs|
    requires kept in Ids(RunAll(s, recs).changes) && kept <= recs[i].run
    ensures Replay(States(RunAll(s, recs[..i]).snapshot, excluded), Since(RunAll(s, recs).changes, recs[i].run))
            == States(RunAll(s, recs).snapshot, excluded)
    decreases |recs|
  {
    LastRecording(s, recs, excluded);
    hide Describes, Prune, ShotsOf, Ids, Since, Replay, RunAll, States;
    var before, last, run := recs[..|recs| - 1], recs[|recs| - 1], recs[i].run;
    var t := RunAll(s, before);
    PruneKeepsNewest(t.changes + last.rows);
    SinceConcat(t.changes, last.rows, run);
    RowsAreOfTheRun(t, last, excluded);
    SinceAllOf(last.rows, run, last.run);
    ReplayOne(last.rows, last.run, t.snapshot, last.current, excluded);
    if i == |recs| - 1 {
      SinceNone(t.changes, run);
      assert recs[..i] == before;
      assert [] + last.rows == last.rows;
    } else {
      IdsOfConcat(t.changes, last.rows, kept);
      assert before[..i] == recs[..i] && before[i] == recs[i];
      LogTellsSince(s, before, i, kept, excluded);
      ReplayConcat(States(RunAll(s, recs[..i]).snapshot, excluded), Since(t.changes, run), last.rows);
    }
  }

  lemma SinceAllOf(rows: seq<Row>, run: nat, own: nat)
    requires Ids(rows) <= {own} && run <= own
    ensures Since(rows, run) == rows
  {
    SinceAll(rows, run);
  }

  /** All the rows ever added, whether the log keeps them or not. */
  function AllRows(recs: seq<Recording>): seq<Row> {
    if recs == [] then [] else AllRows(recs[..|recs| - 1]) + recs[|recs| - 1].rows
  }

  /** However many recordings there were, their rows take the first snapshot to the last. */
  lemma {:induction false} EveryRunTells(s: Log, recs: seq<Recording>, excluded: string -> bool)
    requires s.snapshot != map[] && s.changes == [] && LegalRun(s, recs, excluded)
    ensures Replay(States(s.snapshot, excluded), AllRows(recs)) == States(RunAll(s, recs).snapshot, excluded)
  {
    if recs != [] {
      LastRecording(s, recs, excluded);
      hide Describes, Prune, ShotsOf, Ids, Replay, RunAll, States;
      var before, last := recs[..|recs| - 1], recs[|recs| - 1];
      EveryRunTells(s, before, excluded);
      ReplayOne(last.rows, last.run, RunAll(s, before).snapshot, last.current, excluded);
      ReplayConcat(States(s.snapshot, excluded), AllRows(before), last.rows);
    }
  }

  /** Recordings one after the other, whatever the scans find. */
  ghost predicate AnyRun(s: Log, recs: seq<Recording>, excluded: string -> bool) {
    forall i :: 0 <= i < |recs| ==> Legal(RunAll(s, recs[..i]), recs[i], excluded)
  }

  /** The rows of the first `i` recordings take the first snapshot to the one after them. */
  ghost predicate Told(s: Log, recs: seq<Recording>, i: nat, excluded: string -> bool)
    requires i <= |recs|
  {
    Replay(States(s.snapshot, excluded), AllRows(recs[..i])) == States(RunAll(s, recs[..i]).snapshot, excluded)
  }

  /** The recording has a snapshot to compare with, or nothing to tell. */
  predicate Comparable(snapshot: map<Key, Shot>, rec: Recording, excluded: string -> bool) {
    snapshot != map[] || forall key :: key in rec.current ==> excluded(key.path)
  }

  /**
   Over any scans, empty ones included: the rows tell every state of the run exactly if each recording had a snapshot
   to compare with, or nothing to tell.
   */
  lemma {:induction false} ToldThroughoutIff(s: Log, recs: seq<Recording>, n: nat, excluded: string -> bool)
    requires AnyRun(s, recs, excluded) && n <= |recs|
    ensures (forall i :: 0 <= i <= n ==> Told(s, recs, i, excluded))
            <==> forall i :: 0 <= i < n ==> Comparable(RunAll(s, recs[..i]).snapshot, recs[i], excluded)
  {
    hide Told, Comparable, RunAll, Legal;
    if n == 0 {
      NothingTold(s, recs, excluded);
    } else {
      ToldThroughoutIff(s, recs, n - 1, excluded);
      if Told(s, recs, n - 1, excluded) {
        OneMoreTold(s, recs, n - 1, excluded);
      }
    }
  }

  lemma NothingTold(s: Log, recs: seq<Recording>, excluded: string -> bool)
    ensures Told(s, recs, 0, excluded)
  {
  }

  lemma OneMoreTold(s: Log, recs: seq<Recording>, i: nat, excluded: string -> bool)
    requires AnyRun(s, recs, excluded) && i < |recs| && Told(s, recs, i, excluded)
    ensures Told(s, recs, i + 1, excluded) <==> Comparable(RunAll(s, recs[..i]).snapshot, recs[i], excluded)
  {
    hide Legal, Replay, States, After;
    var before, more := recs[..i], recs[..i + 1];
    assert more[..|more| - 1] == before && more[|more| - 1] == recs[i];
    ReplayConcat(States(s.snapshot, excluded), AllRows(before), recs[i].rows);
    FaithfulIff(RunAll(s, before), recs[i], excluded);
  }

  /** As long as no more runs are recorded than the log keeps, the whole log takes the first snapshot to the last. */
  lemma {:induction false} WholeLogTells(s: Log, recs: seq<Recording>, excluded: string -> bool)
    requires s.snapshot != map[] && s.changes == [] && LegalRun(s, recs, excluded) && |recs| <= KEEP_RUNS
    ensures Replay(States(s.snapshot, excluded), RunAll(s, recs).changes) == States(RunAll(s, recs).snapshot, excluded)
    ensures |Ids(RunAll(s, recs).changes)| <= |recs|
  {
    if recs == [] {
      NoIds();
    } else {
      LastRecording(s, recs, excluded);
      hide Describes, Prune, ShotsOf, Ids, Replay, RunAll, States;
      var before, last := recs[..|recs| - 1], recs[|recs| - 1];
      var t := RunAll(s, before);
      WholeLogTells(s, before, excluded);
      RowsAreOfTheRun(t, last, excluded);
      forall id ensures id in Ids(t.changes + last.rows) <==> id in Ids(t.changes) || id in Ids(last.rows) {
        IdsOfConcat(t.changes, last.rows, id);
      }
      OneMoreAtMost(Ids(t.changes), Ids(t.changes + last.rows), last.run);
      PruneKeepsNewest(t.changes + last.rows);
      ReplayOne(last.rows, last.run, t.snapshot, last.current, excluded);
      ReplayConcat(States(s.snapshot, excluded), t.changes, last.rows);
    }
  }

  lemma OneMoreAtMost(a: set<nat>, b: set<nat>, extra: nat)
    requires b <= a + {extra}
    ensures |b| <= |a| + 1
  {
    if extra in b {
      SizeWithout(b, extra);
      SubsetIsSmaller(b - {extra}, a);
    } else {
      SubsetIsSmaller(b, a);
    }
  }

  lemma SubsetIsSmaller(a: set<nat>, b: set<nat>)
    requires a <= b
    ensures |a| <= |b|
  {
    assert b == a + (b - a);
  }

  /** Whatever was recorded, at most KEEP_RUNS runs have rows. */
  lemma {:induction false} AtMostThirtyRuns(s: Log, recs: seq<Recording>)
    requires |Ids(s.changes)| <= KEEP_RUNS
    ensures |Ids(RunAll(s, recs).changes)| <= KEEP_RUNS
  {
    hide Prune, Ids, ShotsOf;
    if recs != [] {
      var before, last := recs[..|recs| - 1], recs[|recs| - 1];
      AtMostThirtyRuns(s, before);
      PruneKeepsNewest(RunAll(s, before).changes + last.rows);
    }
  }
}
