/**
 The full piece check of app/full_check.py: every piece of a torrent against the local files.

 `Job` holds the naive reading, piece by piece over all files, with no pointers and no cache.
 `VerifyAllPieces` is the program: one forward sweep with a file pointer that never goes back, an
 inner pointer over the files of the current piece and a table of open handles.
 */
module Sweep {
  import opened Basics
  import opened Metainfo

  /**
   The files on disk for the length of one check. `opens`, `delivers` and `stats` say which operations
   the operating system lets through; a failing one is the OSError the source catches.
   */
  datatype Disk = Disk(
    bytes: map<string, seq<byte>>, opens: string -> bool, delivers: (string, nat, nat) -> bool, stats: string -> bool)
  {
    /** `_file_size` */
    function SizeOf(path: Option<string>): Option<nat> {
      if path.Some? && path.value != "" && path.value in bytes && stats(path.value) then
        Some(|bytes[path.value]|)
      else None
    }

    predicate Opens(path: string) {
      path in bytes && opens(path)
    }

    /** `seek` then `read`: fewer bytes than asked at the end of the file. */
    function ReadAt(path: Option<string>, offset: nat, length: nat): Option<seq<byte>> {
      if path.Some? && Opens(path.value) && delivers(path.value, offset, length)
      then Some(Slice(bytes[path.value], offset, offset + length))
      else None
    }
  }

  datatype Outcome = Good | Mismatch | Unreadable

  datatype FileCheck = FileCheck(
    path: string, size: int, local: Option<string>, localSize: Option<nat>,
    pieces: nat, ok: nat, mismatched: nat, unreadable: nat, firstBad: Option<nat>)

  /** What parsing gives when no length is negative. */
  predicate Tiles(info: TorrentInfo) {
    && info.pieceLength > 0
    && Contiguous(info.files, info.totalLength)
    && forall k :: 0 <= k < |info.files| ==> info.files[k].length >= 0
  }

  type Sha1 = seq<byte> -> seq<byte>

  datatype Job = Job(info: TorrentInfo, local: seq<Option<string>>, disk: Disk, sha1: Sha1) {

    ghost predicate Valid() {
      Tiles(info) && |local| == |info.files|
    }

    function Files(): nat {
      |info.files|
    }

    function Start(idx: nat): int {
      idx * info.pieceLength
    }

    function End(idx: nat): int {
      Min(Start(idx) + info.pieceLength, info.totalLength)
    }

    /** First and one-past-last byte of the piece inside file `k`, counted from the start of the file. */
    function Lo(k: nat, idx: nat): int
      requires k < Files()
    {
      Max(Start(idx), info.files[k].offset) - info.files[k].offset
    }

    function Hi(k: nat, idx: nat): int
      requires k < Files()
    {
      Min(End(idx), info.files[k].End()) - info.files[k].offset
    }

    /** File `k` and piece `idx` share at least one byte. */
    predicate Touches(k: nat, idx: nat)
      requires k < Files()
    {
      info.files[k].length > 0 && Lo(k, idx) < Hi(k, idx)
    }

    /** The shared bytes, when they can be read in full. */
    function Part(k: nat, idx: nat): Option<seq<byte>>
      requires k < Files() && k < |local| && Touches(k, idx)
    {
      var data := disk.ReadAt(local[k], Lo(k, idx), Hi(k, idx) - Lo(k, idx));
      if data.Some? && |data.value| == Hi(k, idx) - Lo(k, idx) then data else None
    }

    predicate ReadableUpTo(idx: nat, n: nat)
      requires n <= Files() && n <= |local|
    {
      forall k :: 0 <= k < n && Touches(k, idx) ==> Part(k, idx).Some?
    }

    /** The readable parts of the first `n` files, one after the other. */
    function DataUpTo(idx: nat, n: nat): seq<byte>
      requires n <= Files() && n <= |local|
    {
      if n == 0 then []
      else if Touches(n - 1, idx) && Part(n - 1, idx).Some? then DataUpTo(idx, n - 1) + Part(n - 1, idx).value
      else DataUpTo(idx, n - 1)
    }

    /** The naive verdict on one piece. */
    function OutcomeOf(idx: nat): Outcome
      requires Files() <= |local| && idx < |info.pieces|
    {
      if !ReadableUpTo(idx, Files()) then Unreadable
      else if sha1(DataUpTo(idx, Files())) == info.pieces[idx] then Good
      else Mismatch
    }

    predicate Bad(idx: nat)
      requires Files() <= |local| && idx < |info.pieces|
    {
      OutcomeOf(idx) != Good
    }

    function BadUpTo(n: nat): (r: seq<nat>)
      requires Files() <= |local| && n <= |info.pieces|
      ensures forall idx: nat :: idx in r <==> idx < n && Bad(idx)
      ensures forall a, b :: 0 <= a < b < |r| ==> r[a] < r[b]
    {
      if n == 0 then []
      else
        var r := BadUpTo(n - 1);
        assert forall a :: 0 <= a < |r| ==> r[a] in r;
        if Bad(n - 1) then r + [n - 1] else r
    }

    /** Among the first `n` pieces, those that touch file `k` with outcome `o`. */
    function Count(k: nat, n: nat, o: Outcome): nat
      requires Files() <= |local| && k < Files() && n <= |info.pieces|
    {
      if n == 0 then 0
      else Count(k, n - 1, o) + if Touches(k, n - 1) && OutcomeOf(n - 1) == o then 1 else 0
    }

    function TouchCount(k: nat, n: nat): nat
      requires k < Files()
    {
      if n == 0 then 0 else TouchCount(k, n - 1) + if Touches(k, n - 1) then 1 else 0
    }

    /** Where, in file `k`, the lowest bad piece that touches it begins. */
    function FirstBad(k: nat, n: nat): Option<nat>
      requires Files() <= |local| && k < Files() && n <= |info.pieces|
    {
      if n == 0 then None
      else if FirstBad(k, n - 1).Some? then FirstBad(k, n - 1)
      else if Touches(k, n - 1) && Bad(n - 1) then Some(Max(Start(n - 1) - info.files[k].offset, 0))
      else None
    }

    /** The row of file `k` after `n` pieces. */
    function Row(k: nat, n: nat): FileCheck
      requires Files() <= |local| && k < Files() && n <= |info.pieces|
    {
      FileCheck(info.files[k].path, info.files[k].length, local[k], disk.SizeOf(local[k]),
                TouchCount(k, n), Count(k, n, Good), Count(k, n, Mismatch), Count(k, n, Unreadable), FirstBad(k, n))
    }

    function Rows(n: nat): (r: seq<FileCheck>)
      requires Files() <= |local| && n <= |info.pieces|
      ensures |r| == Files() && forall k :: 0 <= k < Files() ==> r[k] == Row(k, n)
    {
      seq(Files(), k requires 0 <= k < Files() => Row(k, n))
    }
  }

  // ---------------------------------------------------------------- order of the files

  lemma {:induction false} EndsBeforeStarts(files: seq<FileEntry>, total: int, i: nat, j: nat)
    requires Contiguous(files, total) && (forall k :: 0 <= k < |files| ==> files[k].length >= 0)
    requires i < j <= |files|
    ensures files[i].End() <= StartOf(files, j)
    decreases j - i
  {
    if i + 1 < j {
      assert files[i + 1].offset == StartOf(files, i + 1);
      EndsBeforeStarts(files, total, i + 1, j);
    }
  }

  lemma NextStart(job: Job, idx: nat)
    ensures job.Start(idx + 1) == job.Start(idx) + job.info.pieceLength
  {
  }

  /** The first files end at or before the piece. */
  predicate EndBefore(job: Job, first: nat, idx: nat)
    requires first <= job.Files()
  {
    forall k :: 0 <= k < first ==> job.info.files[k].End() <= job.Start(idx)
  }

  lemma StillBefore(job: Job, first: nat, idx: nat)
    requires job.Valid() && first <= job.Files() && EndBefore(job, first, idx)
    ensures EndBefore(job, first, idx + 1)
  {
    hide Contiguous, Job.Start;
    NextStart(job, idx);
  }

  /** A file whose bytes all lie before the piece, or that starts at its end or later, is not touched. */
  lemma OutsideIsUntouched(job: Job, k: nat, idx: nat)
    requires k < job.Files()
    requires job.info.files[k].End() <= job.Start(idx) || job.End(idx) <= job.info.files[k].offset
    ensures !job.Touches(k, idx)
  {
  }

  /** Any other non-empty file is. */
  lemma InsideIsTouched(job: Job, k: nat, idx: nat)
    requires job.Valid() && k < job.Files() && job.info.files[k].length > 0
    requires job.Start(idx) < job.info.files[k].End() && job.info.files[k].offset < job.End(idx)
    ensures job.Touches(k, idx)
  {
    EndsBeforeStarts(job.info.files, job.info.totalLength, k, job.Files());
  }

  /** Files that are not touched change nothing in the naive reading. */
  lemma {:induction false} SkipUntouched(job: Job, idx: nat, from: nat, n: nat)
    requires job.Valid() && from <= n <= job.Files()
    requires forall k :: from <= k < n ==> !job.Touches(k, idx)
    ensures job.ReadableUpTo(idx, n) <==> job.ReadableUpTo(idx, from)
    ensures job.DataUpTo(idx, n) == job.DataUpTo(idx, from)
    decreases n
  {
    hide Job.Touches, Job.Part, Job.Start, Contiguous;
    if from < n {
      SkipUntouched(job, idx, from, n - 1);
    }
  }

  // ---------------------------------------------------------------- the program

  /** The `handles` dictionary of the sweep, with the history of what was acquired and released. */
  class HandleTable {
    var open: set<nat>
    var acquired: multiset<nat>
    var released: multiset<nat>

    /** Everything acquired is still in the table or was released, and no file was acquired twice. */
    ghost predicate Valid()
      reads this
    {
      && acquired == released + multiset(open)
      && forall i :: acquired[i] <= 1
    }

    constructor ()
      ensures Valid() && open == {} && acquired == multiset{} && released == multiset{}
    {
      open, acquired, released := {}, multiset{}, multiset{};
    }

    /** `_read`: a handle is kept as soon as `open` succeeds, even if the read then fails. */
    method Read(index: nat, disk: Disk, path: Option<string>, offset: nat, length: nat)
      returns (data: Option<seq<byte>>)
      requires Valid() && (index in acquired ==> index in open)
      modifies this
      ensures Valid()
      ensures data == disk.ReadAt(path, offset, length)
      ensures released == old(released) && old(open) <= open <= old(open) + {index}
    {
      if path.None? {
        return None;
      }
      if index !in open {
        if !disk.Opens(path.value) {
          return None;
        }
        acquired := acquired + multiset{index};
        open := open + {index};
      }
      return disk.ReadAt(path, offset, length);
    }

    /** `handles.pop(index, None)`, then `close`. */
    method Close(index: nat)
      requires Valid()
      modifies this
      ensures Valid() && acquired == old(acquired) && open == old(open) - {index}
      ensures released == old(released) + if index in old(open) then multiset{index} else multiset{}
    {
      if index in open {
        open := open - {index};
        released := released + multiset{index};
      }
    }

    /** The `finally` block. */
    method CloseAll()
      requires Valid()
      modifies this
      ensures Valid() && acquired == old(acquired) && released == acquired
    {
      released := released + multiset(open);
      open := {};
    }
  }

  datatype SweepResult = Cancelled | Done(checks: seq<FileCheck>, bad: seq<nat>)

  /** No handle of a file before `first` is left, and a file from `first` on was never released. */
  ghost predicate HandlesFrom(handles: HandleTable, first: nat)
    reads handles
  {
    && handles.Valid()
    && (forall i :: i in handles.open ==> i >= first)
    && (forall i :: i in handles.released ==> i < first)
  }

  /** Drops the files that end at or before the piece, closing their handles. */
  method Advance(job: Job, handles: HandleTable, idx: nat, from: nat) returns (first: nat)
    requires job.Valid() && from <= job.Files() && HandlesFrom(handles, from) && EndBefore(job, from, idx)
    modifies handles
    ensures from <= first <= job.Files() && HandlesFrom(handles, first) && EndBefore(job, first, idx)
    ensures handles.Valid()
    ensures first < job.Files() ==> job.Start(idx) < job.info.files[first].End()
  {
    first := from;
    while first < |job.info.files| && job.info.files[first].offset + job.info.files[first].length <= job.Start(idx)
      invariant from <= first <= job.Files() && HandlesFrom(handles, first)
      invariant forall k :: 0 <= k < first ==> job.info.files[k].End() <= job.Start(idx)
    {
      handles.Close(first);
      first := first + 1;
    }
  }

  /** The touched files of one piece, whether all were readable, and the bytes fed to the digest. */
  method ReadPiece(job: Job, handles: HandleTable, idx: nat, first: nat)
    returns (touched: seq<nat>, readable: bool, data: seq<byte>)
    requires job.Valid() && idx < |job.info.pieces| && first <= job.Files() && HandlesFrom(handles, first)
    requires EndBefore(job, first, idx)
    requires first < job.Files() ==> job.Start(idx) < job.info.files[first].End()
    modifies handles
    ensures HandlesFrom(handles, first) && handles.Valid()
    ensures forall k: nat :: k in touched <==> k < job.Files() && job.Touches(k, idx)
    ensures forall a, b :: 0 <= a < b < |touched| ==> touched[a] != touched[b]
    ensures readable <==> job.ReadableUpTo(idx, job.Files())
    ensures readable ==> data == job.DataUpTo(idx, job.Files())
  {
    hide Job.Touches, Job.Part, Job.ReadableUpTo, Job.DataUpTo, Job.Lo, Job.Hi, Job.Start, Contiguous;
    touched, readable, data := [], true, [];
    var i := first;
    UntouchedBefore(job, idx, first);
    while i < |job.info.files| && job.info.files[i].offset < job.End(idx)
      invariant first <= i <= job.Files() && HandlesFrom(handles, first)
      invariant forall k: nat :: k in touched <==> k < i && job.Touches(k, idx)
      invariant forall a, b :: 0 <= a < b < |touched| ==> touched[a] != touched[b]
      invariant readable <==> job.ReadableUpTo(idx, i)
      invariant readable ==> data == job.DataUpTo(idx, i)
    {
      if job.info.files[i].length > 0 {
        StartsInside(job, idx, first, i);
        touched := touched + [i];
        var lo, hi := job.Lo(i, idx), job.Hi(i, idx);
        OverlapBounds(job, i, idx);
        ReadStep(job, idx, i);
        var chunk: Option<seq<byte>> := None;
        if readable {
          chunk := handles.Read(i, job.disk, job.local[i], lo, hi - lo);
        }
        if chunk.None? || |chunk.value| != hi - lo {
          readable := false;
        } else {
          data := data + chunk.value;
        }
      } else {
        EmptyStep(job, idx, i);
      }
      i := i + 1;
    }
    UntouchedAfter(job, idx, i);
  }

  lemma OverlapBounds(job: Job, k: nat, idx: nat)
    requires k < job.Files() && job.Touches(k, idx)
    ensures 0 <= job.Lo(k, idx) < job.Hi(k, idx)
  {
  }

  /** What one more touched file adds to the naive reading. */
  lemma ReadStep(job: Job, idx: nat, k: nat)
    requires k < job.Files() && k < |job.local| && job.Touches(k, idx)
    requires 0 <= job.Lo(k, idx) < job.Hi(k, idx)
    ensures var chunk := job.disk.ReadAt(job.local[k], job.Lo(k, idx), job.Hi(k, idx) - job.Lo(k, idx));
            var full := chunk.Some? && |chunk.value| == job.Hi(k, idx) - job.Lo(k, idx);
            && (job.ReadableUpTo(idx, k + 1) <==> job.ReadableUpTo(idx, k) && full)
            && (full ==> job.DataUpTo(idx, k + 1) == job.DataUpTo(idx, k) + chunk.value)
  {
    hide Job.Lo, Job.Hi, Job.Touches, Disk.ReadAt;
  }

  lemma EmptyStep(job: Job, idx: nat, k: nat)
    requires k < job.Files() && k < |job.local| && job.info.files[k].length <= 0
    ensures !job.Touches(k, idx)
    ensures job.ReadableUpTo(idx, k + 1) <==> job.ReadableUpTo(idx, k)
    ensures job.DataUpTo(idx, k + 1) == job.DataUpTo(idx, k)
  {
  }

  lemma UntouchedBefore(job: Job, idx: nat, first: nat)
    requires job.Valid() && first <= job.Files()
    requires forall k :: 0 <= k < first ==> job.info.files[k].End() <= job.Start(idx)
    ensures forall k :: 0 <= k < first ==> !job.Touches(k, idx)
    ensures job.ReadableUpTo(idx, first) && job.DataUpTo(idx, first) == []
  {
    forall k | 0 <= k < first ensures !job.Touches(k, idx) {
      OutsideIsUntouched(job, k, idx);
    }
    SkipUntouched(job, idx, 0, first);
  }

  lemma StartsInside(job: Job, idx: nat, first: nat, i: nat)
    requires job.Valid() && first <= i < job.Files() && job.info.files[i].length > 0
    requires job.Start(idx) < job.info.files[first].End()
    requires job.info.files[i].offset < job.End(idx)
    ensures job.Touches(i, idx)
  {
    if first < i {
      EndsBeforeStarts(job.info.files, job.info.totalLength, first, i);
    }
    InsideIsTouched(job, i, idx);
  }

  lemma UntouchedAfter(job: Job, idx: nat, i: nat)
    requires job.Valid() && i <= job.Files()
    requires i < job.Files() ==> job.End(idx) <= job.info.files[i].offset
    ensures forall k :: i <= k < job.Files() ==> !job.Touches(k, idx)
    ensures job.ReadableUpTo(idx, job.Files()) <==> job.ReadableUpTo(idx, i)
    ensures job.DataUpTo(idx, job.Files()) == job.DataUpTo(idx, i)
  {
    forall k | i <= k < job.Files() ensures !job.Touches(k, idx) {
      if i < k {
        EndsBeforeStarts(job.info.files, job.info.totalLength, i, k);
      }
      OutsideIsUntouched(job, k, idx);
    }
    SkipUntouched(job, idx, i, job.Files());
  }

  /** One step of a file's counters. */
  function Tally(job: Job, check: FileCheck, k: nat, idx: nat, readable: bool, good: bool): FileCheck
    requires k < job.Files()
  {
    var c := check.(pieces := check.pieces + 1);
    var d := if !readable then c.(unreadable := c.unreadable + 1)
             else if good then c.(ok := c.ok + 1)
             else c.(mismatched := c.mismatched + 1);
    if (!readable || !good) && d.firstBad.None?
    then d.(firstBad := Some(Max(job.Start(idx) - job.info.files[k].offset, 0)))
    else d
  }

  lemma TallyIsRow(job: Job, k: nat, idx: nat, readable: bool, good: bool)
    requires job.Valid() && k < job.Files() && idx < |job.info.pieces| && job.Touches(k, idx)
    requires readable <==> job.ReadableUpTo(idx, job.Files())
    requires readable ==> (good <==> job.sha1(job.DataUpTo(idx, job.Files())) == job.info.pieces[idx])
    ensures Tally(job, job.Row(k, idx), k, idx, readable, good) == job.Row(k, idx + 1)
  {
  }

  lemma UntouchedRow(job: Job, k: nat, idx: nat)
    requires job.Valid() && k < job.Files() && idx < |job.info.pieces| && !job.Touches(k, idx)
    ensures job.Row(k, idx + 1) == job.Row(k, idx)
  {
  }

  lemma NoneBad(job: Job)
    requires job.Valid()
    ensures job.BadUpTo(0) == []
  {
  }

  lemma BadGrows(job: Job, idx: nat, readable: bool, good: bool)
    requires job.Valid() && idx < |job.info.pieces|
    requires readable <==> job.ReadableUpTo(idx, job.Files())
    requires good <==> readable && job.sha1(job.DataUpTo(idx, job.Files())) == job.info.pieces[idx]
    ensures job.BadUpTo(idx + 1) == if !readable || !good then job.BadUpTo(idx) + [idx] else job.BadUpTo(idx)
  {
  }

  lemma NothingOpen(handles: HandleTable)
    requires handles.Valid() && handles.open == {} && handles.released == multiset{}
    ensures HandlesFrom(handles, 0)
  {
  }

  lemma NothingBefore(job: Job)
    ensures EndBefore(job, 0, 0)
  {
  }

  /** The counters of every touched file. */
  method TallyAll(job: Job, before: seq<FileCheck>, touched: seq<nat>, idx: nat, readable: bool, good: bool)
    returns (checks: seq<FileCheck>)
    requires job.Valid() && idx < |job.info.pieces| && before == job.Rows(idx)
    requires forall k: nat :: k in touched <==> k < job.Files() && job.Touches(k, idx)
    requires forall a, b :: 0 <= a < b < |touched| ==> touched[a] != touched[b]
    requires readable <==> job.ReadableUpTo(idx, job.Files())
    requires readable ==> (good <==> job.sha1(job.DataUpTo(idx, job.Files())) == job.info.pieces[idx])
    ensures checks == job.Rows(idx + 1)
  {
    hide Tally, Job.OutcomeOf, Job.Row;
    checks := before;
    for t := 0 to |touched|
      invariant |checks| == job.Files()
      invariant forall k :: 0 <= k < job.Files() ==>
                  checks[k] == if k in touched[..t] then job.Row(k, idx + 1) else job.Row(k, idx)
    {
      var i := touched[t];
      assert i in touched && i !in touched[..t];
      TallyIsRow(job, i, idx, readable, good);
      checks := checks[i := Tally(job, checks[i], i, idx, readable, good)];
    }
    forall k: nat | k < job.Files() ensures checks[k] == job.Row(k, idx + 1) {
      assert touched[..|touched|] == touched;
      if k !in touched {
        UntouchedRow(job, k, idx);
      }
    }
  }

  /**
   `verify_all_pieces`. `cancelled(idx)` is the answer of the cancellation test asked before piece
   `idx`. Every handle acquired is released on every way out, and no file is acquired more than once.
   */
  method VerifyAllPieces(job: Job, cancelled: nat -> bool)
    returns (r: SweepResult, acquired: multiset<nat>, released: multiset<nat>)
    requires job.Valid()
    ensures r.Cancelled? <==> exists idx :: 0 <= idx < |job.info.pieces| && cancelled(idx)
    ensures r.Done? ==> r == Done(job.Rows(|job.info.pieces|), job.BadUpTo(|job.info.pieces|))
    ensures acquired == released && forall i :: acquired[i] <= 1
  {
    hide Job.Rows, Job.BadUpTo, Job.DataUpTo, Job.ReadableUpTo, Job.Touches, Job.Start, EndBefore, Contiguous;
    hide HandlesFrom, Job.Row;
    NothingBefore(job);
    var checks := job.Rows(0);
    var bad: seq<nat> := [];
    assert job.BadUpTo(0) == [] by { NoneBad(job); }
    var handles := new HandleTable();
    NothingOpen(handles);
    var first := 0;
    for idx := 0 to |job.info.pieces|
      invariant fresh(handles) && handles.Valid()
      invariant first <= job.Files() && HandlesFrom(handles, first)
      invariant EndBefore(job, first, idx)
      invariant checks == job.Rows(idx) && bad == job.BadUpTo(idx)
      invariant forall j :: 0 <= j < idx ==> !cancelled(j)
    {
      if cancelled(idx) {
        handles.CloseAll();
        return Cancelled, handles.acquired, handles.released;
      }
      first := Advance(job, handles, idx, first);
      var touched, readable, data := ReadPiece(job, handles, idx, first);
      var good := readable && job.sha1(data) == job.info.pieces[idx];
      checks := TallyAll(job, checks, touched, idx, readable, good);
      BadGrows(job, idx, readable, good);
      if !readable || !good {
        bad := bad + [idx];
      }
      StillBefore(job, first, idx);
    }
    handles.CloseAll();
    assert checks == job.Rows(|job.info.pieces|);
    return Done(checks, bad), handles.acquired, handles.released;
  }
}
