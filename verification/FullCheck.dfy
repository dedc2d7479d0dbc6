/**
 The totals of `run_full_check` and the verdict drawn from them: will the client's recheck pass?
 The verdict reads only counts and sizes; the lemmas say what it means for every piece.
 */
module FullCheck {
  import opened Basics
  import opened Metainfo
  import opened Sweep
  import opened PieceRanges
  import opened ExampleTorrents

  const MAX_BAD_PIECES_LISTED := 20

  datatype CheckResult = CheckResult(
    pieces: nat, ok: int, mismatched: int, unreadable: int, badPieces: seq<nat>, files: seq<FileCheck>)

  type IsVideo = string -> bool

  // ---------------------------------------------------------------- unreadable pieces

  /** No local copy, or one whose size is unknown or too small. */
  predicate NotWhole(job: Job, k: nat)
    requires k < job.Files() && k < |job.local|
  {
    var size := match job.disk.SizeOf(job.local[k]) case None => 0 case Some(n) => n;
    job.local[k].None? || size < job.info.files[k].length
  }

  /** The numbers below `n`. */
  function Below(n: nat): (s: set<nat>)
    ensures forall i: nat :: i in s <==> i < n
    ensures |s| == n
  {
    if n == 0 then {} else Below(n - 1) + {n - 1}
  }

  /** `range(a, b + 1)` */
  function Span(a: int, b: int): set<nat> {
    Below(Max(0, b + 1)) - Below(Max(0, a))
  }

  function UnreadableUpTo(job: Job, n: nat): set<nat>
    requires job.info.pieceLength > 0 && n <= job.Files() && n <= |job.local|
  {
    if n == 0 then {}
    else if job.info.files[n - 1].length != 0 && NotWhole(job, n - 1)
    then UnreadableUpTo(job, n - 1) + Span(FirstPiece(job, n - 1), LastPiece(job, n - 1))
    else UnreadableUpTo(job, n - 1)
  }

  /** `_unreadable_pieces` */
  method UnreadablePieces(job: Job, checks: seq<FileCheck>) returns (result: set<nat>)
    requires job.Valid() && checks == job.Rows(|job.info.pieces|)
    ensures result == UnreadableUpTo(job, job.Files())
  {
    hide Job.Count, Job.TouchCount, Job.FirstBad, Span, Contiguous;
    result := {};
    for k := 0 to |job.info.files|
      invariant result == UnreadableUpTo(job, k)
    {
      var entry, check := job.info.files[k], checks[k];
      if entry.length != 0 {
        var size := if check.localSize.Some? then check.localSize.value else 0;
        if check.local.None? || size < entry.length {
          var first := entry.offset / job.info.pieceLength;
          var last := (entry.offset + entry.length - 1) / job.info.pieceLength;
          result := result + Span(first, last);
        }
      }
    }
  }

  /** File `k` is not there in full and shares bytes with the piece. */
  predicate Spoils(job: Job, k: nat, idx: nat)
    requires k < job.Files() && k < |job.local|
  {
    NotWhole(job, k) && job.Touches(k, idx)
  }

  lemma UnreadableStep(job: Job, n: nat, idx: nat)
    requires job.Valid() && n < job.Files()
    ensures idx in UnreadableUpTo(job, n + 1) <==> idx in UnreadableUpTo(job, n) || Spoils(job, n, idx)
  {
    hide NotWhole, Job.Touches, FirstPiece, LastPiece, Contiguous;
    TouchRange(job, n, idx);
  }

  lemma NoFilesNoPieces(job: Job)
    requires job.Valid()
    ensures UnreadableUpTo(job, 0) == {}
  {
  }

  /** The set is that of the pieces touching a file that is not there in full. */
  lemma {:induction false} UnreadableMeaning(job: Job, n: nat, idx: nat)
    requires job.Valid() && n <= job.Files()
    ensures idx in UnreadableUpTo(job, n) <==> exists k: nat :: k < n && Spoils(job, k, idx)
  {
    hide Spoils, UnreadableUpTo;
    if n == 0 {
      assert idx !in UnreadableUpTo(job, 0) by { NoFilesNoPieces(job); }
    } else {
      UnreadableMeaning(job, n - 1, idx);
      UnreadableStep(job, n - 1, idx);
    }
  }

  // ---------------------------------------------------------------- totals

  function BadSet(job: Job): set<nat>
    requires job.Files() <= |job.local|
  {
    set idx: nat | idx < |job.info.pieces| && job.Bad(idx)
  }

  function Summary(job: Job): CheckResult
    requires job.info.pieceLength > 0 && job.Files() <= |job.local|
  {
    var unreadable := |BadSet(job) * UnreadableUpTo(job, job.Files())|;
    var bad := job.BadUpTo(|job.info.pieces|);
    CheckResult(|job.info.pieces|, |job.info.pieces| - |BadSet(job)|, |BadSet(job)| - unreadable, unreadable,
                bad[..Min(|bad|, MAX_BAD_PIECES_LISTED)], job.Rows(|job.info.pieces|))
  }

  /** `run_full_check` once the .torrent is parsed and the files located; `None` when cancelled. */
  method RunFullCheck(job: Job, cancelled: nat -> bool) returns (r: Option<CheckResult>)
    requires job.Valid()
    ensures r.None? <==> exists idx :: 0 <= idx < |job.info.pieces| && cancelled(idx)
    ensures r.Some? ==> r.value == Summary(job)
  {
    var swept, _, _ := VerifyAllPieces(job, cancelled);
    if swept.Cancelled? {
      return None;
    }
    var badSet := set idx | idx in swept.bad;
    assert badSet == BadSet(job);
    var unreadablePieces := UnreadablePieces(job, swept.checks);
    var unreadable := |badSet * unreadablePieces|;
    var mismatched := |badSet| - unreadable;
    var ok := |job.info.pieces| - |badSet|;
    return Some(CheckResult(|job.info.pieces|, ok, mismatched, unreadable,
                            swept.bad[..Min(|swept.bad|, MAX_BAD_PIECES_LISTED)], swept.checks));
  }

  /**
   The totals split the pieces in three: good, bad while every file they touch is whole, bad and
   touching a file that is not whole. So a piece of a short file counts as unreadable in the totals
   even when its own bytes were read and differ, and a read error on a whole file counts as mismatched.
   */
  lemma TotalsMeaning(job: Job)
    requires job.Valid()
    ensures var s := Summary(job);
            && s.ok + s.mismatched + s.unreadable == s.pieces
            && s.ok == |set idx: nat | idx < |job.info.pieces| && job.OutcomeOf(idx) == Good|
            && s.mismatched == |set idx: nat | idx < |job.info.pieces| && job.Bad(idx) && Whole(job, idx)|
            && s.unreadable == |set idx: nat | idx < |job.info.pieces| && job.Bad(idx) && !Whole(job, idx)|
  {
    hide Job.OutcomeOf, Whole, UnreadableUpTo;
    var all := Below(|job.info.pieces|);
    var good := set idx: nat | idx < |job.info.pieces| && job.OutcomeOf(idx) == Good;
    var bad, unreadable := BadSet(job), UnreadableUpTo(job, job.Files());
    assert all - bad == good;
    assert all * bad == bad;
    forall idx: nat ensures idx in unreadable <==> !Whole(job, idx) {
      WholeMeaning(job, idx);
    }
    assert bad - unreadable == set idx: nat | idx < |job.info.pieces| && job.Bad(idx) && Whole(job, idx);
    assert bad * unreadable == set idx: nat | idx < |job.info.pieces| && job.Bad(idx) && !Whole(job, idx);
  }

  /** Every file the piece touches is there with at least its length. */
  predicate Whole(job: Job, idx: nat)
    requires job.Files() <= |job.local|
  {
    forall k :: 0 <= k < job.Files() && job.Touches(k, idx) ==> !NotWhole(job, k)
  }

  lemma WholeMeaning(job: Job, idx: nat)
    requires job.Valid()
    ensures idx in UnreadableUpTo(job, job.Files()) <==> !Whole(job, idx)
  {
    hide NotWhole, Job.Touches, UnreadableUpTo;
    UnreadableMeaning(job, job.Files(), idx);
    if !Whole(job, idx) {
      var k :| 0 <= k < job.Files() && job.Touches(k, idx) && NotWhole(job, k);
      assert Spoils(job, k, idx);
    }
  }

  /** One file, in pieces of one byte. */
  predicate OneFile(job: Job, pieces: seq<seq<byte>>) {
    && job.info == TorrentInfo("f", 1, pieces, [FileEntry("f", |pieces|, 0)], false, |pieces|)
    && job.local == [Some("f")] && forall h :: h in pieces ==> |h| == HASH_SIZE
  }

  /** A .torrent that the parser reads as this job's. */
  lemma OneFileIsParsed(job: Job, pieces: seq<seq<byte>>)
    requires OneFile(job, pieces)
    ensures ParsesTo(OneFileTorrent(pieces), Letters, job.info)
  {
    hide ParsesTo, Letters;
    LettersOf(102, 'f');
    OneFileParses(pieces, Letters);
  }

  lemma OneFileTouches(job: Job, pieces: seq<seq<byte>>, idx: nat)
    requires OneFile(job, pieces) && idx < |pieces|
    ensures job.Valid() && job.Touches(0, idx) && job.Lo(0, idx) == idx && job.Hi(0, idx) == idx + 1
  {
    var files := job.info.files;
    assert StartOf(files, 0) == 0 && StartOf(files, 1) == |pieces|;
  }

  /** What the sweep says of such a piece. */
  lemma OneFileOutcome(job: Job, pieces: seq<seq<byte>>, idx: nat)
    requires OneFile(job, pieces) && idx < |pieces|
    ensures var read := job.disk.ReadAt(Some("f"), idx, 1);
      job.OutcomeOf(idx) == if read.None? || |read.value| != 1 then Unreadable
                            else if job.sha1(read.value) == pieces[idx] then Good else Mismatch
  {
    hide Disk.ReadAt;
    OneFileTouches(job, pieces, idx);
    var read := job.disk.ReadAt(Some("f"), idx, 1);
    assert job.Part(0, idx) == if read.Some? && |read.value| == 1 then read else None;
    assert job.DataUpTo(idx, 0) == [];
    assert read.Some? && |read.value| == 1 ==> job.DataUpTo(idx, 1) == [] + read.value == read.value;
  }

  lemma OneFileWhole(job: Job, pieces: seq<seq<byte>>, idx: nat)
    requires OneFile(job, pieces) && idx < |pieces| && "f" in job.disk.bytes && job.disk.stats("f")
    ensures Whole(job, idx) <==> |job.disk.bytes["f"]| >= |pieces|
  {
    hide Job.OutcomeOf;
    OneFileTouches(job, pieces, idx);
    hide Job.Touches, Job.Valid;
    assert job.local[0] == Some("f") && job.disk.SizeOf(job.local[0]) == Some(|job.disk.bytes["f"]|);
  }

  /**
   A file one byte short whose first byte is wrong: that piece was read and differs, and still counts as
   unreadable.
   */
  lemma ShortFileCountsAsUnreadable(job: Job, a: seq<byte>, b: seq<byte>)
    requires OneFile(job, [a, b]) && job.disk.bytes == map["f" := [9]] && job.disk.Opens("f") && job.disk.stats("f")
    requires job.disk.delivers("f", 0, 1) && job.sha1([9]) != a
    ensures ParsesTo(OneFileTorrent([a, b]), Letters, job.info)
    ensures job.OutcomeOf(0) == Mismatch && Summary(job).mismatched == 0 && Summary(job).unreadable >= 1
  {
    hide Job.OutcomeOf, Summary, Whole, Job.Touches, Job.Valid, Job.BadUpTo, Job.Rows, ParsesTo, OneFileTorrent;
    var pieces := [a, b];
    OneFileIsParsed(job, pieces);
    OneFileTouches(job, pieces, 0);
    assert Slice(job.disk.bytes["f"], 0, 1) == [9];
    OneFileOutcome(job, pieces, 0);
    OneFileWhole(job, pieces, 0);
    OneFileWhole(job, pieces, 1);
    TotalsMeaning(job);
    assert job.Bad(0);
    AtLeastOne(set idx: nat | idx < |job.info.pieces| && job.Bad(idx) && !Whole(job, idx), 0);
    assert (set idx: nat | idx < |job.info.pieces| && job.Bad(idx) && Whole(job, idx)) == {};
  }

  /** A file of the right size that cannot be read: nothing was compared, and still its piece counts as mismatched. */
  lemma ReadErrorCountsAsMismatched(job: Job, a: seq<byte>)
    requires OneFile(job, [a]) && job.disk.bytes == map["f" := [9]] && job.disk.stats("f")
    requires !job.disk.delivers("f", 0, 1)
    ensures ParsesTo(OneFileTorrent([a]), Letters, job.info)
    ensures job.OutcomeOf(0) == Unreadable && Summary(job).mismatched == 1 && Summary(job).unreadable == 0
  {
    hide Job.OutcomeOf, Summary, Whole, Job.Touches, Job.Valid, Job.BadUpTo, Job.Rows, ParsesTo, OneFileTorrent;
    var pieces := [a];
    OneFileIsParsed(job, pieces);
    OneFileTouches(job, pieces, 0);
    OneFileOutcome(job, pieces, 0);
    OneFileWhole(job, pieces, 0);
    TotalsMeaning(job);
    assert job.Bad(0);
    assert (set idx: nat | idx < |job.info.pieces| && job.Bad(idx) && Whole(job, idx)) == {0};
    assert (set idx: nat | idx < |job.info.pieces| && job.Bad(idx) && !Whole(job, idx)) == {};
  }

  lemma AtLeastOne(s: set<nat>, x: nat)
    requires x in s
    ensures |s| >= 1
  {
    assert s == (s - {x}) + {x};
  }

  // ---------------------------------------------------------------- verdict

  datatype Reason =
    | NoReason
    | PiecesDiffer(mismatched: int, pieces: nat)
    | NoLocalFile(path: string)
    | WrongSize(path: string, local: Option<nat>, expected: int)

  /** A missing file must not be a video; any other file must have its exact size. */
  predicate RowFits(f: FileCheck, isVideo: IsVideo) {
    if f.local.None? then !isVideo(f.path) else f.localSize.Some? && f.localSize.value == f.size
  }

  predicate Passes(result: CheckResult, isVideo: IsVideo) {
    result.mismatched == 0 && forall f :: f in result.files ==> RowFits(f, isVideo)
  }

  /** The complaint about a row that does not fit. */
  function Complaint(f: FileCheck): Reason {
    if f.local.None? then NoLocalFile(f.path) else WrongSize(f.path, f.localSize, f.size)
  }

  /** `verdict`: the reason given is that of the first row that does not fit. */
  method Verdict(result: CheckResult, isVideo: IsVideo) returns (passed: bool, reason: Reason)
    ensures passed <==> Passes(result, isVideo)
    ensures passed <==> reason == NoReason
    ensures result.mismatched != 0 ==> reason == PiecesDiffer(result.mismatched, result.pieces)
    ensures !passed && result.mismatched == 0 ==>
              exists k :: 0 <= k < |result.files| && !RowFits(result.files[k], isVideo)
                && reason == Complaint(result.files[k])
                && forall j :: 0 <= j < k ==> RowFits(result.files[j], isVideo)
  {
    if result.mismatched != 0 {
      return false, PiecesDiffer(result.mismatched, result.pieces);
    }
    for k := 0 to |result.files|
      invariant forall j :: 0 <= j < k ==> RowFits(result.files[j], isVideo)
    {
      var f := result.files[k];
      if f.local.None? {
        if isVideo(f.path) {
          assert !RowFits(f, isVideo);
          return false, NoLocalFile(f.path);
        }
      } else if f.localSize.None? || f.localSize.value != f.size {
        assert !RowFits(f, isVideo);
        return false, WrongSize(f.path, f.localSize, f.size);
      }
    }
    return true, NoReason;
  }

  // ---------------------------------------------------------------- what a verdict means

  /** Every located file has its size, and only non-video files are missing. */
  predicate FilesFit(job: Job, isVideo: IsVideo)
    requires job.Files() <= |job.local|
  {
    forall k :: 0 <= k < job.Files() ==>
      if job.local[k].None? then !isVideo(job.info.files[k].path)
      else job.disk.SizeOf(job.local[k]).Some? && job.disk.SizeOf(job.local[k]).value == job.info.files[k].length
  }

  /** The piece shares bytes with a file that has no local copy. */
  predicate TouchesMissing(job: Job, idx: nat)
    requires job.Files() <= |job.local|
  {
    exists k :: 0 <= k < job.Files() && job.local[k].None? && job.Touches(k, idx)
  }

  lemma FilesFitMeaning(job: Job, isVideo: IsVideo)
    requires job.Valid()
    ensures FilesFit(job, isVideo) <==> forall f :: f in Summary(job).files ==> RowFits(f, isVideo)
  {
    hide Job.Count, Job.TouchCount, Job.FirstBad, Job.OutcomeOf;
    var n := |job.info.pieces|;
    var rows := Summary(job).files;
    assert rows == job.Rows(n);
    if FilesFit(job, isVideo) {
      forall f | f in rows ensures RowFits(f, isVideo) {
        var k :| 0 <= k < |rows| && rows[k] == f;
        assert f == job.Row(k, n);
      }
    }
    if forall f :: f in rows ==> RowFits(f, isVideo) {
      forall k | 0 <= k < job.Files()
        ensures if job.local[k].None? then !isVideo(job.info.files[k].path)
                else job.disk.SizeOf(job.local[k]) == Some(job.info.files[k].length)
      {
        assert rows[k] == job.Row(k, n) && rows[k] in rows;
      }
    }
  }

  /**
   The verdict, exactly: it passes if and only if the files fit and every piece that touches no
   missing file hashes correctly. This covers failing reads and short files.
   */
  lemma VerdictExact(job: Job, isVideo: IsVideo)
    requires job.Valid()
    ensures Passes(Summary(job), isVideo)
       <==> && FilesFit(job, isVideo)
            && forall idx: nat :: idx < |job.info.pieces| && !TouchesMissing(job, idx) ==> job.OutcomeOf(idx) == Good
  {
    FilesFitMeaning(job, isVideo);
    MismatchedMeaning(job);
    hide Summary, Job.OutcomeOf, Whole, TouchesMissing, FilesFit;
    if FilesFit(job, isVideo) {
      forall idx: nat | idx < |job.info.pieces| ensures Whole(job, idx) <==> !TouchesMissing(job, idx) {
        FittingIsWhole(job, isVideo, idx);
      }
    }
  }

  lemma MismatchedMeaning(job: Job)
    requires job.Valid()
    ensures Summary(job).mismatched == 0
       <==> forall idx: nat :: idx < |job.info.pieces| && Whole(job, idx) ==> job.OutcomeOf(idx) == Good
  {
    hide Job.OutcomeOf, Whole, UnreadableUpTo;
    var bad, unreadable := BadSet(job), UnreadableUpTo(job, job.Files());
    assert Summary(job).mismatched == |bad - unreadable|;
    forall idx: nat ensures idx in unreadable <==> !Whole(job, idx) {
      WholeMeaning(job, idx);
    }
    if Summary(job).mismatched == 0 {
      assert bad - unreadable == {};
      forall idx: nat | idx < |job.info.pieces| && Whole(job, idx) ensures job.OutcomeOf(idx) == Good {
        assert idx !in bad - unreadable;
      }
    } else {
      assert bad - unreadable != {};
      var idx :| idx in bad - unreadable;
      assert idx in bad && Whole(job, idx);
    }
  }

  lemma FittingIsWhole(job: Job, isVideo: IsVideo, idx: nat)
    requires job.Valid() && FilesFit(job, isVideo)
    ensures Whole(job, idx) <==> !TouchesMissing(job, idx)
  {
    hide Job.Touches;
  }

  /**
   Completeness in terms of the torrent's content: if the hashes are those of some stream, every
   located file holds its slice of it and only non-video files are missing, the verdict passes.
   */
  lemma VerdictComplete(job: Job, isVideo: IsVideo, stream: seq<byte>)
    requires job.Valid() && |stream| == job.info.totalLength && HashesOf(job, stream)
    requires forall k :: 0 <= k < job.Files() ==>
               if job.local[k].None? then !isVideo(job.info.files[k].path)
               else Holds(job, k, stream) && job.local[k].value != "" && job.disk.stats(job.local[k].value)
    ensures Passes(Summary(job), isVideo)
  {
    hide HashesOf, Job.Touches, Job.OutcomeOf, Summary;
    forall idx: nat | idx < |job.info.pieces| && !TouchesMissing(job, idx) ensures job.OutcomeOf(idx) == Good {
      HeldPieceIsGood(job, idx, stream);
    }
    VerdictExact(job, isVideo);
  }
}
