/**
 Why a passed verdict ends in `seeding`: the bytes a client may still have to download, piece by
 piece, stay below the allowance computed from the missing extras alone.
 */
module Tolerance {
  import opened Basics
  import opened Metainfo
  import opened Sweep
  import opened PieceRanges
  import opened FullCheck
  import opened ExampleTorrents
  import opened Candidates
  import opened SeedJobs

  function PieceSize(job: Job, idx: nat): int {
    Max(0, job.End(idx) - job.Start(idx))
  }

  /** What the client has left after its recheck: the bad pieces below `n`, each one whole. */
  function AmountLeft(job: Job, n: nat): int
    requires job.Files() <= |job.local| && n <= |job.info.pieces|
  {
    if n == 0 then 0 else AmountLeft(job, n - 1) + if job.Bad(n - 1) then PieceSize(job, n - 1) else 0
  }

  /** The pieces below `n` that touch file `k`, each one whole. */
  function TouchedBytes(job: Job, k: nat, n: nat): int
    requires k < job.Files()
  {
    if n == 0 then 0 else TouchedBytes(job, k, n - 1) + if job.Touches(k, n - 1) then PieceSize(job, n - 1) else 0
  }

  /** The same summed over the missing files below `m`: a piece shared by several counts several times. */
  function MissingCover(job: Job, m: nat, n: nat): int
    requires m <= job.Files() && m <= |job.local|
  {
    if m == 0 then 0
    else MissingCover(job, m - 1, n) + if job.local[m - 1].None? then TouchedBytes(job, m - 1, n) else 0
  }

  // ---------------------------------------------------------------- one file

  /** Pieces touching one file fill at most the span from the start of the first to the end of the last. */
  lemma {:induction false} TouchedSpan(job: Job, k: nat, n: nat)
    requires job.Valid() && k < job.Files() && job.info.files[k].length > 0
    ensures var first := FirstPiece(job, k);
            var end := Min(n, LastPiece(job, k) + 1);
            TouchedBytes(job, k, n) <= if n <= first then 0
                else (end * job.info.pieceLength) - (first * job.info.pieceLength)
  {
    hide FirstPiece, LastPiece, Job.Touches;
    FirstNonNegative(job, k);
    if n > 0 {
      TouchedSpan(job, k, n - 1);
      TouchRange(job, k, n - 1);
      PieceIsShort(job, n - 1);
      var pl, first, last := job.info.pieceLength, FirstPiece(job, k), LastPiece(job, k);
      RangeOrder(job, k);
      Times(n - 1, pl);
    }
  }

  lemma RangeOrder(job: Job, k: nat)
    requires job.Valid() && k < job.Files() && job.info.files[k].length > 0
    ensures FirstPiece(job, k) <= LastPiece(job, k)
  {
    RangeUnfold(job, k);
    DivAtLeast(job.info.files[k].offset, job.info.pieceLength, FirstPiece(job, k));
    DivAtLeast(job.info.files[k].End() - 1, job.info.pieceLength, FirstPiece(job, k));
  }

  lemma Times(n: int, d: int)
    ensures (n + 1) * d == n * d + d
  {
  }

  lemma Products(n: int, m: int, d: int)
    requires m <= n && 0 <= d
    ensures m * d <= n * d
  {
  }

  lemma PieceIsShort(job: Job, idx: nat)
    requires job.info.pieceLength > 0
    ensures 0 <= PieceSize(job, idx) <= job.info.pieceLength
  {
  }

  /** At most its own length and, at each end, less than one piece shared with the neighbours. */
  lemma TouchedBound(job: Job, k: nat, n: nat)
    requires job.Valid() && k < job.Files()
    ensures TouchedBytes(job, k, n) <= job.info.files[k].length + 2 * job.info.pieceLength
  {
    var pl, f := job.info.pieceLength, job.info.files[k];
    if f.length == 0 {
      UntouchedBytes(job, k, n);
    } else {
      TouchedSpan(job, k, n);
      FirstNonNegative(job, k);
      SpanBound(job, k);
      var first, last := FirstPiece(job, k), LastPiece(job, k);
      hide FirstPiece, LastPiece, TouchedBytes;
      if n > first {
        Products(last + 1, Min(n, last + 1), pl);
      }
    }
  }

  lemma SpanBound(job: Job, k: nat)
    requires job.Valid() && k < job.Files() && job.info.files[k].length > 0
    ensures (LastPiece(job, k) + 1) * job.info.pieceLength - FirstPiece(job, k) * job.info.pieceLength
         <= job.info.files[k].length + 2 * job.info.pieceLength
  {
    hide FirstPiece, LastPiece;
    var pl, f := job.info.pieceLength, job.info.files[k];
    var first, last := FirstPiece(job, k), LastPiece(job, k);
    RangeUnfold(job, k);
    DivAtLeast(f.End() - 1, pl, last);
    DivAtLeast(f.offset, pl, first + 1);
    Times(first, pl);
    Times(last, pl);
  }

  lemma {:induction false} UntouchedBytes(job: Job, k: nat, n: nat)
    requires k < job.Files() && job.info.files[k].length <= 0
    ensures TouchedBytes(job, k, n) == 0
  {
    if n > 0 {
      UntouchedBytes(job, k, n - 1);
    }
  }

  // ---------------------------------------------------------------- all missing files

  lemma {:induction false} CoverNonNegative(job: Job, m: nat, n: nat)
    requires job.info.pieceLength > 0 && m <= job.Files() && m <= |job.local|
    ensures n > 0 ==> MissingCover(job, m, n) >= MissingCover(job, m, n - 1)
    ensures n > 0 && (exists k :: 0 <= k < m && job.local[k].None? && job.Touches(k, n - 1)) ==>
              MissingCover(job, m, n) >= MissingCover(job, m, n - 1) + PieceSize(job, n - 1)
  {
    hide Job.Touches, PieceSize;
    if m > 0 && n > 0 {
      CoverNonNegative(job, m - 1, n);
      PieceIsShort(job, n - 1);
    }
  }

  lemma {:induction false} CoverStartsAtZero(job: Job, m: nat)
    requires m <= job.Files() && m <= |job.local|
    ensures MissingCover(job, m, 0) == 0
  {
    if m > 0 {
      CoverStartsAtZero(job, m - 1);
    }
  }

  /** If every bad piece touches a missing file, the cover bounds what is left. */
  lemma {:induction false} LeftIsCovered(job: Job, n: nat)
    requires job.Valid() && n <= |job.info.pieces|
    requires forall idx: nat :: idx < n && job.Bad(idx) ==> TouchesMissing(job, idx)
    ensures AmountLeft(job, n) <= MissingCover(job, job.Files(), n)
  {
    hide Job.Touches, PieceSize, MissingCover, Job.Bad;
    if n == 0 {
      CoverStartsAtZero(job, job.Files());
    } else {
      LeftIsCovered(job, n - 1);
      CoverNonNegative(job, job.Files(), n);
      if job.Bad(n - 1) {
        assert TouchesMissing(job, n - 1);
      }
    }
  }

  function MissingLength(job: Job, m: nat): int
    requires m <= job.Files() && m <= |job.local|
  {
    if m == 0 then 0 else MissingLength(job, m - 1) + if job.local[m - 1].None? then job.info.files[m - 1].length else 0
  }

  function MissingFiles(job: Job, m: nat): nat
    requires m <= job.Files() && m <= |job.local|
  {
    if m == 0 then 0 else MissingFiles(job, m - 1) + if job.local[m - 1].None? then 1 else 0
  }

  /**
   The bound itself, for any mix of adjacent, tiny, empty or piece-sharing missing files: their sizes
   plus two pieces each.
   */
  lemma {:induction false} CoverBound(job: Job, m: nat, n: nat)
    requires job.Valid() && m <= job.Files()
    ensures MissingCover(job, m, n) <= MissingLength(job, m) + 2 * job.info.pieceLength * MissingFiles(job, m)
  {
    hide TouchedBytes, Contiguous;
    if m > 0 {
      CoverBound(job, m - 1, n);
      TouchedBound(job, m - 1, n);
      var d := 2 * job.info.pieceLength;
      Times(MissingFiles(job, m - 1), d);
    }
  }

  // ---------------------------------------------------------------- rows and client

  /** The rows of the candidate describe the torrent's files, and every file with no local copy is a missing extra. */
  predicate RowsAgree(c: Candidate, job: Job)
    requires job.Files() <= |job.local|
  {
    && |c.files| == job.Files()
    && PieceLengthOr(c.pieceLength) >= job.info.pieceLength
    && forall k :: 0 <= k < job.Files() ==> RowAgrees(c.files[k], job, k)
  }

  predicate RowAgrees(f: CandidateFile, job: Job, k: nat)
    requires k < job.Files() && k < |job.local|
  {
    && f.size == Some(job.info.files[k].length)
    && (job.local[k].None? ==> MissingExtra(f))
  }

  /** The status of a client that finished its recheck with no error, having `left` bytes to get. */
  predicate Reports(status: TorrentStatus, left: int) {
    if left == 0 then status.recheck == Okay
    else status.recheck == Recheck.Failed && status.incomplete && status.amountLeft == Some(left)
  }

  lemma {:induction false} RowsCount(files: seq<CandidateFile>, job: Job, m: nat)
    requires job.Valid() && m <= |files| <= job.Files()
    requires forall k :: 0 <= k < m ==> RowAgrees(files[k], job, k)
    ensures MissingLength(job, m) <= MissingSize(files[..m]) && MissingFiles(job, m) <= MissingCount(files[..m])
  {
    if m > 0 {
      RowsCount(files, job, m - 1);
      assert files[..m][..m - 1] == files[..m - 1];
      assert RowAgrees(files[m - 1], job, m - 1);
    }
  }

  /** What is left never exceeds the allowance of the rows. */
  lemma LeftWithinAllowance(job: Job, c: Candidate, isVideo: IsVideo)
    requires job.Valid() && RowsAgree(c, job) && Passes(Summary(job), isVideo)
    ensures 0 <= AmountLeft(job, |job.info.pieces|) <= MissingBytesFor(c)
    ensures AmountLeft(job, |job.info.pieces|) > 0 ==> MissingBytesFor(c) > 0
  {
    var n := |job.info.pieces|;
    VerdictExact(job, isVideo);
    assert forall idx: nat :: idx < n && job.Bad(idx) ==> TouchesMissing(job, idx);
    LeftIsCovered(job, n);
    LeftNonNegative(job, n);
    CoverBound(job, job.Files(), n);
    assert c.files[..job.Files()] == c.files;
    RowsCount(c.files, job, job.Files());
    AllowanceGrows(job, c);
  }

  lemma {:induction false} LeftNonNegative(job: Job, n: nat)
    requires job.Valid() && n <= |job.info.pieces|
    ensures 0 <= AmountLeft(job, n)
  {
    hide Job.Bad, PieceSize;
    if n > 0 {
      LeftNonNegative(job, n - 1);
      PieceIsShort(job, n - 1);
    }
  }

  lemma AllowanceGrows(job: Job, c: Candidate)
    requires job.Valid() && RowsAgree(c, job)
    requires MissingLength(job, job.Files()) <= MissingSize(c.files)
    requires MissingFiles(job, job.Files()) <= MissingCount(c.files)
    ensures MissingLength(job, job.Files()) + 2 * job.info.pieceLength * MissingFiles(job, job.Files())
         <= MissingBytesFor(c)
  {
    var a, b := MissingFiles(job, job.Files()), MissingCount(c.files);
    var d, e := 2 * job.info.pieceLength, 2 * PieceLengthOr(c.pieceLength);
    Products(b, a, d);
    Products(e, d, b);
    assert a * d <= b * d <= b * e;
    if b == 0 {
      NothingMissing(job, job.Files());
    }
  }

  lemma {:induction false} NothingMissing(job: Job, m: nat)
    requires m <= job.Files() && m <= |job.local|
    ensures MissingFiles(job, m) == 0 ==> MissingLength(job, m) == 0
  {
    if m > 0 {
      NothingMissing(job, m - 1);
    }
  }

  /**
   End to end: if the verdict of the full check passes, the candidate's rows agree with the torrent
   and the client reports what its recheck of the same files leaves, then reconciling the seed job
   ends in `seeding`.
   */
  lemma PassedVerdictSeeds(job: Job, c: Candidate, isVideo: IsVideo, status: TorrentStatus, before: FinalStatus)
    requires job.Valid() && RowsAgree(c, job) && Passes(Summary(job), isVideo)
    requires Reports(status, AmountLeft(job, |job.info.pieces|))
    ensures FinalAfter(before, Tolerated(status, MissingBytesFor(c))) == Seeding
  {
    hide MissingBytesFor, AmountLeft, Summary;
    LeftWithinAllowance(job, c, isVideo);
  }

  /** A video that is there in full, an extra that is missing, and one piece of each. */
  predicate IsExample(job: Job, a: seq<byte>, b: seq<byte>) {
    && job.info == TorrentInfo("t", 1, [a, b], [FileEntry("v", 1, 0), FileEntry("n", 1, 1)], true, 2)
    && job.local == [Some("v"), None] && job.disk.bytes == map["v" := [7]]
    && job.disk.Opens("v") && job.disk.delivers("v", 0, 1) && job.disk.stats("v")
    && job.sha1([7]) == a && |a| == |b| == HASH_SIZE
  }

  lemma ExampleIsValid(job: Job, a: seq<byte>, b: seq<byte>)
    requires IsExample(job, a, b)
    ensures job.Valid()
    ensures job.Touches(0, 0) && !job.Touches(1, 0) && !job.Touches(0, 1) && job.Touches(1, 1) && PieceSize(job, 1) == 1
  {
    var files := job.info.files;
    assert StartOf(files, 0) == 0 && StartOf(files, 1) == 1 && StartOf(files, 2) == 2;
  }

  lemma ExampleOutcomes(job: Job, a: seq<byte>, b: seq<byte>)
    requires IsExample(job, a, b)
    ensures job.OutcomeOf(0) == Good && job.Bad(1)
  {
    ExampleIsValid(job, a, b);
    assert Slice(job.disk.bytes["v"], 0, 1) == [7];
    assert job.Part(0, 0) == Some([7]) && job.Part(1, 1) == None;
    assert job.DataUpTo(0, 0) == [] && job.DataUpTo(0, 1) == [7] && job.DataUpTo(0, 2) == [7];
  }

  lemma ExampleFits(job: Job, a: seq<byte>, b: seq<byte>, isVideo: IsVideo)
    requires IsExample(job, a, b) && isVideo("v") && !isVideo("n")
    ensures FilesFit(job, isVideo) && TouchesMissing(job, 1)
  {
    ExampleIsValid(job, a, b);
  }

  /** The hypotheses of the end-to-end result can hold with something left to download. */
  lemma ExampleSeeds(job: Job, a: seq<byte>, b: seq<byte>, c: Candidate, isVideo: IsVideo)
    requires IsExample(job, a, b) && isVideo("v") && !isVideo("n")
    requires c.pieceLength == Some(1) && |c.files| == 2 && c.files[0].size == c.files[1].size == Some(1)
    requires MissingExtra(c.files[1])
    ensures ParsesTo(TwoFileTorrent(a, b), Letters, job.info)
    ensures job.Valid() && RowsAgree(c, job) && Passes(Summary(job), isVideo) && AmountLeft(job, |job.info.pieces|) == 1
  {
    hide Passes, Summary, Job.OutcomeOf, Job.Touches, Job.Valid, PieceSize, FilesFit, TouchesMissing, ParsesTo;
    LettersOf(116, 't');
    LettersOf(118, 'v');
    LettersOf(110, 'n');
    TwoFilesParse(a, b, Letters);
    ExampleIsValid(job, a, b);
    ExampleOutcomes(job, a, b);
    ExampleFits(job, a, b, isVideo);
    VerdictExact(job, isVideo);
    assert AmountLeft(job, 1) == 0;
  }
}
