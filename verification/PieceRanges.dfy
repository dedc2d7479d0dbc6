/**
 What the rows of the sweep mean: which pieces touch a file in closed form, how the counters add up,
 which piece `first_bad_offset` comes from, and that a piece is a slice of the concatenated stream.
 */
module PieceRanges {
  import opened Basics
  import opened Metainfo
  import opened Sweep

  /** `entry.offset // piece_length` and `(entry.offset + entry.length - 1) // piece_length`. */
  function FirstPiece(job: Job, k: nat): int
    requires job.info.pieceLength > 0 && k < job.Files()
  {
    job.info.files[k].offset / job.info.pieceLength
  }

  function LastPiece(job: Job, k: nat): int
    requires job.info.pieceLength > 0 && k < job.Files()
  {
    (job.info.files[k].End() - 1) / job.info.pieceLength
  }

  lemma {:induction false} StartNonNegative(files: seq<FileEntry>, total: int, k: nat)
    requires Contiguous(files, total) && (forall j :: 0 <= j < |files| ==> files[j].length >= 0)
    requires k <= |files|
    ensures 0 <= StartOf(files, k) <= total
  {
    if k > 0 {
      EndsBeforeStarts(files, total, k - 1, |files|);
      assert files[0].offset == StartOf(files, 0) == 0;
      if k > 1 {
        EndsBeforeStarts(files, total, 0, k - 1);
        assert files[k - 1].offset == StartOf(files, k - 1);
      }
    } else if |files| > 0 {
      EndsBeforeStarts(files, total, 0, |files|);
      assert files[0].offset == StartOf(files, 0) == 0;
    }
  }

  lemma WithinStream(job: Job, k: nat)
    requires job.Valid() && k < job.Files()
    ensures 0 <= job.info.files[k].offset <= job.info.files[k].End() <= job.info.totalLength
  {
    StartNonNegative(job.info.files, job.info.totalLength, k);
    StartNonNegative(job.info.files, job.info.totalLength, k + 1);
    assert job.info.files[k].offset == StartOf(job.info.files, k);
  }

  /** `q <= x / d` in terms of the multiple of `d`. */
  lemma DivAtLeast(x: int, d: int, q: int)
    requires d > 0
    ensures q <= x / d <==> q * d <= x
  {
    var p, r := x / d, x % d;
    assert x == p * d + r && 0 <= r < d;
    if q <= p {
      assert q * d <= p * d;
    } else {
      assert q * d >= (p + 1) * d;
      assert (p + 1) * d == p * d + d;
    }
  }

  /** A piece touches a non-empty file exactly when its number is in the closed-form range. */
  lemma TouchRange(job: Job, k: nat, idx: nat)
    requires job.Valid() && k < job.Files()
    ensures job.Touches(k, idx)
       <==> job.info.files[k].length > 0 && FirstPiece(job, k) <= idx <= LastPiece(job, k)
  {
    hide FirstPiece, LastPiece, Contiguous;
    var f, pl := job.info.files[k], job.info.pieceLength;
    WithinStream(job, k);
    NextStart(job, idx);
    DivAtLeast(f.End() - 1, pl, idx);
    DivAtLeast(f.offset, pl, idx + 1);
    RangeUnfold(job, k);
  }

  lemma RangeUnfold(job: Job, k: nat)
    requires job.info.pieceLength > 0 && k < job.Files()
    ensures FirstPiece(job, k) == job.info.files[k].offset / job.info.pieceLength
    ensures LastPiece(job, k) == (job.info.files[k].End() - 1) / job.info.pieceLength
  {
  }

  /** How many pieces below `n` are in the range of file `k`. */
  function RangeCount(job: Job, k: nat, n: nat): int
    requires job.info.pieceLength > 0 && k < job.Files()
  {
    if job.info.files[k].length == 0 then 0 else Max(0, Min(n, LastPiece(job, k) + 1) - FirstPiece(job, k))
  }

  lemma {:induction false} TouchCountClosed(job: Job, k: nat, n: nat)
    requires job.Valid() && k < job.Files()
    ensures job.TouchCount(k, n) == RangeCount(job, k, n)
  {
    hide Job.Touches, FirstPiece, LastPiece;
    FirstNonNegative(job, k);
    if n > 0 {
      TouchCountClosed(job, k, n - 1);
      TouchRange(job, k, n - 1);
    }
  }

  lemma FirstNonNegative(job: Job, k: nat)
    requires job.Valid() && k < job.Files()
    ensures 0 <= FirstPiece(job, k)
  {
    WithinStream(job, k);
    DivAtLeast(job.info.files[k].offset, job.info.pieceLength, 0);
  }

  lemma {:induction false} CountsAddUp(job: Job, k: nat, n: nat)
    requires job.Valid() && k < job.Files() && n <= |job.info.pieces|
    ensures job.Count(k, n, Good) + job.Count(k, n, Mismatch) + job.Count(k, n, Unreadable) == job.TouchCount(k, n)
  {
    hide Job.Touches, Job.OutcomeOf;
    if n > 0 {
      CountsAddUp(job, k, n - 1);
    }
  }

  /**
   The row of every file after the sweep: its three counters add up to its pieces, and those are the
   pieces of the range `_unreadable_pieces` uses, as far as the torrent has hashes for them.
   */
  lemma RowTotals(job: Job, k: nat)
    requires job.Valid() && k < job.Files()
    ensures var row := job.Row(k, |job.info.pieces|);
            row.ok + row.mismatched + row.unreadable == row.pieces == RangeCount(job, k, |job.info.pieces|)
  {
    CountsAddUp(job, k, |job.info.pieces|);
    TouchCountClosed(job, k, |job.info.pieces|);
  }

  /** `first_bad_offset` is set exactly when a bad piece touches the file, and comes from the lowest. */
  lemma {:induction false} FirstBadIsLowest(job: Job, k: nat, n: nat)
    requires job.Valid() && k < job.Files() && n <= |job.info.pieces|
    ensures job.FirstBad(k, n).None? <==> forall idx: nat :: idx < n && job.Touches(k, idx) ==> !job.Bad(idx)
    ensures job.FirstBad(k, n).Some? ==>
              exists idx: nat :: idx < n && LowestBad(job, k, idx)
                && job.FirstBad(k, n).value == Max(job.Start(idx) - job.info.files[k].offset, 0)
  {
    hide Job.Touches, Job.Bad, Job.Start;
    if n > 0 {
      FirstBadIsLowest(job, k, n - 1);
      if job.FirstBad(k, n - 1).None? && job.Touches(k, n - 1) && job.Bad(n - 1) {
        assert LowestBad(job, k, n - 1);
      }
    }
  }

  predicate LowestBad(job: Job, k: nat, idx: nat)
    requires job.Files() <= |job.local| && k < job.Files() && idx < |job.info.pieces|
  {
    && job.Touches(k, idx) && job.Bad(idx)
    && forall j: nat :: j < idx && job.Touches(k, j) ==> !job.Bad(j)
  }

  // ---------------------------------------------------------------- the stream

  /** Position `x` of the stream, moved into the bounds of the piece. */
  function Clamp(job: Job, idx: nat, x: int): int {
    Max(Min(job.Start(idx), job.info.totalLength), Min(job.End(idx), x))
  }

  /** Every part of the piece that was read holds the bytes of `stream` at its place. */
  predicate PartsFrom(job: Job, idx: nat, stream: seq<byte>)
    requires job.Files() <= |job.local|
  {
    forall k :: 0 <= k < job.Files() && job.Touches(k, idx) ==> PartFrom(job, k, idx, stream)
  }

  predicate PartFrom(job: Job, k: nat, idx: nat, stream: seq<byte>)
    requires job.Files() <= |job.local| && k < job.Files() && job.Touches(k, idx)
  {
    var at := job.info.files[k].offset;
    && job.Part(k, idx).Some?
    && 0 <= at + job.Lo(k, idx) <= at + job.Hi(k, idx) <= |stream|
    && job.Part(k, idx).value == stream[at + job.Lo(k, idx)..at + job.Hi(k, idx)]
  }

  lemma ClampBounds(job: Job, idx: nat, n: nat)
    requires job.Valid() && n <= job.Files()
    ensures 0 <= Clamp(job, idx, 0) <= Clamp(job, idx, StartOf(job.info.files, n)) <= job.info.totalLength
    ensures Clamp(job, idx, 0) == Min(job.Start(idx), job.info.totalLength)
    ensures Clamp(job, idx, job.info.totalLength) == Max(Clamp(job, idx, 0), job.End(idx))
    ensures 0 <= job.Start(idx)
  {
    StartNonNegative(job.info.files, job.info.totalLength, n);
    StartNonNegative(job.info.files, job.info.totalLength, 0);
    DivAtLeast(0, job.info.pieceLength, 0);
    assert 0 <= idx * job.info.pieceLength;
  }

  /**
   The bytes hashed for a piece are the slice of the concatenated stream that the piece covers, so
   the naive reading is the piece of BitTorrent and not an artefact of the file walk.
   */
  lemma {:induction false} DataIsStreamSlice(job: Job, idx: nat, n: nat, stream: seq<byte>)
    requires job.Valid() && n <= job.Files() && |stream| == job.info.totalLength
    requires PartsFrom(job, idx, stream)
    ensures 0 <= Clamp(job, idx, 0) <= Clamp(job, idx, StartOf(job.info.files, n)) <= |stream|
    ensures job.DataUpTo(idx, n) == stream[Clamp(job, idx, 0)..Clamp(job, idx, StartOf(job.info.files, n))]
  {
    hide Clamp, Job.Touches, Job.Part, Job.Lo, Job.Hi, Contiguous;
    ClampBounds(job, idx, n);
    if n > 0 {
      DataIsStreamSlice(job, idx, n - 1, stream);
      ClampBounds(job, idx, n - 1);
      ClampStep(job, idx, n - 1);
      var a := Clamp(job, idx, 0);
      var b := Clamp(job, idx, StartOf(job.info.files, n - 1));
      var c := Clamp(job, idx, StartOf(job.info.files, n));
      if job.Touches(n - 1, idx) {
        assert PartFrom(job, n - 1, idx, stream);
        assert stream[a..b] + stream[b..c] == stream[a..c];
      }
    }
  }

  /** Walking over one more file moves the clamped position over exactly the bytes it shares. */
  lemma ClampStep(job: Job, idx: nat, k: nat)
    requires job.Valid() && k < job.Files()
    ensures var at := job.info.files[k].offset;
            var b := Clamp(job, idx, StartOf(job.info.files, k));
            var c := Clamp(job, idx, StartOf(job.info.files, k + 1));
            if job.Touches(k, idx) then b == at + job.Lo(k, idx) && c == at + job.Hi(k, idx) else b == c
  {
    WithinStream(job, k);
    assert job.info.files[k].offset == StartOf(job.info.files, k);
  }

  /** A file whose local copy is complete, readable and equal to its slice of the stream. */
  ghost predicate Holds(job: Job, k: nat, stream: seq<byte>)
    requires k < job.Files() && k < |job.local|
  {
    var f := job.info.files[k];
    && job.local[k].Some? && job.disk.Opens(job.local[k].value)
    && (forall o: nat, n: nat :: job.disk.delivers(job.local[k].value, o, n))
    && 0 <= f.offset <= f.End() <= |stream|
    && job.disk.bytes[job.local[k].value] == stream[f.offset..f.End()]
  }

  lemma HeldPart(job: Job, k: nat, idx: nat, stream: seq<byte>)
    requires job.Valid() && k < job.Files() && job.Touches(k, idx) && Holds(job, k, stream)
    ensures PartFrom(job, k, idx, stream)
  {
    var f := job.info.files[k];
    var lo, hi := job.Lo(k, idx), job.Hi(k, idx);
    assert 0 <= lo <= hi <= f.length;
    SliceOfSlice(stream, f.offset, f.End(), lo, hi);
  }

  lemma SliceOfSlice(s: seq<byte>, a: nat, b: nat, lo: nat, hi: nat)
    requires a <= b <= |s| && lo <= hi <= b - a
    ensures Slice(s[a..b], lo, lo + (hi - lo)) == s[a + lo..a + hi]
  {
    var part := s[a..b];
    assert forall i :: lo <= i < hi ==> part[i] == s[a + i];
    assert part[lo..hi] == s[a + lo..a + hi];
  }

  /** The hashes of the torrent are those of the pieces of `stream`. */
  predicate HashesOf(job: Job, stream: seq<byte>)
    requires job.Valid() && |stream| == job.info.totalLength
  {
    forall idx :: 0 <= idx < |job.info.pieces| ==>
      job.info.pieces[idx] == job.sha1(PieceOf(job, stream, idx))
  }

  /** `stream[start:end]` of Python: empty for a piece past the end. */
  function PieceOf(job: Job, stream: seq<byte>, idx: nat): seq<byte>
    requires job.Valid() && |stream| == job.info.totalLength
  {
    ClampBounds(job, idx, job.Files());
    stream[Clamp(job, idx, 0)..Clamp(job, idx, job.info.totalLength)]
  }

  /** With the right bytes in every file it touches, a piece is good. */
  lemma HeldPieceIsGood(job: Job, idx: nat, stream: seq<byte>)
    requires job.Valid() && |stream| == job.info.totalLength && HashesOf(job, stream)
    requires idx < |job.info.pieces|
    requires forall k :: 0 <= k < job.Files() && job.Touches(k, idx) ==> Holds(job, k, stream)
    ensures job.OutcomeOf(idx) == Good
  {
    hide Clamp, Job.Touches, Holds, PieceOf;
    forall k | 0 <= k < job.Files() && job.Touches(k, idx) ensures PartFrom(job, k, idx, stream) {
      HeldPart(job, k, idx, stream);
    }
    DataIsStreamSlice(job, idx, job.Files(), stream);
    PieceUnfold(job, stream, idx);
  }

  lemma PieceUnfold(job: Job, stream: seq<byte>, idx: nat)
    requires job.Valid() && |stream| == job.info.totalLength
    ensures 0 <= Clamp(job, idx, 0) <= Clamp(job, idx, job.info.totalLength) <= |stream|
    ensures PieceOf(job, stream, idx) == stream[Clamp(job, idx, 0)..Clamp(job, idx, job.info.totalLength)]
  {
    ClampBounds(job, idx, job.Files());
  }
}
