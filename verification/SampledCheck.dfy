/**
 The sampled check of app/torrent_pieces.py: one file, only the pieces that lie wholly inside it, and
 of those a sample spread from the first to the last.
 */
module SampledCheck {
  import opened Basics
  import opened Metainfo
  import opened Sweep
  import opened PieceRanges

  datatype PieceVerifyResult = PieceVerifyResult(ok: nat, mismatches: nat, boundary: nat) {
    predicate Clean() {
      mismatches == 0 && (ok > 0 || boundary > 0)
    }
  }

  const NOTHING := PieceVerifyResult(0, 0, 0)

  // ---------------------------------------------------------------- rounding

  /** Python's `round(num / den)` in exact arithmetic: to the nearest, halves to the even neighbour. */
  function RoundHalfEven(num: nat, den: nat): nat
    requires den > 0
  {
    var q, r := num / den, num % den;
    if 2 * r < den then q else if 2 * r > den then q + 1 else if q % 2 == 0 then q else q + 1
  }

  /** The result is at distance at most one half. */
  lemma RoundIsNear(num: nat, den: nat)
    requires den > 0
    ensures 2 * den * RoundHalfEven(num, den) <= 2 * num + den
    ensures 2 * num <= 2 * den * RoundHalfEven(num, den) + den
  {
    var q, r := num / den, num % den;
    assert num == q * den + r;
    assert 2 * den * q == 2 * (q * den) && 2 * den * (q + 1) == 2 * (q * den) + 2 * den;
  }

  lemma RoundExact(q: nat, den: nat)
    requires den > 0
    ensures RoundHalfEven(q * den, den) == q
  {
    assert (q * den) / den == q && (q * den) % den == 0 by {
      DivAtLeast(q * den, den, q);
      DivAtLeast(q * den, den, q + 1);
    }
  }

  lemma CancelFactor(a: int, b: int, d: int)
    requires d > 0 && d * a < d * b
    ensures a < b
  {
    assert b <= a ==> d * b <= d * a;
  }

  /** Rounding the multiples of a step larger than one never gives the same number twice. */
  lemma RoundSpreads(i: nat, n: nat, den: nat)
    requires 0 < den < n
    ensures RoundHalfEven(i * n, den) < RoundHalfEven((i + 1) * n, den)
  {
    NearApart(i * n, (i + 1) * n, n, den) by {
      assert (i + 1) * n == i * n + n;
    }
  }

  lemma NearApart(x: nat, y: nat, n: nat, den: nat)
    requires 0 < den < n && y == x + n
    ensures RoundHalfEven(x, den) < RoundHalfEven(y, den)
  {
    RoundIsNear(x, den);
    RoundIsNear(y, den);
    hide RoundHalfEven;
    CancelFactor(RoundHalfEven(x, den), RoundHalfEven(y, den), 2 * den);
  }

  // ---------------------------------------------------------------- sampling

  /** Position of sample `i` among `count` inner pieces, for `max >= 2` samples. */
  function Pick(i: nat, count: nat, max: nat): nat
    requires max >= 2 && count > 0
  {
    RoundHalfEven(i * (count - 1), max - 1)
  }

  lemma {:induction false} PickOrder(i: nat, j: nat, count: nat, max: nat)
    requires 2 <= max < count && i < j
    ensures Pick(i, count, max) < Pick(j, count, max)
    decreases j - i
  {
    RoundSpreads(j - 1, count - 1, max - 1);
    if i < j - 1 {
      PickOrder(i, j - 1, count, max);
    }
  }

  lemma PickEnds(count: nat, max: nat)
    requires 2 <= max < count
    ensures Pick(0, count, max) == 0 && Pick(max - 1, count, max) == count - 1
    ensures forall i: nat :: i < max ==> Pick(i, count, max) < count
  {
    RoundExact(0, max - 1);
    RoundExact(count - 1, max - 1);
    assert (max - 1) * (count - 1) == (count - 1) * (max - 1);
    forall i: nat | i < max ensures Pick(i, count, max) < count {
      if i < max - 1 {
        PickOrder(i, max - 1, count, max);
      }
    }
  }

  predicate Increasing(s: seq<nat>) {
    forall a, b :: 0 <= a < b < |s| ==> s[a] < s[b]
  }

  /** `sorted(s)` */
  function Sorted(s: set<nat>): (r: seq<nat>)
    ensures forall x :: x in r <==> x in s
    ensures Increasing(r) && |r| == |s|
  {
    if s == {} then []
    else
      var m := MaxOf(s);
      MaxIsMax(s);
      GrowsIncreasing(Sorted(s - {m}), m);
      Sorted(s - {m}) + [m]
  }

  lemma GrowsIncreasing(s: seq<nat>, m: nat)
    requires Increasing(s) && forall x :: x in s ==> x < m
    ensures Increasing(s + [m])
  {
    assert forall a :: 0 <= a < |s| ==> s[a] in s;
  }

  /** `s[:n]` of Python, also for negative `n`. */
  function Prefix(s: seq<nat>, n: int): seq<nat> {
    if n >= 0 then s[..Min(n, |s|)] else s[..Max(0, |s| + n)]
  }

  /** What a sample owes its caller: part of the list, in order, of the size asked, with both ends. */
  ghost predicate SampleOf(sample: seq<nat>, inner: seq<nat>, max: Option<int>) {
    && Increasing(sample)
    && (forall x :: x in sample ==> x in inner)
    && (max.None? || |inner| <= max.value ==> sample == inner)
    && (max.Some? && 0 <= max.value < |inner| ==> |sample| == max.value)
    && (max.Some? && max.value < 0 ==> |sample| == Max(0, |inner| + max.value))
    && (max.Some? && 1 <= max.value <= |inner| ==> sample[0] == inner[0])
    && (max.Some? && 2 <= max.value <= |inner| ==> sample[|sample| - 1] == inner[|inner| - 1])
  }

  /** `{inner[round(i * step)] for i in range(n)}`, the step being that of `max` samples. */
  function Picked(inner: seq<nat>, max: nat, n: nat): set<nat>
    requires 2 <= max < |inner|
  {
    if n == 0 then {}
    else
      var at := Pick(n - 1, |inner|, max);
      Picked(inner, max, n - 1) + if at < |inner| then {inner[at]} else {}
  }

  /** The sample of a list of inner pieces. */
  function SampleFrom(inner: seq<nat>, max: Option<int>): seq<nat> {
    if max.None? || |inner| <= max.value then inner
    else if max.value <= 1 then Prefix(inner, max.value)
    else Sorted(Picked(inner, max.value, max.value))
  }

  lemma PickedStep(inner: seq<nat>, max: nat, n: nat)
    requires 2 <= max < |inner|
    ensures n == 0 ==> Picked(inner, max, n) == {}
    ensures n > 0 && Pick(n - 1, |inner|, max) < |inner| ==>
              Picked(inner, max, n) == Picked(inner, max, n - 1) + {inner[Pick(n - 1, |inner|, max)]}
  {
  }

  /** The picks are all different and go up, from the first piece to the last. */
  lemma {:induction false} PickedGoUp(inner: seq<nat>, max: nat, n: nat)
    requires Increasing(inner) && 2 <= max < |inner| && 0 < n <= max && Pick(n - 1, |inner|, max) < |inner|
    ensures |Picked(inner, max, n)| == n
    ensures inner[0] in Picked(inner, max, n) && inner[Pick(n - 1, |inner|, max)] in Picked(inner, max, n)
    ensures forall x :: x in Picked(inner, max, n) ==> x in inner && x <= inner[Pick(n - 1, |inner|, max)]
  {
    hide Pick, Picked;
    PickEnds(|inner|, max);
    PickedStep(inner, max, n);
    if n > 1 {
      var a, b := Pick(n - 2, |inner|, max), Pick(n - 1, |inner|, max);
      PickOrder(n - 2, n - 1, |inner|, max);
      PickedGoUp(inner, max, n - 1);
      assert inner[a] < inner[b];
      assert inner[b] !in Picked(inner, max, n - 1);
    } else {
      PickedStep(inner, max, 0);
    }
  }

  lemma PickedIsFair(inner: seq<nat>, max: nat)
    requires Increasing(inner) && 2 <= max < |inner|
    ensures var picked := Picked(inner, max, max);
      && |picked| == max && inner[0] in picked && inner[|inner| - 1] in picked && forall x :: x in picked ==> x in inner
  {
    hide Pick, Picked;
    PickEnds(|inner|, max);
    PickedGoUp(inner, max, max);
  }

  lemma SampleIsFair(inner: seq<nat>, max: Option<int>)
    requires Increasing(inner)
    ensures SampleOf(SampleFrom(inner, max), inner, max)
  {
    if max.Some? && 2 <= max.value < |inner| {
      hide Picked, SampleOf, Increasing, Sorted;
      PickedIsFair(inner, max.value);
      var sample := Sorted(Picked(inner, max.value, max.value));
      EndsOfSorted(sample, inner);
      SortedIsFair(sample, inner, max.value);
    } else {
      hide Sorted, Picked;
    }
  }

  lemma SortedIsFair(sample: seq<nat>, inner: seq<nat>, max: int)
    requires 2 <= max < |inner| && Increasing(sample) && |sample| == max && forall x :: x in sample ==> x in inner
    requires sample[0] == inner[0] && sample[|sample| - 1] == inner[|inner| - 1]
    ensures SampleOf(sample, inner, Some(max))
  {
  }

  /** The sampling of `inner`: rounded, collected in a set, sorted again. */
  method Sample(inner: seq<nat>, max: Option<int>) returns (sample: seq<nat>)
    requires Increasing(inner)
    ensures sample == SampleFrom(inner, max) && SampleOf(sample, inner, max)
  {
    SampleIsFair(inner, max);
    if max.None? || |inner| <= max.value {
      return inner;
    }
    if max.value <= 1 {
      return Prefix(inner, max.value);
    }
    var picked := PickAll(inner, max.value);
    sample := Sorted(picked);
  }

  /** The picks one by one: all different, both ends among them. */
  method PickAll(inner: seq<nat>, max: nat) returns (picked: set<nat>)
    requires Increasing(inner) && 2 <= max < |inner|
    ensures picked == Picked(inner, max, max) && |picked| == max
    ensures inner[0] in picked && inner[|inner| - 1] in picked
  {
    hide Pick, Picked;
    PickEnds(|inner|, max);
    PickedIsFair(inner, max);
    PickedStep(inner, max, 0);
    picked := {};
    for i := 0 to max
      invariant picked == Picked(inner, max, i)
    {
      PickedStep(inner, max, i + 1);
      picked := picked + {inner[Pick(i, |inner|, max)]};
    }
  }

  lemma EndsOfSorted(sample: seq<nat>, inner: seq<nat>)
    requires Increasing(sample) && Increasing(inner) && inner != []
    requires forall x :: x in sample ==> x in inner
    requires inner[0] in sample && inner[|inner| - 1] in sample
    ensures sample[0] == inner[0] && sample[|sample| - 1] == inner[|inner| - 1]
  {
    var a :| 0 <= a < |sample| && sample[a] == inner[0];
    var b :| 0 <= b < |sample| && sample[b] == inner[|inner| - 1];
    assert sample[0] in sample && sample[|sample| - 1] in sample;
  }

  // ---------------------------------------------------------------- inner and boundary pieces

  /** `min(piece_start + piece_length, total_length)` */
  function EndOf(idx: int, pieceLength: int, total: int): int {
    Min(idx * pieceLength + pieceLength, total)
  }

  /** The piece lies inside `[offset, end)`. */
  predicate Inner(idx: nat, pieceLength: int, total: int, offset: int, end: int) {
    offset <= idx * pieceLength && EndOf(idx, pieceLength, total) <= end
  }

  /** The inner pieces among those from `first` up to `end`. */
  function InnerBetween(first: nat, end: nat, pieceLength: int, total: int, offset: int, fileEnd: int): seq<nat> {
    if end <= first then []
    else
      InnerBetween(first, end - 1, pieceLength, total, offset, fileEnd)
      + if Inner(end - 1, pieceLength, total, offset, fileEnd) then [end - 1] else []
  }

  predicate Consecutive(s: seq<nat>) {
    forall k :: 0 <= k < |s| ==> s[k] == s[0] + k
  }

  /** Only the first and the last piece of a file can be shared with a neighbour. */
  lemma InnerIsContiguous(idx: nat, pieceLength: int, total: int, offset: int, length: int)
    requires pieceLength > 0 && 0 <= offset && length > 0 && offset + length <= total
    requires offset / pieceLength < idx < (offset + length - 1) / pieceLength
    ensures Inner(idx, pieceLength, total, offset, offset + length)
  {
    DivAtLeast(offset, pieceLength, idx);
    DivAtLeast(offset + length - 1, pieceLength, idx + 1);
    assert (idx + 1) * pieceLength == idx * pieceLength + pieceLength;
  }

  lemma InnerStep(first: nat, idx: nat, pieceLength: int, total: int, offset: int, end: int)
    requires first <= idx
    ensures InnerBetween(first, first, pieceLength, total, offset, end) == []
    ensures InnerBetween(first, idx + 1, pieceLength, total, offset, end) ==
            InnerBetween(first, idx, pieceLength, total, offset, end) +
                if Inner(idx, pieceLength, total, offset, end) then [idx] else []
  {
  }

  /**
   Pieces below `idx`, when only the first and the last can be shared: the inner ones are consecutive, at
   most two are not.
   */
  lemma {:induction false} InnerPiecesBelow(first: nat, last: nat, idx: nat, pieceLength: int, total: int,
                                            offset: int, end: int)
    requires first <= last && first <= idx <= last + 1
    requires forall i: nat :: first < i < last ==> Inner(i, pieceLength, total, offset, end)
    ensures var inner := InnerBetween(first, idx, pieceLength, total, offset, end);
      && Consecutive(inner)
      && 0 <= idx - first - |inner| <= (if idx > first then 1 else 0) + (if idx > last && first < last then 1 else 0)
      && (forall i: nat :: i in inner <==> first <= i < idx && Inner(i, pieceLength, total, offset, end))
      && (inner != [] && idx <= last ==> inner[|inner| - 1] == idx - 1)
  {
    hide InnerBetween, Inner;
    if idx == first {
      InnerStep(first, first, pieceLength, total, offset, end);
    } else {
      InnerPiecesBelow(first, last, idx - 1, pieceLength, total, offset, end);
      InnerStep(first, idx - 1, pieceLength, total, offset, end);
    }
  }

  /** The inner pieces of a file. */
  lemma InnerPiecesOf(pieceLength: int, total: int, offset: int, length: int)
    requires pieceLength > 0 && 0 <= offset && length > 0 && offset + length <= total
    ensures var first, last := offset / pieceLength, (offset + length - 1) / pieceLength;
      && 0 <= first <= last
      && var inner := InnerBetween(first, last + 1, pieceLength, total, offset, offset + length);
      && Consecutive(inner) && 0 <= last + 1 - first - |inner| <= 2
      && forall i: nat :: i in inner <==> first <= i <= last && Inner(i, pieceLength, total, offset, offset + length)
  {
    FirstAndLast(pieceLength, offset, length);
    hide InnerBetween, Inner;
    var first, last, end := offset / pieceLength, (offset + length - 1) / pieceLength, offset + length;
    forall i: nat | first < i < last ensures Inner(i, pieceLength, total, offset, end) {
      InnerIsContiguous(i, pieceLength, total, offset, length);
    }
    InnerPiecesBelow(first, last, last + 1, pieceLength, total, offset, end);
  }

  lemma FirstAndLast(pieceLength: int, offset: int, length: int)
    requires pieceLength > 0 && 0 <= offset && length > 0
    ensures 0 <= offset / pieceLength <= (offset + length - 1) / pieceLength
  {
    DivAtLeast(offset, pieceLength, 0);
    DivAtLeast(offset, pieceLength, offset / pieceLength);
    DivAtLeast(offset + length - 1, pieceLength, offset / pieceLength);
  }

  /**
   The split of the pieces that touch the file. The inner pieces are consecutive and at most the first
   and the last piece are boundary.
   */
  method Split(pieceLength: int, total: int, offset: int, length: int) returns (inner: seq<nat>, boundary: nat)
    requires pieceLength > 0 && 0 <= offset && length > 0 && offset + length <= total
    ensures boundary <= 2
    ensures var first, last := offset / pieceLength, (offset + length - 1) / pieceLength;
            && boundary + |inner| == last + 1 - first
            && (forall idx: nat :: idx in inner <==>
                  first <= idx <= last && Inner(idx, pieceLength, total, offset, offset + length))
            && Consecutive(inner)
            && 0 <= first <= last && inner == InnerBetween(first, last + 1, pieceLength, total, offset, offset + length)
  {
    hide InnerBetween, Inner;
    var end := offset + length;
    FirstAndLast(pieceLength, offset, length);
    var first, last := offset / pieceLength, (end - 1) / pieceLength;
    inner, boundary := [], 0;
    InnerStep(first, first, pieceLength, total, offset, end);
    for idx: nat := first to last + 1
      invariant boundary + |inner| == idx - first && inner == InnerBetween(first, idx, pieceLength, total, offset, end)
    {
      InnerStep(first, idx, pieceLength, total, offset, end);
      InnerMeans(idx, pieceLength, total, offset, end);
      if idx * pieceLength < offset || EndOf(idx, pieceLength, total) > end {
        boundary := boundary + 1;
      } else {
        inner := inner + [idx];
      }
    }
    InnerPiecesOf(pieceLength, total, offset, length);
  }

  lemma InnerMeans(idx: nat, pieceLength: int, total: int, offset: int, end: int)
    ensures Inner(idx, pieceLength, total, offset, end)
        <==> !(idx * pieceLength < offset || EndOf(idx, pieceLength, total) > end)
  {
  }

  // ---------------------------------------------------------------- the check

  /** The arguments of `verify_file_pieces` and the disk it reads. */
  datatype Target = Target(
    path: string, pieceLength: int, pieces: seq<seq<byte>>, total: int, offset: int, length: int, disk: Disk,
    sha1: Sha1)
  {
    /** What the source's callers pass: a parsed entry, inside the stream. */
    predicate Valid() {
      pieceLength > 0 && 0 <= offset && offset + length <= total
    }

    function First(): int
      requires pieceLength > 0
    {
      offset / pieceLength
    }

    function Last(): int
      requires pieceLength > 0
    {
      (offset + length - 1) / pieceLength
    }

    predicate IsInner(idx: nat)
      requires pieceLength > 0
    {
      First() <= idx <= Last() && Inner(idx, pieceLength, total, offset, offset + length)
    }

    function PieceSize(idx: nat): int {
      EndOf(idx, pieceLength, total) - idx * pieceLength
    }

    /** The bytes of an inner piece, read from this file alone. */
    function Chunk(idx: nat): Option<seq<byte>> {
      var start := idx * pieceLength - offset;
      if start < 0 || PieceSize(idx) < 0 then None else disk.ReadAt(Some(path), start, PieceSize(idx))
    }

    predicate Usable(idx: nat) {
      Chunk(idx).Some? && idx < |pieces|
    }

    predicate Matches(idx: nat)
      requires Usable(idx)
    {
      sha1(Chunk(idx).value) == pieces[idx]
    }

    predicate AllUsable(sample: seq<nat>) {
      forall x :: x in sample ==> Usable(x)
    }

    function Mismatching(sample: seq<nat>): nat
      requires AllUsable(sample)
    {
      if sample == [] then 0
      else
        var last := sample[|sample| - 1];
        Mismatching(sample[..|sample| - 1]) + if Matches(last) then 0 else 1
    }

    function InnerPieces(): seq<nat>
      requires pieceLength > 0
    {
      InnerBetween(Max(0, First()), Max(0, Last() + 1), pieceLength, total, offset, offset + length)
    }

    /** The answer of the check: the sample compared, unless something could not be read. */
    function Checked(max: Option<int>): PieceVerifyResult
      requires Valid()
    {
      var sample := SampleFrom(InnerPieces(), max);
      var boundary := Last() + 1 - First() - |InnerPieces()|;
      if length > 0 && disk.Opens(path) && AllUsable(sample) && Mismatching(sample) <= |sample| && boundary >= 0
      then PieceVerifyResult(|sample| - Mismatching(sample), Mismatching(sample), boundary)
      else NOTHING
    }
  }

  /** The inner pieces of the file, all of them, in order. */
  ghost predicate InnerList(t: Target, inner: seq<nat>)
    requires t.Valid()
  {
    && Increasing(inner) && Consecutive(inner)
    && forall idx: nat :: idx in inner <==> t.IsInner(idx)
  }

  /** What the check answers for a given sample. Any failed read, or a missing hash, empties it. */
  ghost predicate Answers(t: Target, inner: seq<nat>, sample: seq<nat>, r: PieceVerifyResult)
    requires t.Valid()
  {
    if t.disk.Opens(t.path) && t.AllUsable(sample)
    then
      && r.mismatches == t.Mismatching(sample)
      && r.ok + r.mismatches == |sample|
      && r.boundary + |inner| == t.Last() + 1 - t.First()
      && r.boundary <= 2
    else r == NOTHING
  }

  /** `verify_file_pieces` */
  method VerifyFilePieces(t: Target, max: Option<int>)
    returns (r: PieceVerifyResult, ghost inner: seq<nat>, ghost sample: seq<nat>)
    requires t.Valid()
    ensures r == t.Checked(max)
    ensures t.length <= 0 ==> r == NOTHING
    ensures t.length > 0 ==> inner == t.InnerPieces() && sample == SampleFrom(inner, max)
    ensures t.length > 0 ==> InnerList(t, inner) && SampleOf(sample, inner, max) && Answers(t, inner, sample, r)
  {
    hide SampleFrom, SampleOf, InnerBetween, Inner, Target.InnerPieces, Target.Mismatching, Target.Checked, Answers;
    inner, sample := [], [];
    if t.length <= 0 {
      NothingToCheck(t, max);
      return NOTHING, inner, sample;
    }
    CheckedAnswers(t, max);
    var all, boundary := Split(t.pieceLength, t.total, t.offset, t.length);
    SplitIsInner(t, all);
    var chosen := Sample(all, max);
    inner, sample := all, chosen;
    if !t.disk.Opens(t.path) {
      r := NOTHING;
    } else {
      forall x | x in chosen ensures t.IsInner(x) {
        SampleIsPart(chosen, all, max, x);
      }
      var usable, ok, mismatches := CompareChunks(t, chosen);
      r := if usable then PieceVerifyResult(ok, mismatches, boundary) else NOTHING;
    }
    OneAnswer(t, all, chosen, r, t.Checked(max));
  }

  lemma SplitIsInner(t: Target, inner: seq<nat>)
    requires t.Valid() && 0 <= t.First() <= t.Last()
    requires inner == InnerBetween(t.First(), t.Last() + 1, t.pieceLength, t.total, t.offset, t.offset + t.length)
    ensures inner == t.InnerPieces()
  {
  }

  lemma NothingToCheck(t: Target, max: Option<int>)
    requires t.Valid() && t.length <= 0
    ensures t.Checked(max) == NOTHING
  {
    hide SampleFrom, InnerBetween;
  }

  lemma OneAnswer(t: Target, inner: seq<nat>, sample: seq<nat>, a: PieceVerifyResult, b: PieceVerifyResult)
    requires t.Valid() && Answers(t, inner, sample, b)
    requires if t.disk.Opens(t.path) && t.AllUsable(sample)
             then a.mismatches == t.Mismatching(sample) && a.ok + a.mismatches == |sample|
                  && a.boundary + |inner| == t.Last() + 1 - t.First() && a.boundary <= 2
             else a == NOTHING
    ensures a == b && Answers(t, inner, sample, a)
  {
  }

  lemma SampleIsPart(sample: seq<nat>, inner: seq<nat>, max: Option<int>, x: nat)
    requires SampleOf(sample, inner, max) && x in sample
    ensures x in inner
  {
  }

  /** The answer, as the facts it stands for. */
  lemma CheckedAnswers(t: Target, max: Option<int>)
    requires t.Valid() && t.length > 0
    ensures InnerList(t, t.InnerPieces()) && SampleOf(SampleFrom(t.InnerPieces(), max), t.InnerPieces(), max)
    ensures Answers(t, t.InnerPieces(), SampleFrom(t.InnerPieces(), max), t.Checked(max))
  {
    hide SampleFrom, SampleOf, Inner, InnerBetween, Target.Usable;
    FirstAndLast(t.pieceLength, t.offset, t.length);
    InnerPiecesOf(t.pieceLength, t.total, t.offset, t.length);
    InOrder(t.InnerPieces());
    SampleIsFair(t.InnerPieces(), max);
    var sample := SampleFrom(t.InnerPieces(), max);
    if t.AllUsable(sample) {
      MismatchingAtMost(t, sample);
    }
  }

  lemma {:induction false} MismatchingAtMost(t: Target, sample: seq<nat>)
    requires t.AllUsable(sample)
    ensures t.Mismatching(sample) <= |sample|
    ensures t.Mismatching(sample) == 0 <==> forall x :: x in sample ==> t.Matches(x)
  {
    hide Target.Usable, Target.Matches;
    if sample != [] {
      var front, last := sample[..|sample| - 1], sample[|sample| - 1];
      MismatchingAtMost(t, front);
      assert forall x :: x in sample <==> x in front || x == last;
    }
  }

  /**
   What a clean answer stands for: every piece of the sample was read and hashes right, and the sample is as
   large as asked. Nothing at all was hashed exactly when no piece lies wholly inside the file.
   */
  lemma CleanMeans(t: Target, max: nat)
    requires t.Valid() && max >= 1 && t.Checked(Some(max)).Clean()
    ensures var r, sample := t.Checked(Some(max)), SampleFrom(t.InnerPieces(), Some(max));
      && t.length > 0 && t.disk.Opens(t.path) && t.AllUsable(sample)
      && r.ok == |sample| == Min(|t.InnerPieces()|, max)
      && (forall x :: x in sample ==> t.IsInner(x) && t.Matches(x))
      && (r.ok == 0 <==> forall idx: nat :: !t.IsInner(idx))
  {
    hide SampleFrom, Inner, InnerBetween, Target.Usable, Target.Matches, Target.IsInner, Target.InnerPieces;
    CheckedAnswers(t, Some(max));
    var inner, sample := t.InnerPieces(), SampleFrom(t.InnerPieces(), Some(max));
    MismatchingAtMost(t, sample);
    if inner != [] {
      assert inner[0] in inner;
    }
  }

  /**
   Exactly when nothing is hashed although everything could be read: when no piece lies wholly inside the
   file. The answer is clean all the same.
   */
  lemma NothingHashedIff(t: Target, max: nat)
    requires t.Valid() && t.length > 0 && max >= 1 && t.disk.Opens(t.path)
    requires t.AllUsable(SampleFrom(t.InnerPieces(), Some(max)))
    ensures var r := t.Checked(Some(max));
      && (r.ok + r.mismatches == 0 <==> forall idx: nat :: !t.IsInner(idx))
      && (r.ok + r.mismatches == 0 ==> r.Clean())
  {
    hide SampleFrom, Inner, InnerBetween, Target.Usable, Target.Matches, Target.IsInner, Target.InnerPieces;
    CheckedAnswers(t, Some(max));
    FirstAndLast(t.pieceLength, t.offset, t.length);
    var inner := t.InnerPieces();
    if inner != [] {
      assert inner[0] in inner;
    }
  }

  /**
   Three bytes from offset one, in pieces of three: both pieces are shared, nothing is hashed, and the
   answer is clean.
   */
  lemma CleanWithNothingHashed(t: Target, max: nat)
    requires t.pieceLength == 3 && t.total == 10 && t.offset == 1 && t.length == 3 && t.disk.Opens(t.path) && max >= 1
    ensures t.Valid() && t.Checked(Some(max)) == PieceVerifyResult(0, 0, 2) && t.Checked(Some(max)).Clean()
  {
    hide InnerBetween;
    NoInnerPieces();
    assert t.First() == 0 && t.Last() == 1 && t.InnerPieces() == [];
    assert SampleFrom([], Some(max)) == [];
  }

  lemma NoInnerPieces()
    ensures InnerBetween(0, 2, 3, 10, 1, 4) == []
  {
    assert InnerBetween(0, 0, 3, 10, 1, 4) == [] && InnerBetween(0, 1, 3, 10, 1, 4) == [];
  }

  /** The loop over the chosen pieces; it gives up at the first failed read or missing hash. */
  method CompareChunks(t: Target, chosen: seq<nat>) returns (usable: bool, ok: nat, mismatches: nat)
    requires t.Valid() && forall x :: x in chosen ==> t.IsInner(x)
    ensures usable <==> t.AllUsable(chosen)
    ensures usable ==> mismatches == t.Mismatching(chosen) && ok + mismatches == |chosen|
  {
    hide Target.IsInner, Target.PieceSize, Disk.ReadAt, Slice;
    ok, mismatches := 0, 0;
    for i := 0 to |chosen|
      invariant t.AllUsable(chosen[..i])
      invariant mismatches == t.Mismatching(chosen[..i]) && ok + mismatches == i
    {
      var idx := chosen[i];
      assert idx in chosen;
      PieceIsInside(t, idx);
      var chunk := t.disk.ReadAt(Some(t.path), idx * t.pieceLength - t.offset, t.PieceSize(idx));
      if chunk.None? || idx >= |t.pieces| {
        assert !t.Usable(idx);
        return false, 0, 0;
      }
      assert chosen[..i + 1][..i] == chosen[..i];
      if t.sha1(chunk.value) == t.pieces[idx] {
        ok := ok + 1;
      } else {
        mismatches := mismatches + 1;
      }
    }
    assert chosen[..|chosen|] == chosen;
    return true, ok, mismatches;
  }

  lemma InOrder(s: seq<nat>)
    requires Consecutive(s)
    ensures Increasing(s)
  {
  }

  lemma PieceIsInside(t: Target, idx: nat)
    requires t.Valid() && t.IsInner(idx)
    ensures 0 <= idx * t.pieceLength - t.offset && 0 <= t.PieceSize(idx)
  {
    DivAtLeast(t.offset + t.length - 1, t.pieceLength, idx);
  }

  // ---------------------------------------------------------------- agreement with the full sweep

  /** The call that `_verify_pieces` makes for file `k` of the torrent, on the same disk. */
  function TargetOf(job: Job, k: nat): Target
    requires k < job.Files() && k < |job.local| && job.local[k].Some?
  {
    var f := job.info.files[k];
    Target(job.local[k].value, job.info.pieceLength, job.info.pieces, job.info.totalLength, f.offset, f.length,
           job.disk, job.sha1)
  }

  lemma TargetIsValid(job: Job, k: nat)
    requires job.Valid() && k < job.Files() && job.local[k].Some?
    ensures TargetOf(job, k).Valid()
  {
    WithinStream(job, k);
  }

  /** An inner piece touches its own file and no other. */
  lemma InnerTouchesOne(job: Job, k: nat, idx: nat)
    requires job.Valid() && k < job.Files() && job.local[k].Some? && job.info.files[k].length > 0
    requires TargetOf(job, k).IsInner(idx)
    ensures job.Touches(k, idx)
    ensures forall j :: 0 <= j < job.Files() && j != k ==> !job.Touches(j, idx)
    ensures job.Lo(k, idx) == idx * job.info.pieceLength - job.info.files[k].offset
    ensures job.Hi(k, idx) - job.Lo(k, idx) == TargetOf(job, k).PieceSize(idx)
  {
    TouchRange(job, k, idx);
    forall j | 0 <= j < job.Files() && j != k ensures !job.Touches(j, idx) {
      if j < k {
        EndsBeforeStarts(job.info.files, job.info.totalLength, j, k);
        assert job.info.files[k].offset == StartOf(job.info.files, k);
      } else {
        EndsBeforeStarts(job.info.files, job.info.totalLength, k, j);
        assert job.info.files[j].offset == StartOf(job.info.files, j);
      }
      OutsideIsUntouched(job, j, idx);
    }
  }

  lemma NothingRead(job: Job, idx: nat)
    ensures job.ReadableUpTo(idx, 0) && job.DataUpTo(idx, 0) == []
  {
  }

  lemma ChunkIsRead(job: Job, k: nat, idx: nat)
    requires job.Valid() && k < job.Files() && job.local[k].Some? && job.info.files[k].length > 0
    requires TargetOf(job, k).IsInner(idx)
    ensures 0 <= job.Lo(k, idx) < job.Hi(k, idx)
    ensures TargetOf(job, k).Chunk(idx) ==
            job.disk.ReadAt(job.local[k], job.Lo(k, idx), job.Hi(k, idx) - job.Lo(k, idx))
  {
    TargetIsValid(job, k);
    InnerTouchesOne(job, k, idx);
    OverlapBounds(job, k, idx);
    hide Job.Touches, Job.Lo, Job.Hi, Target.IsInner, Disk.ReadAt, Contiguous;
    PieceIsInside(TargetOf(job, k), idx);
  }

  lemma SoleReading(job: Job, k: nat, idx: nat)
    requires job.Valid() && k < job.Files() && job.Touches(k, idx) && 0 <= job.Lo(k, idx) < job.Hi(k, idx)
    requires forall j :: 0 <= j < job.Files() && j != k ==> !job.Touches(j, idx)
    ensures var chunk := job.disk.ReadAt(job.local[k], job.Lo(k, idx), job.Hi(k, idx) - job.Lo(k, idx));
            var full := chunk.Some? && |chunk.value| == job.Hi(k, idx) - job.Lo(k, idx);
            && (job.ReadableUpTo(idx, job.Files()) <==> full)
            && (full ==> job.DataUpTo(idx, job.Files()) == chunk.value)
  {
    hide Job.Touches, Job.Lo, Job.Hi, Job.ReadableUpTo, Job.DataUpTo, Disk.ReadAt, Contiguous;
    NothingRead(job, idx);
    SkipUntouched(job, idx, 0, k);
    ReadStep(job, idx, k);
    SkipUntouched(job, idx, k + 1, job.Files());
  }

  /** So the sweep judges it on exactly the chunk that the sampled check reads. */
  lemma InnerOutcome(job: Job, k: nat, idx: nat)
    requires job.Valid() && k < job.Files() && job.local[k].Some? && job.info.files[k].length > 0
    requires TargetOf(job, k).IsInner(idx) && idx < |job.info.pieces|
    ensures var t := TargetOf(job, k);
            job.OutcomeOf(idx) ==
              if t.Chunk(idx).None? || |t.Chunk(idx).value| != t.PieceSize(idx) then Unreadable
              else if t.Matches(idx) then Good else Mismatch
  {
    hide Job.Touches, Job.Lo, Job.Hi, Target.PieceSize, Target.IsInner, Target.Chunk, Disk.ReadAt, Contiguous;
    hide Job.ReadableUpTo, Job.DataUpTo;
    InnerTouchesOne(job, k, idx);
    ChunkIsRead(job, k, idx);
    SoleReading(job, k, idx);
  }

  /** Rows whose bad counters are zero have only good pieces. */
  lemma {:induction false} CountCovers(job: Job, k: nat, n: nat, o: Outcome, idx: nat)
    requires job.Valid() && k < job.Files() && idx < n <= |job.info.pieces|
    requires job.Touches(k, idx) && job.OutcomeOf(idx) == o
    ensures job.Count(k, n, o) > 0
    decreases n
  {
    hide Job.Touches, Job.OutcomeOf;
    if idx < n - 1 {
      CountCovers(job, k, n - 1, o, idx);
    }
  }

  function BadCount(job: Job, k: nat, n: nat): nat
    requires job.Files() <= |job.local| && k < job.Files() && n <= |job.info.pieces|
  {
    job.Count(k, n, Mismatch) + job.Count(k, n, Unreadable)
  }

  lemma {:induction false} BadCountGrows(job: Job, k: nat, m: nat, n: nat)
    requires job.Valid() && k < job.Files() && m <= n <= |job.info.pieces|
    ensures BadCount(job, k, m) <= BadCount(job, k, n)
    decreases n
  {
    hide Job.Touches, Job.OutcomeOf;
    if m < n {
      BadCountGrows(job, k, m, n - 1);
    }
  }

  /** The sample never reports more mismatches than the sweep counts bad pieces of that file. */
  lemma {:induction false} MismatchesBounded(job: Job, k: nat, sample: seq<nat>, n: nat)
    requires job.Valid() && k < job.Files() && job.local[k].Some? && job.info.files[k].length > 0
    requires Increasing(sample) && TargetOf(job, k).AllUsable(sample)
    requires forall x :: x in sample ==> TargetOf(job, k).IsInner(x) && x < n
    requires n <= |job.info.pieces|
    ensures TargetOf(job, k).Mismatching(sample) <= BadCount(job, k, n)
    decreases |sample|
  {
    hide Target.IsInner, Target.Matches, Target.Chunk, Target.PieceSize, Job.OutcomeOf, Job.Touches;
    if sample != [] {
      var front, last := sample[..|sample| - 1], sample[|sample| - 1];
      assert last in sample;
      forall x | x in front ensures x < last && x in sample {
        var a :| 0 <= a < |front| && front[a] == x;
        assert sample[a] == x;
      }
      MismatchesBounded(job, k, front, last);
      InnerOutcome(job, k, last);
      InnerTouchesOne(job, k, last);
      BadCountGrows(job, k, last + 1, n);
    }
  }

  /** A sampled answer for a file whose row in the sweep shows no bad piece. */
  predicate NoBadPiece(job: Job, k: nat)
    requires job.Files() <= |job.local| && k < job.Files()
  {
    var row := job.Row(k, |job.info.pieces|);
    row.mismatched == 0 && row.unreadable == 0
  }

  lemma GoodPiecesAreUsable(job: Job, k: nat, idx: nat)
    requires job.Valid() && k < job.Files() && job.local[k].Some? && job.info.files[k].length > 0
    requires TargetOf(job, k).IsInner(idx) && idx < |job.info.pieces| && NoBadPiece(job, k)
    ensures TargetOf(job, k).Usable(idx)
  {
    hide Target.IsInner, Target.Matches, Target.Chunk, Job.OutcomeOf, Job.Touches;
    InnerOutcome(job, k, idx);
    InnerTouchesOne(job, k, idx);
    if job.OutcomeOf(idx) != Good {
      CountCovers(job, k, |job.info.pieces|, job.OutcomeOf(idx), idx);
    }
  }

  lemma GoodFileOpens(job: Job, k: nat)
    requires job.Valid() && k < job.Files() && job.local[k].Some? && job.info.files[k].length > 0
    requires LastPiece(job, k) < |job.info.pieces| && NoBadPiece(job, k)
    ensures job.disk.Opens(job.local[k].value)
  {
    hide LastPiece, FirstPiece, Job.Touches;
    FirstNonNegative(job, k);
    RangeUnfold(job, k);
    DivAtLeast(job.info.files[k].offset, job.info.pieceLength, FirstPiece(job, k));
    DivAtLeast(job.info.files[k].End() - 1, job.info.pieceLength, FirstPiece(job, k));
    var idx: nat := FirstPiece(job, k);
    TouchRange(job, k, idx);
    if job.OutcomeOf(idx) != Good {
      CountCovers(job, k, |job.info.pieces|, job.OutcomeOf(idx), idx);
    } else {
      assert job.Part(k, idx).Some?;
    }
  }

  /**
   Agreement on the same bytes: when the full sweep finds no bad piece of a file and the torrent has a
   hash for each of its pieces, any sample of it reports no mismatch, and it is clean as soon as there
   is a piece to look at (always, with a sample size of at least one).
   */
  lemma CleanSweepMeansCleanSample(job: Job, k: nat, max: Option<int>, inner: seq<nat>, sample: seq<nat>,
                                   r: PieceVerifyResult)
    requires job.Valid() && k < job.Files() && job.local[k].Some? && job.info.files[k].length > 0
    requires LastPiece(job, k) < |job.info.pieces| && NoBadPiece(job, k)
    requires TargetOf(job, k).Valid() && InnerList(TargetOf(job, k), inner) && SampleOf(sample, inner, max)
    requires Answers(TargetOf(job, k), inner, sample, r)
    ensures r.mismatches == 0 && r.ok == |sample|
    ensures r.Clean() <==> sample != [] || r.boundary > 0
    ensures max.None? || max.value >= 1 ==> r.Clean()
  {
    hide LastPiece, Target.Chunk, Target.Matches, Job.OutcomeOf, Job.Touches, NoBadPiece, Target.PieceSize, Disk.Opens;
    var t, n := TargetOf(job, k), |job.info.pieces|;
    RangeUnfold(job, k);
    forall x | x in sample ensures t.IsInner(x) && x < n && t.Usable(x) {
      assert x in inner;
      GoodPiecesAreUsable(job, k, x);
    }
    GoodFileOpens(job, k);
    MismatchesBounded(job, k, sample, n);
    assert BadCount(job, k, n) == 0 by { NoBadUnfold(job, k); }
    DivAtLeast(t.offset, t.pieceLength, t.First());
    DivAtLeast(t.offset + t.length - 1, t.pieceLength, t.First());
  }

  lemma NoBadUnfold(job: Job, k: nat)
    requires job.Valid() && k < job.Files() && NoBadPiece(job, k)
    ensures BadCount(job, k, |job.info.pieces|) == 0
  {
  }
}
