/**
 Concrete matching runs: two for which a promise of app/matching.py fails, and one from the bytes of a .torrent to a
 candidate that ends in seeding.
 */
module MatchingExamples {
  import opened Basics
  import opened Bencode
  import opened Metainfo
  import opened Candidates
  import opened Layouts
  import opened Scoring
  import opened SampledCheck
  import opened PieceRanges
  import opened Matching
  import opened ExampleTorrents
  import FullCheck
  import SeedJobs
  import Sweep
  import Tolerance

  // ---------------------------------------------------------------- a file that crashes the parser

  /** A .torrent whose name is a number: reading it raises an error nobody expects. */
  const STRANGE := Dict([Entry(Bytes(INFO), Dict([Entry(Bytes(NAME), Int(1))]))])

  lemma StrangeEscapes(text: Text)
    ensures ParseOf(Encode(STRANGE), text) == Err(Crash)
  {
    hide Encode, DecodeAt;
    var name := Dict([Entry(Bytes(NAME), Int(1))]);
    assert WellFormed(name);
    assert STRANGE == Dict([Entry(Bytes(INFO), name)]) && WellFormed(STRANGE);
    RoundTrip(STRANGE, Encode(STRANGE), 0);
    assert Get(STRANGE.entries, Bytes(INFO)) == Some(Dict([Entry(Bytes(NAME), Int(1))]));
  }

  /** It is downloaded by every fetch of its URL, with no rate limit in the way. */
  lemma CrashIsDownloadedAgain(tracker: Tracker, u: string)
    requires u != "" && tracker.download(u, 0) == tracker.download(u, 1) == Content(Encode(STRANGE))
    ensures var (r, once) := Fetched(tracker, EMPTY, Some(u));
      var (again, twice) := Fetched(tracker, once, Some(u));
      && r == again == Stopped(Escaped) && twice.downloads == [Download(u, false), Download(u, false)]
      && MemoHolds(tracker, twice) && Answered(tracker, twice, u) == {0, 1}
  {
    hide Encode, ParseOf, HashOf, MemoHolds;
    StrangeEscapes(tracker.text);
    EmptyHolds(tracker);
    FetchKeepsMemo(tracker, EMPTY, Some(u));
    var once := Fetched(tracker, EMPTY, Some(u)).1;
    FetchKeepsMemo(tracker, once, Some(u));
  }

  // ---------------------------------------------------------------- two torrents of the catalogue

  /** Two files without a local copy, or one file there with its size. */
  function ExampleMapping(l: Layout): seq<FileMatch> {
    var local := if |l.files| == 1 then Some(LocalFile(Media, 1, 1, "c", "/c", 5)) else None;
    seq(|l.files|, k requires 0 <= k < |l.files| =>
      FileMatch(l.files[k], local, None, None, None, None, CONFIDENCE_NO_MATCH))
  }

  const PACK := Remote("p", "P", ["a", "b"], map[], None, 2, Some("pack link"), map[], None, None)
  const SINGLE := Remote("q", "Q", ["c"], map["c" := 5], None, 5, Some("link"), map[], None, None)

  lemma ExampleEvaluations(ev: Evidence, isVideo: string -> bool)
    requires ev.anchorId == 1 && ev.uniqueIds == map[] && ev.singleUniqueId == None && forall p :: isVideo(p)
    ensures var ms := ExampleMapping(LayoutFromCatalog(PACK, isVideo));
      IsPack(PACK, isVideo) && !LooksAtTorrent(ms, ev) && MappingReason(ms, 1) == Some(SeasonPackPartial)
    ensures !IsPack(SINGLE, isVideo) && LooksAtTorrent(ExampleMapping(LayoutFromCatalog(SINGLE, isVideo)), ev)
  {
    var pack, single := LayoutFromCatalog(PACK, isVideo), LayoutFromCatalog(SINGLE, isVideo);
    var ps, ss := ExampleMapping(pack), ExampleMapping(single);
    assert pack.files == [LayoutFile("a", None, true), LayoutFile("b", None, true)];
    assert single.files == [LayoutFile("c", Some(5), true)];
    assert pack.files[..1] == [pack.files[0]] && ps[..1] == [ps[0]];
    assert Videos(pack.files[..1]) == 1 && VideoCount(ps[..1]) == 1;
    assert ps[0].file.isVideo && ps[0].local.None?;
    assert ss[0].local.Some? && ss[0].local.value.id == 1;
    assert NeedsPieces(Scored(ss, ev)[0]);
  }

  lemma SingleEscapes(tracker: Tracker, d: Direction, m: Memo, ev: Evidence)
    requires "link" !in m.torrents && tracker.download("link", m.calls) == Content(Encode(STRANGE))
    requires ev.anchorId == 1 && ev.uniqueIds == map[] && ev.singleUniqueId == None && forall p :: tracker.isVideo(p)
    ensures !IsPack(SINGLE, tracker.isVideo)
    ensures Examined(tracker, d, m, SINGLE, ExampleMapping, ev) == (Stopped(Escaped), Unsettled(m, "link"))
  {
    hide LooksAtTorrent, Encode, ParseOf, ExampleMapping, Restructured, EvaluationOf, LayoutFromCatalog, MappingReason;
    hide Settled, Unsettled, HashOf, CauseOf, Stored;
    ExampleEvaluations(ev, tracker.isVideo);
    StrangeEscapes(tracker.text);
    assert EvidenceFor(SINGLE, ev) == ev;
    NoTorrentInCatalog(SINGLE, tracker.isVideo);
    assert Fetched(tracker, m, Some("link")) == (Stopped(Escaped), Unsettled(m, "link"));
    hide IsPack, Fetched;
  }

  lemma NoTorrentInCatalog(tc: Remote, isVideo: string -> bool)
    ensures LayoutFromCatalog(tc, isVideo).torrent.None?
  {
  }

  lemma MapsExample()
    ensures MapsAll(ExampleMapping)
  {
  }

  lemma PackIsStored(tracker: Tracker, d: Direction, ev: Evidence)
    requires forall p :: tracker.isVideo(p)
    requires ev.anchorId == 1 && ev.uniqueIds == map[] && ev.singleUniqueId == None
    ensures var (r, after) := Examined(tracker, d, EMPTY, PACK, ExampleMapping, ev);
      && r.Found? && r.value.Some? && r.value.value.pack && r.value.value.remoteId == "p" && after == EMPTY
  {
    hide LooksAtTorrent, MappingReason, LayoutFromCatalog, ExampleMapping, Restructured;
    ExampleEvaluations(ev, tracker.isVideo);
    assert EvidenceFor(PACK, ev) == ev;
    hide IsPack;
  }

  // ---------------------------------------------------------------- downloaded by every search

  lemma OneStep(tracker: Tracker, d: Direction, m: Memo, tc: Remote, mapping: Layout -> seq<FileMatch>, ev: Evidence)
    requires !IsPack(tc, tracker.isVideo) && Examined(tracker, d, m, tc, mapping, ev).0.Stopped?
    ensures var (r, after) := Examined(tracker, d, m, tc, mapping, ev);
      Searched(tracker, d, m, {}, [tc], mapping, ev) == Search(Some(r.stop), [], {}, after)
  {
    hide Examined, IsPack;
    assert [tc][..0] == [];
  }

  /** Two searches that meet the same file: each of them downloads it, and there is no rate limit in the way. */
  lemma CrashIsDownloadedInEverySearch(tracker: Tracker, d: Direction, ev: Evidence)
    requires tracker.download("link", 0) == tracker.download("link", 1) == Content(Encode(STRANGE))
    requires ev.anchorId == 1 && ev.uniqueIds == map[] && ev.singleUniqueId == None && forall p :: tracker.isVideo(p)
    ensures var once, step := Unsettled(EMPTY, "link"), SearchStep([SINGLE], ExampleMapping, ev);
      var twice := Unsettled(once, "link");
      && IsRun(tracker, d, [START, State(once, {}, []), State(twice, {}, [])], [step, step])
      && Answered(tracker, twice, "link") == {0, 1} && Crashes(tracker, "link", 0)
  {
    hide Encode, ExampleMapping, Examined, MapsAll, ParseOf, IsPack, Searched;
    MapsExample();
    var once, step := Unsettled(EMPTY, "link"), SearchStep([SINGLE], ExampleMapping, ev);
    var twice := Unsettled(once, "link");
    SingleEscapes(tracker, d, EMPTY, ev);
    SingleEscapes(tracker, d, once, ev);
    OneStep(tracker, d, EMPTY, SINGLE, ExampleMapping, ev);
    OneStep(tracker, d, once, SINGLE, ExampleMapping, ev);
    assert After(tracker, d, START, step) == State(once, {}, []);
    assert After(tracker, d, State(once, {}, []), step) == State(twice, {}, []);
    StrangeEscapes(tracker.text);
  }

  // ---------------------------------------------------------------- a lost pack

  /** A search that stores a first pack and stops at the second torrent. */
  lemma TwoSteps(tracker: Tracker, d: Direction, m: Memo, a: Remote, b: Remote, mapping: Layout -> seq<FileMatch>,
                 ev: Evidence)
    requires var (r, after) := Examined(tracker, d, m, a, mapping, ev);
      r.Found? && r.value.Some? && r.value.value.pack && r.value.value.remoteId == a.id && after == m
    requires !IsPack(b, tracker.isVideo) && Examined(tracker, d, m, b, mapping, ev).0 == Stopped(Escaped)
    ensures var s := Searched(tracker, d, m, {}, [a, b], mapping, ev);
      s.stop == Some(Escaped) && |s.pending| == 1 && s.pending[0].pack && s.packs == {a.id}
  {
    hide Examined, IsPack;
    var found := [a, b];
    assert found[..1] == [a] && found[..1][..0] == [];
    assert Searched(tracker, d, m, {}, [], mapping, ev) == Search(None, [], {}, m);
    var r := Examined(tracker, d, m, a, mapping, ev).0;
    assert Searched(tracker, d, m, {}, found[..1], mapping, ev) == Search(None, [r.value.value], {a.id}, m);
  }

  /**
   A pack that is lost: its candidate is found, the next torrent's download raises, the candidate is rolled back,
   and the pack stays marked.
   */
  lemma APackIsLost(tracker: Tracker, d: Direction, ev: Evidence)
    requires tracker.download("link", 0) == Content(Encode(STRANGE)) && forall p :: tracker.isVideo(p)
    requires ev.anchorId == 1 && ev.uniqueIds == map[] && ev.singleUniqueId == None
    ensures MapsAll(ExampleMapping) && MemoHolds(tracker, EMPTY) && PacksHold({}, []) && EveryPackStored({}, [])
    ensures var s := Searched(tracker, d, EMPTY, {}, [PACK, SINGLE], ExampleMapping, ev);
      && s.stop == Some(Escaped) && |s.pending| == 1 && s.pending[0].pack
      && s.packs == {"p"} && !EveryPackStored(s.packs, [])
  {
    hide IsPack, Encode, ExampleMapping, MemoHolds, Examined, Searched;
    MapsExample();
    EmptyHolds(tracker);
    PackIsStored(tracker, d, ev);
    SingleEscapes(tracker, d, EMPTY, ev);
    TwoSteps(tracker, d, EMPTY, PACK, SINGLE, ExampleMapping, ev);
    assert PackIds([]) == {} && "p" in {"p"};
  }

  // ---------------------------------------------------------------- a stored candidate that seeds

  /** The example job as the sampled check sees its video: one piece, and it matches. */
  lemma VideoIsClean(job: Sweep.Job, a: seq<byte>, b: seq<byte>)
    requires Tolerance.IsExample(job, a, b)
    ensures var t := Target("v", 1, [a, b], 2, 0, 1, job.disk, job.sha1);
      t.Valid() && t.Checked(Some(PIECE_SAMPLE_SIZE)).Clean()
  {
    hide Target.Checked, SampleOf, SampleFrom, Target.InnerPieces, InnerList, Answers;
    Tolerance.ExampleIsValid(job, a, b);
    Tolerance.ExampleOutcomes(job, a, b);
    var t := Target("v", 1, [a, b], 2, 0, 1, job.disk, job.sha1);
    assert TargetOf(job, 0) == t;
    NoBadVideo(job, a, b);
    CheckedAnswers(t, Some(PIECE_SAMPLE_SIZE));
    CleanSweepMeansCleanSample(job, 0, Some(PIECE_SAMPLE_SIZE), t.InnerPieces(),
      SampleFrom(t.InnerPieces(), Some(PIECE_SAMPLE_SIZE)), t.Checked(Some(PIECE_SAMPLE_SIZE)));
  }

  lemma NoBadVideo(job: Sweep.Job, a: seq<byte>, b: seq<byte>)
    requires Tolerance.IsExample(job, a, b)
    ensures job.Valid() && LastPiece(job, 0) < 2 && NoBadPiece(job, 0)
  {
    hide Sweep.Job.OutcomeOf, Sweep.Job.Touches, Sweep.Job.Count;
    Tolerance.ExampleIsValid(job, a, b);
    NoneBad(job, a, b, Sweep.Mismatch);
    NoneBad(job, a, b, Sweep.Unreadable);
  }

  lemma NoneBad(job: Sweep.Job, a: seq<byte>, b: seq<byte>, o: Sweep.Outcome)
    requires Tolerance.IsExample(job, a, b) && o != Sweep.Good
    ensures job.Count(0, 2, o) == 0
  {
    hide Sweep.Job.OutcomeOf, Sweep.Job.Touches;
    Tolerance.ExampleIsValid(job, a, b);
    Tolerance.ExampleOutcomes(job, a, b);
    assert job.Count(0, 0, o) == 0;
    assert job.Count(0, 1, o) == 0;
  }

  /** The video `v` has a local file of one byte; nothing else has one. */
  function OneVideo(l: Layout): seq<FileMatch> {
    seq(|l.files|, k requires 0 <= k < |l.files| =>
      FileMatch(l.files[k], if l.files[k].path == "v" then Some(LocalFile(Media, 1, 1, "v", "v", 1)) else None,
        None, None, None, None, CONFIDENCE_NO_MATCH))
  }

  lemma OneVideoMaps()
    ensures MapsAll(OneVideo)
  {
  }

  predicate VideoIsV(isVideo: string -> bool) {
    isVideo("v") && !isVideo("n")
  }

  /** The .torrent of the example job, mapped: the video is there, the other file is an extra that is missing. */
  lemma MappedExample(job: Sweep.Job, a: seq<byte>, b: seq<byte>, isVideo: string -> bool, ev: Evidence)
    requires Tolerance.IsExample(job, a, b) && VideoIsV(isVideo) && ev.anchorId == 1 && ev.uniqueIds == map[]
    requires ev.singleUniqueId == None
    ensures var l := LayoutFromTorrent(job.info, isVideo);
      var ms := OneVideo(l);
      && |ms| == |l.files| == 2 && ms[0].file == LayoutFile("v", Some(1), true)
      && ms[1].file == LayoutFile("n", Some(1), false)
      && ms[0].local == Some(LocalFile(Media, 1, 1, "v", "v", 1)) && ms[1].local.None?
      && VideoCount(ms) == 1 && MappingReason(ms, 1).None? && VideosHaveLocal(ms) && NeedsPieces(Scored(ms, ev)[0])
      && Scored(ms, ev)[0].confidence == CONFIDENCE_SIZE_ONLY && Scored(ms, ev)[1] == ms[1]
      && Scored(ms, ev)[0].file == ms[0].file && Scored(ms, ev)[0].local == ms[0].local
      && ScoreReason(Scored(ms, ev)).None?
  {
    var ms := OneVideo(LayoutFromTorrent(job.info, isVideo));
    assert ms[..1][..0] == [] && VideoCount(ms[..1]) == 1;
    assert ms[0].local.Some? && ms[0].local.value.id == 1;
  }

  lemma VideoIsVerified(job: Sweep.Job, a: seq<byte>, b: seq<byte>, m: FileMatch, ev: Evidence)
    requires Tolerance.IsExample(job, a, b) && ev.disk == job.disk && ev.sha1 == job.sha1
    requires m.file.path == "v" && m.local == Some(LocalFile(Media, 1, 1, "v", "v", 1))
    ensures var v := VerifyPieces(m, job.info, ev);
      v.confidence == CONFIDENCE_PIECE_VERIFIED && v.pieceVerified == Some(true) && v.file == m.file
  {
    hide Target.Checked;
    VideoIsClean(job, a, b);
    assert EntryFor("v", job.info.files, ev.fold) == Some(job.info.files[0]);
    assert TargetFor(m.local.value, job.info.files[0], job.info, ev) ==
        Target("v", 1, [a, b], 2, 0, 1, job.disk, job.sha1);
  }

  /** Its evaluation: the pieces of the video are right. */
  lemma EvaluatedExample(job: Sweep.Job, a: seq<byte>, b: seq<byte>, isVideo: string -> bool, ev: Evidence)
    requires Tolerance.IsExample(job, a, b) && VideoIsV(isVideo) && ev.anchorId == 1 && ev.uniqueIds == map[]
    requires ev.singleUniqueId == None && ev.disk == job.disk && ev.sha1 == job.sha1
    ensures var ms := OneVideo(LayoutFromTorrent(job.info, isVideo));
      var e := EvaluationOf(ms, Some(job.info), ev);
      e.confidence == CONFIDENCE_PIECE_VERIFIED && SameMapping(ms, e.files)
  {
    hide OneVideo, MappingReason, Tolerance.IsExample, ScoreReason, SameMapping, LayoutFromTorrent, VerifyPieces;
    hide Scored, Boundaries, Together, MissingBytes, MissingExtras, Lowest, VideoCount, SomeSizeWrong, SomeIdWrong;
    hide EverySizeRight, EveryIdRight, EveryPieceRight, Evidenced, Backed, Level, Maps;
    var l := LayoutFromTorrent(job.info, isVideo);
    var ms := OneVideo(l);
    OneVideoMaps();
    MappedExample(job, a, b, isVideo, ev);
    var scored := Scored(ms, ev);
    VideoIsVerified(job, a, b, scored[0], ev);
    EvaluationIsSound(ms, Some(job.info), ev) by {
      assert Maps(ms, l);
      UnscoredMatches(ms, l);
    }
    var e := EvaluationOf(ms, Some(job.info), ev);
    assert LooksAtTorrent(ms, ev);
    assert e.files == Verified(scored, job.info, ev);
    assert !NeedsPieces(scored[1]);
    assert e.reason.None?;
  }

  lemma UnscoredMatches(ms: seq<FileMatch>, l: Layout)
    requires Maps(ms, l)
    ensures forall k :: 0 <= k < |ms| ==> Unscored(ms[k])
  {
  }

  /** The step that stores it: the library remembers where the file came from. */
  function FromTheHistory(ev: Evidence): Step {
    HistoryStep("p", Some("link"), Found(None), None, OneVideo, ev)
  }

  lemma StoredExample(tracker: Tracker, d: Direction, job: Sweep.Job, a: seq<byte>, b: seq<byte>, ev: Evidence)
    requires Tolerance.IsExample(job, a, b) && ParsesTo(TwoFileTorrent(a, b), tracker.text, job.info)
    requires tracker.download("link", 0) == Content(Encode(TwoFileTorrent(a, b)))
    requires ev.disk == job.disk && ev.sha1 == job.sha1 && ev.anchorId == 1 && VideoIsV(tracker.isVideo)
    ensures ReadFrom(tracker, "link", 0, job.info)
    ensures var s := After(tracker, d, START, FromTheHistory(ev));
      && |s.records| == 1 && "link" in s.memo.served && s.memo.served["link"] == 0
      && var r := s.records[0];
      && r.evaluation.confidence == CONFIDENCE_PIECE_VERIFIED && r.candidate.downloadLink == Some("link")
      && r.candidate.pieceLength == Some(1) && |r.candidate.files| == 2
      && r.candidate.files[0].size == r.candidate.files[1].size == Some(1) && MissingExtra(r.candidate.files[1])
  {
    hide Encode, TwoFileTorrent, Loads, InfoOf, EvaluationOf, OneVideo, HashOf, MappingReason, Scored;
    hide Videos, CauseOf, HashFor, ScoreReason, Target.Checked;
    var plain := ev.(uniqueIds := map[], singleUniqueId := None);
    MappedExample(job, a, b, tracker.isVideo, plain);
    EvaluatedExample(job, a, b, tracker.isVideo, plain);
    assert ParseOf(Encode(TwoFileTorrent(a, b)), tracker.text) == Ok(job.info);
    hide ParseOf;
    assert HistoryFetched(tracker, EMPTY, Some("link"), Found(None)).0 == Found(Some(job.info));
  }

  /** Every hypothesis of `StoredCandidateSeeds` can hold, of a candidate that a run stores. */
  lemma StoredExampleSeeds(tracker: Tracker, d: Direction, job: Sweep.Job, a: seq<byte>, b: seq<byte>, ev: Evidence,
                           status: SeedJobs.TorrentStatus, before: SeedJobs.FinalStatus)
    requires Tolerance.IsExample(job, a, b) && ParsesTo(TwoFileTorrent(a, b), tracker.text, job.info)
    requires tracker.download("link", 0) == Content(Encode(TwoFileTorrent(a, b)))
    requires ev.disk == job.disk && ev.sha1 == job.sha1 && ev.anchorId == 1 && VideoIsV(tracker.isVideo)
    requires status.recheck == SeedJobs.Failed && status.incomplete && status.amountLeft == Some(1)
    ensures var s := After(tracker, d, START, FromTheHistory(ev));
      && IsRun(tracker, d, [START, s], [FromTheHistory(ev)]) && |s.records| == 1
      && var r := s.records[0];
      && Executable(r, s.memo) && |r.candidate.files| > 1 && r.evaluation.confidence > CONFIDENCE_NO_MATCH
      && SeedJobs.FinalAfter(before, SeedJobs.Tolerated(status, MissingBytesFor(r.candidate))) == SeedJobs.Seeding
  {
    hide After, Matching.Holds, Executable, ReadFrom, Encode, TwoFileTorrent, ParsesTo, MemoHolds, MapsAll;
    hide MissingExtra, Tolerance.IsExample, FullCheck.Passes, FullCheck.Summary, MissingBytesFor, Tolerance.AmountLeft;
    var step := FromTheHistory(ev);
    var s := After(tracker, d, START, step);
    OneVideoMaps();
    StoredExample(tracker, d, job, a, b, ev);
    EveryRunHolds(tracker, d, [START, s], [step], 1);
    var r := s.records[0];
    FirstIsExecutable(tracker, s);
    ExampleLocals(job, a, b);
    Tolerance.ExampleSeeds(job, a, b, r.candidate, tracker.isVideo);
    StoredCandidateSeeds(tracker, s.memo, r, job, tracker.isVideo, status, before);
  }

  lemma FirstIsExecutable(tracker: Tracker, s: State)
    requires Matching.Holds(tracker, s) && s.records != []
    ensures MemoHolds(tracker, s.memo) && Executable(s.records[0], s.memo)
  {
    hide MemoHolds, Executable;
  }

  lemma ExampleLocals(job: Sweep.Job, a: seq<byte>, b: seq<byte>)
    requires Tolerance.IsExample(job, a, b)
    ensures job.Files() == 2 && job.local == [Some("v"), None]
  {
  }
}
