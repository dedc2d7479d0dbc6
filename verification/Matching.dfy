/**
 One run of matching against one tracker (app/matching.py): each .torrent is downloaded once, each
 pack is examined once, and what is stored for later execution carries the structure of the real .torrent.
 */
module Matching {
  import opened Basics
  import opened Bencode
  import opened Metainfo
  import opened Candidates
  import opened Layouts
  import opened Scoring
  import Executor
  import SeedJobs
  import Sweep
  import FullCheck
  import Tolerance

  /** What comes back from the tracker for a download. */
  datatype Reply = Content(data: seq<byte>) | TooManyRequests | Refused

  /** `download` may answer differently every time; the second argument counts the downloads so far. */
  datatype Tracker = Tracker(
    download: (string, nat) -> Reply, text: Text, sha1: seq<byte> -> seq<byte>, isVideo: string -> bool)

  /** The exceptions that end a search: the rate limit ends the run, any other ends this file's search. */
  datatype Stop = LimitReached | Escaped

  datatype Found<+T> = Found(value: T) | Stopped(stop: Stop)

  /** A download that was tried; settled when its outcome is remembered. */
  datatype Download = Download(url: string, settled: bool)

  datatype Cause = Ambiguity(reason: Reason) | TorrentStructureUnknown

  /** A stored candidate; `pack` tells whether it was examined as a torrent of several videos. */
  datatype Record = Record(
    remoteId: string, pack: bool, candidate: Candidate, evaluation: Evaluation, cause: Option<Cause>,
    infoHash: Option<seq<byte>>)

  /** A torrent as the catalogue of the tracker describes it. */
  datatype Remote = Remote(
    id: string, name: string, fileList: seq<string>, fileSizes: map<string, int>, folder: Option<string>, size: int,
    downloadLink: Option<string>, uniqueIds: map<string, string>, singleUniqueId: Option<string>,
    infoHash: Option<seq<byte>>)

  // ---------------------------------------------------------------- layouts

  /** `layout_from_torrent` */
  function LayoutFromTorrent(parsed: TorrentInfo, isVideo: string -> bool): Layout {
    Layout(if parsed.isMultiFile then Some(parsed.name) else None,
           seq(|parsed.files|, k requires 0 <= k < |parsed.files| =>
             LayoutFile(parsed.files[k].path, Some(parsed.files[k].length), isVideo(parsed.files[k].path))),
           Some(parsed))
  }

  /** `layout_from_catalog` */
  function LayoutFromCatalog(r: Remote, isVideo: string -> bool): Layout {
    var names := if r.fileList == [] then [r.name] else r.fileList;
    var sizes := if |names| == 1 && names[0] !in r.fileSizes then map[names[0] := r.size] else r.fileSizes;
    Layout(r.folder,
           seq(|names|, k requires 0 <= k < |names| =>
             LayoutFile(names[k], if names[k] in sizes then Some(sizes[names[k]]) else None, isVideo(names[k]))),
           None)
  }

  /** One match per file of the layout, in its order, not scored yet: what both mappings give. */
  predicate Maps(ms: seq<FileMatch>, layout: Layout) {
    |ms| == |layout.files| && forall k :: 0 <= k < |ms| ==> ms[k].file == layout.files[k] && Unscored(ms[k])
  }

  // ---------------------------------------------------------------- what is stored

  function RowOf(m: FileMatch): CandidateFile {
    CandidateFile(m.file.path, m.file.size, m.file.isVideo,
                  if m.local.Some? && m.local.value.kind == Media then Some(m.local.value.id) else None,
                  if m.local.Some? && m.local.value.kind == Seed then Some(m.local.value.id) else None)
  }

  function RowsOf(ms: seq<FileMatch>): (rows: seq<CandidateFile>)
    ensures |rows| == |ms| && forall k :: 0 <= k < |ms| ==> rows[k] == RowOf(ms[k])
  {
    seq(|ms|, k requires 0 <= k < |ms| => RowOf(ms[k]))
  }

  function CandidateOf(layout: Layout, ms: seq<FileMatch>, link: Option<string>, direction: Direction): Candidate {
    Candidate(RowsOf(ms), layout.folder, if layout.torrent.Some? then Some(layout.torrent.value.pieceLength) else None,
        link, direction)
  }

  /** What a parsed .torrent always is. */
  predicate Proper(t: TorrentInfo) {
    t.pieceLength > 0 && (!t.isMultiFile ==> |t.files| == 1)
  }

  /** The rows, the folder and the piece length are those of this .torrent. */
  predicate IsOf(c: Candidate, t: TorrentInfo) {
    && c.folder == (if t.isMultiFile then Some(t.name) else None) && c.pieceLength == Some(t.pieceLength)
    && |c.files| == |t.files|
    && forall k :: 0 <= k < |t.files| ==>
         c.files[k].torrentPath == t.files[k].path && c.files[k].size == Some(t.files[k].length)
  }

  lemma CandidateIsOf(parsed: TorrentInfo, isVideo: string -> bool, ms: seq<FileMatch>, after: seq<FileMatch>,
                      link: Option<string>, d: Direction)
    requires Maps(ms, LayoutFromTorrent(parsed, isVideo)) && SameMapping(ms, after)
    ensures IsOf(CandidateOf(LayoutFromTorrent(parsed, isVideo), after, link, d), parsed)
  {
  }

  // ---------------------------------------------------------------- downloads

  /**
   The memory of one run. `downloads` is every download tried, and `served` says which download the remembered
   .torrent of a URL came from.
   */
  datatype Memo = Memo(
    torrents: map<string, Option<TorrentInfo>>, infoHashes: map<string, seq<byte>>, calls: nat,
    downloads: seq<Download>, served: map<string, nat>)

  const EMPTY := Memo(map[], map[], 0, [], map[])

  function ParseOf(data: seq<byte>, text: Text): Parsed<TorrentInfo> {
    match Loads(data)
    case Err(e) => Err(e)
    case Ok(v) => InfoOf(v, text)
  }

  function HashOf(data: seq<byte>, tracker: Tracker): seq<byte> {
    var span := InfoSpan(data);
    if span.Ok? then tracker.sha1(Slice(data, span.value.0, span.value.1)) else []
  }

  function Unsettled(m: Memo, u: string): Memo {
    m.(calls := m.calls + 1, downloads := m.downloads + [Download(u, false)])
  }

  function Settled(m: Memo, u: string, outcome: Option<TorrentInfo>, hash: seq<byte>): Memo {
    Memo(m.torrents[u := outcome], if outcome.Some? then m.infoHashes[u := hash] else m.infoHashes, m.calls + 1,
         m.downloads + [Download(u, true)], m.served[u := m.calls])
  }

  /** `fetch_torrent` */
  function Fetched(tracker: Tracker, m: Memo, url: Option<string>): (Found<Option<TorrentInfo>>, Memo) {
    if !Given(url) then (Found(None), m)
    else if url.value in m.torrents then (Found(m.torrents[url.value]), m)
    else
      var u := url.value;
      match tracker.download(u, m.calls)
      case TooManyRequests => (Stopped(LimitReached), Unsettled(m, u))
      case Refused => (Found(None), Settled(m, u, None, []))
      case Content(data) =>
        match ParseOf(data, tracker.text)
        case Err(Malformed) => (Found(None), Settled(m, u, None, []))
        case Err(_) => (Stopped(Escaped), Unsettled(m, u))
        case Ok(t) => (Found(Some(t)), Settled(m, u, Some(t), HashOf(data, tracker)))
  }

  /** The `n`-th download of the run, of this URL, brought a file that parses to `t`. */
  predicate ReadFrom(tracker: Tracker, url: string, n: nat, t: TorrentInfo) {
    tracker.download(url, n).Content? && ParseOf(tracker.download(url, n).data, tracker.text) == Ok(t)
  }

  /** The `n`-th download of the run, of this URL, met the rate limit. */
  predicate Limited(tracker: Tracker, url: string, n: nat) {
    tracker.download(url, n).TooManyRequests?
  }

  /** It brought a file on which the parser raises something else than its own error. */
  predicate Crashes(tracker: Tracker, url: string, n: nat) {
    var reply := tracker.download(url, n);
    reply.Content? && ParseOf(reply.data, tracker.text).Err? && ParseOf(reply.data, tracker.text).error != Malformed
  }

  /** Exactly the downloads that met no rate limit and did not crash the parser are settled, and remembered. */
  ghost predicate LogHolds(tracker: Tracker, m: Memo) {
    && m.calls == |m.downloads|
    && (forall i: nat :: i < |m.downloads| ==>
          (m.downloads[i].settled
           <==> !Limited(tracker, m.downloads[i].url, i) && !Crashes(tracker, m.downloads[i].url, i)))
    && (forall u :: u in m.torrents ==>
          u in m.served && m.served[u] < |m.downloads| && m.downloads[m.served[u]] == Download(u, true))
  }

  /**
   What is remembered: an outcome for each settled download, none of which is tried again; and of every .torrent
   the structure and the info hash of the bytes the tracker served for that URL.
   */
  ghost predicate MemoHolds(tracker: Tracker, m: Memo) {
    && LogHolds(tracker, m)
    && (forall i :: 0 <= i < |m.downloads| && m.downloads[i].settled ==> m.downloads[i].url in m.torrents)
    && NoneAfterSettled(m.downloads)
    && (forall u :: u in m.torrents && m.torrents[u].Some? ==> Remembered(tracker, m, u))
  }

  predicate Remembered(tracker: Tracker, m: Memo, u: string)
    requires u in m.torrents && m.torrents[u].Some?
  {
    && u in m.served && ReadFrom(tracker, u, m.served[u], m.torrents[u].value)
    && u in m.infoHashes && m.infoHashes[u] == HashOf(tracker.download(u, m.served[u]).data, tracker)
    && InfoSpan(tracker.download(u, m.served[u]).data).Ok?
  }

  /** `later` remembers all that `m` does. */
  predicate Extends(m: Memo, later: Memo) {
    forall u :: u in m.torrents ==> u in later.torrents && later.torrents[u] == m.torrents[u]
  }

  lemma ParsedIsProper(v: Value, text: Text)
    ensures InfoOf(v, text).Ok? ==> Proper(InfoOf(v, text).value)
  {
  }

  lemma ReadIsProper(tracker: Tracker, url: string, n: nat, t: TorrentInfo)
    requires ReadFrom(tracker, url, n, t)
    ensures Proper(t)
  {
    hide InfoOf, Proper;
    ParsedIsProper(Loads(tracker.download(url, n).data).value, tracker.text);
  }

  /** A .torrent that parses always has an info hash. */
  lemma ParsedHasSpan(data: seq<byte>, text: Text)
    requires ParseOf(data, text).Ok?
    ensures InfoSpan(data).Ok?
  {
    hide DecodePairs, SpanFrom, AsDict, FilesOf;
    assert DecodeAt(data, 0).Ok? && Loads(data).value.Dict?;
    assert data != [] && data[0] == D && DecodePairs(data, 1).Ok?;
    var (pairs, end) := DecodePairs(data, 1).value;
    SpanAgreesWithDecode(data, pairs, end);
  }

  lemma MemoUnsettled(tracker: Tracker, m: Memo, u: string)
    requires MemoHolds(tracker, m) && u !in m.torrents
    requires Limited(tracker, u, m.calls) || Crashes(tracker, u, m.calls)
    ensures MemoHolds(tracker, Unsettled(m, u)) && Extends(m, Unsettled(m, u))
  {
    hide ReadFrom, HashOf, InfoSpan, Limited, Crashes;
  }

  lemma MemoSettled(tracker: Tracker, m: Memo, u: string, outcome: Option<TorrentInfo>, hash: seq<byte>)
    requires MemoHolds(tracker, m) && u !in m.torrents
    requires !Limited(tracker, u, m.calls) && !Crashes(tracker, u, m.calls)
    requires outcome.Some? ==>
               && ReadFrom(tracker, u, m.calls, outcome.value)
               && hash == HashOf(tracker.download(u, m.calls).data, tracker)
               && InfoSpan(tracker.download(u, m.calls).data).Ok?
    ensures MemoHolds(tracker, Settled(m, u, outcome, hash)) && Extends(m, Settled(m, u, outcome, hash))
  {
    hide ReadFrom, HashOf, InfoSpan, Limited, Crashes;
  }

  /** A fetch keeps the memory sound, forgets nothing, and answers with what is remembered of the URL. */
  lemma FetchKeepsMemo(tracker: Tracker, m: Memo, url: Option<string>)
    requires MemoHolds(tracker, m)
    ensures var (r, after) := Fetched(tracker, m, url);
      && MemoHolds(tracker, after) && Extends(m, after) && |m.downloads| <= |after.downloads| <= |m.downloads| + 1
      && (Given(url) && url.value in m.torrents ==> after == m)
      && (Given(url) && url.value !in m.torrents ==>
            after.downloads == m.downloads + [Download(url.value, r.Found?)])
      && (Given(url) && r.Found? ==> url.value in after.torrents && r.value == after.torrents[url.value])
      && (Given(url) && r.Stopped? ==> url.value !in after.torrents)
      && (!Given(url) ==> r == Found(None) && after == m)
      && (r.Found? && r.value.Some? ==> Proper(r.value.value))
  {
    hide ParseOf, HashOf, InfoSpan, Proper, MemoHolds;
    if Given(url) && url.value !in m.torrents {
      var u := url.value;
      var reply := tracker.download(u, m.calls);
      if Limited(tracker, u, m.calls) || Crashes(tracker, u, m.calls) {
        MemoUnsettled(tracker, m, u);
      } else {
        MemoSettled(tracker, m, u, None, []);
      }
      if reply.Content? && ParseOf(reply.data, tracker.text).Ok? {
        ParsedHasSpan(reply.data, tracker.text);
        var t := ParseOf(reply.data, tracker.text).value;
        MemoSettled(tracker, m, u, Some(t), HashOf(reply.data, tracker));
        ReadIsProper(tracker, u, m.calls, t);
      }
    } else if Given(url) && m.torrents[url.value].Some? {
      MemoIsProper(tracker, m, url.value);
    }
  }

  lemma MemoIsProper(tracker: Tracker, m: Memo, u: string)
    requires MemoHolds(tracker, m) && u in m.torrents && m.torrents[u].Some?
    ensures Remembered(tracker, m, u) && Proper(m.torrents[u].value)
  {
    hide ReadFrom, HashOf, InfoSpan, Proper;
    ReadIsProper(tracker, u, m.served[u], m.torrents[u].value);
  }

  function SettledCount(downloads: seq<Download>, url: string): nat {
    if downloads == [] then 0
    else SettledCount(downloads[..|downloads| - 1], url)
         + if downloads[|downloads| - 1].url == url && downloads[|downloads| - 1].settled then 1 else 0
  }

  predicate NoneAfterSettled(downloads: seq<Download>) {
    forall i, j :: 0 <= i < j < |downloads| && downloads[i].url == downloads[j].url ==> !downloads[i].settled
  }

  /** A URL is downloaded to an outcome at most once, and never again after that. */
  lemma {:induction false} DownloadedOnce(downloads: seq<Download>, url: string)
    requires NoneAfterSettled(downloads)
    ensures SettledCount(downloads, url) <= 1
    ensures SettledCount(downloads, url) == 1 ==> exists i ::
              0 <= i < |downloads| && downloads[i] == Download(url, true)
              && forall j :: i < j < |downloads| ==> downloads[j].url != url
    decreases |downloads|
  {
    if downloads != [] {
      var n := |downloads| - 1;
      var before := downloads[..n];
      DownloadedOnce(before, url);
      if SettledCount(before, url) == 1 {
        var i :| 0 <= i < n && before[i] == Download(url, true) && forall j :: i < j < n ==> before[j].url != url;
        assert downloads[i] == Download(url, true);
        forall j | i < j < |downloads| ensures downloads[j].url != url {
          assert j == n || before[j] == downloads[j];
        }
      } else if SettledCount(downloads, url) == 1 {
        assert downloads[n] == Download(url, true);
      }
    }
  }

  /** The downloads of this URL, rate limits aside. */
  function Answered(tracker: Tracker, m: Memo, url: string): set<nat> {
    set i: nat | i < |m.downloads| && m.downloads[i].url == url && !Limited(tracker, url, i)
  }

  /**
   Rate limits aside, a URL is downloaded at most once exactly if no reply that crashed the parser was followed by
   another. To an outcome it is downloaded at most once in any case.
   */
  lemma MemoDownloadsOnce(tracker: Tracker, m: Memo, url: string)
    requires MemoHolds(tracker, m)
    ensures NoneAfterSettled(m.downloads) && SettledCount(m.downloads, url) <= 1
    ensures |Answered(tracker, m, url)| <= 1 <==>
            forall i, j :: i in Answered(tracker, m, url) && j in Answered(tracker, m, url) && i < j ==>
              !Crashes(tracker, url, i)
  {
    hide Remembered, SettledCount, Limited, Crashes;
    DownloadedOnce(m.downloads, url);
    AtMostOneIff(Answered(tracker, m, url));
  }

  lemma AtMostOneIff(s: set<nat>)
    ensures |s| <= 1 <==> forall i, j :: i in s && j in s ==> !(i < j)
  {
    if s != {} {
      var x :| x in s;
      var rest := s - {x};
      assert s == rest + {x};
      if rest != {} {
        var y :| y in rest;
        assert x < y || y < x;
      }
    }
  }

  /** Exactly when a fetch downloads: when every earlier download of the URL met the limit or crashed the parser. */
  lemma DownloadsIff(tracker: Tracker, m: Memo, url: Option<string>)
    requires MemoHolds(tracker, m)
    ensures |Fetched(tracker, m, url).1.downloads| > |m.downloads| <==>
            && Given(url)
            && forall i: nat :: i < |m.downloads| && m.downloads[i].url == url.value ==>
                 Limited(tracker, url.value, i) || Crashes(tracker, url.value, i)
  {
    hide Remembered, Limited, Crashes, ParseOf, HashOf;
  }

  lemma EmptyHolds(tracker: Tracker)
    ensures MemoHolds(tracker, EMPTY)
  {
  }

  // ---------------------------------------------------------------- what can be executed

  /**
   A candidate that may be acted on has a local file for every video, and one of several files has the structure
   of the .torrent read from its own link.
   */
  predicate Executable(r: Record, m: Memo) {
    r.evaluation.confidence > CONFIDENCE_NO_MATCH ==>
      && (forall k :: 0 <= k < |r.candidate.files| && r.candidate.files[k].isVideo ==> r.candidate.files[k].HasLocal())
      && (|r.candidate.files| > 1 ==> OfItsLink(r.candidate, m))
  }

  predicate OfItsLink(c: Candidate, m: Memo) {
    && Given(c.downloadLink) && c.downloadLink.value in m.torrents && m.torrents[c.downloadLink.value].Some?
    && IsOf(c, m.torrents[c.downloadLink.value].value)
  }

  lemma StaysExecutable(r: Record, m: Memo, later: Memo)
    requires Executable(r, m) && Extends(m, later)
    ensures Executable(r, later)
  {
    hide IsOf;
  }

  lemma VideosAreLocal(e: Evaluation)
    requires Sound(e) && e.confidence > CONFIDENCE_NO_MATCH
    ensures forall k :: 0 <= k < |e.files| && e.files[k].file.isVideo ==> e.files[k].local.Some?
  {
    forall k | 0 <= k < |e.files| && e.files[k].file.isVideo ensures e.files[k].local.Some? {
      assert Backed(e.files[k]) && e.confidence <= e.files[k].confidence;
    }
  }

  lemma ExecutableBy(r: Record, e: Evaluation, m: Memo)
    requires Sound(e) && r.candidate.files == RowsOf(e.files)
    requires r.evaluation.confidence > CONFIDENCE_NO_MATCH ==> r.evaluation.confidence == e.confidence
    requires r.evaluation.confidence > CONFIDENCE_NO_MATCH && |r.candidate.files| > 1 ==> OfItsLink(r.candidate, m)
    ensures Executable(r, m)
  {
    hide Sound, OfItsLink;
    if r.evaluation.confidence > CONFIDENCE_NO_MATCH {
      VideosAreLocal(e);
    }
  }

  // ---------------------------------------------------------------- one torrent

  /** `_evaluate`: the .torrent is fetched only if the scoring asks for it; the layout keeps it. */
  function EvaluatedOn(tracker: Tracker, m: Memo, layout: Layout, ms: seq<FileMatch>, ev: Evidence,
                       link: Option<string>)
    : (Found<Evaluation>, Layout, Memo)
  {
    if layout.torrent.None? && LooksAtTorrent(ms, ev) then
      var (f, after) := Fetched(tracker, m, link);
      match f
      case Stopped(stop) => (Stopped(stop), layout, after)
      case Found(torrent) => (Found(EvaluationOf(ms, torrent, ev)), layout.(torrent := torrent), after)
    else (Found(EvaluationOf(ms, layout.torrent, ev)), layout, m)
  }

  function CauseOf(e: Evaluation): Option<Cause> {
    if e.reason.Some? then Some(Ambiguity(e.reason.value)) else None
  }

  /** The info hash known from elsewhere, else that of the downloaded .torrent. */
  function HashFor(known: Option<seq<byte>>, link: Option<string>, infoHashes: map<string, seq<byte>>)
    : Option<seq<byte>>
  {
    if known.Some? then known
    else if Given(link) && link.value in infoHashes then Some(infoHashes[link.value])
    else None
  }

  /** What the tracker and the mapping say of one torrent of the catalogue. */
  function EvidenceFor(tc: Remote, ev: Evidence): Evidence {
    ev.(uniqueIds := tc.uniqueIds, singleUniqueId := tc.singleUniqueId)
  }

  function Stored(tc: Remote, isVideo: string -> bool, layout: Layout, e: Evaluation, cause: Option<Cause>, m: Memo,
                  d: Direction): Record
  {
    Record(tc.id, IsPack(tc, isVideo), CandidateOf(layout, e.files, tc.downloadLink, d), e, cause,
           HashFor(tc.infoHash, tc.downloadLink, m.infoHashes))
  }

  /** The catalogue shows several videos. */
  predicate IsPack(tc: Remote, isVideo: string -> bool) {
    Videos(LayoutFromCatalog(tc, isVideo).files) > 1
  }

  /** The loop body of `match_file`: nothing is stored for a torrent that does not concern the file. */
  function Examined(tracker: Tracker, d: Direction, m: Memo, tc: Remote, mapping: Layout -> seq<FileMatch>,
                    ev: Evidence)
    : (Found<Option<Record>>, Memo)
  {
    var catalog := LayoutFromCatalog(tc, tracker.isVideo);
    var (first, layout, m1) := EvaluatedOn(tracker, m, catalog, mapping(catalog), EvidenceFor(tc, ev), tc.downloadLink);
    match first
    case Stopped(stop) => (Stopped(stop), m1)
    case Found(e) =>
      if e.reason == Some(AnchorNotInTorrent) then (Found(None), m1)
      else if e.confidence > CONFIDENCE_NO_MATCH && |layout.files| > 1 then
        Restructured(tracker, d, m1, tc, layout, e, mapping, ev)
      else (Found(Some(Stored(tc, tracker.isVideo, layout, e, CauseOf(e), m1, d))), m1)
  }

  /**
   A plausible torrent of several files is evaluated again on the structure of its .torrent, or loses its
   confidence.
   */
  function Restructured(tracker: Tracker, d: Direction, m: Memo, tc: Remote, layout: Layout, e: Evaluation,
                        mapping: Layout -> seq<FileMatch>, ev: Evidence): (Found<Option<Record>>, Memo)
  {
    var (f, after) := if layout.torrent.Some? then (Found(layout.torrent), m) else Fetched(tracker, m, tc.downloadLink);
    match f
    case Stopped(stop) => (Stopped(stop), after)
    case Found(None) =>
      var unknown := e.(confidence := CONFIDENCE_NO_MATCH);
      (Found(Some(Stored(tc, tracker.isVideo, layout, unknown, Some(TorrentStructureUnknown), after, d))), after)
    case Found(Some(parsed)) =>
      var actual := LayoutFromTorrent(parsed, tracker.isVideo);
      var again := EvaluationOf(mapping(actual), Some(parsed), EvidenceFor(tc, ev));
      (Found(Some(Stored(tc, tracker.isVideo, actual, again, CauseOf(again), after, d))), after)
  }

  ghost predicate MapsAll(mapping: Layout -> seq<FileMatch>) {
    forall l :: Maps(mapping(l), l)
  }

  /** Facts about one evaluation: memory, layout and what the matches are backed by. */
  lemma EvaluatedKeepsMemo(tracker: Tracker, m: Memo, layout: Layout, ms: seq<FileMatch>, ev: Evidence,
                           link: Option<string>)
    requires MemoHolds(tracker, m) && Maps(ms, layout)
    ensures var (r, seen, after) := EvaluatedOn(tracker, m, layout, ms, ev, link);
      && MemoHolds(tracker, after) && Extends(m, after) && |after.downloads| <= |m.downloads| + 1
      && seen.files == layout.files && seen.folder == layout.folder
      && (layout.torrent.Some? ==> r.Found? && seen == layout && after == m)
      && (layout.torrent.None? && seen.torrent.Some? ==>
            Given(link) && link.value in after.torrents && after.torrents[link.value] == seen.torrent)
      && (r.Found? ==> SameMapping(ms, r.value.files) && Sound(r.value))
  {
    hide MemoHolds, Fetched, Sound, SameMapping, LooksAtTorrent, EvaluationOf;
    FetchKeepsMemo(tracker, m, link);
    var (f, after) := Fetched(tracker, m, link);
    EvaluationIsSound(ms, layout.torrent, ev);
    if f.Found? {
      EvaluationIsSound(ms, f.value, ev);
    }
  }

  /** What is stored of a torrent can be executed, and is stored under its link. */
  lemma ExaminedIsExecutable(tracker: Tracker, d: Direction, m: Memo, tc: Remote, mapping: Layout -> seq<FileMatch>,
                             ev: Evidence)
    requires MemoHolds(tracker, m) && MapsAll(mapping)
    ensures var (r, after) := Examined(tracker, d, m, tc, mapping, ev);
      && MemoHolds(tracker, after) && Extends(m, after)
      && (r.Found? && r.value.Some? ==>
            && r.value.value.remoteId == tc.id && r.value.value.pack == IsPack(tc, tracker.isVideo)
            && r.value.value.candidate.downloadLink == tc.downloadLink && Executable(r.value.value, after))
  {
    hide MemoHolds, Sound, SameMapping, EvaluationOf, IsPack, IsOf, Executable, Restructured, EvaluatedOn, Unscored;
    var catalog := LayoutFromCatalog(tc, tracker.isVideo);
    EvaluatedKeepsMemo(tracker, m, catalog, mapping(catalog), EvidenceFor(tc, ev), tc.downloadLink);
    var (first, layout, m1) := EvaluatedOn(tracker, m, catalog, mapping(catalog), EvidenceFor(tc, ev), tc.downloadLink);
    if first.Found? && first.value.reason != Some(AnchorNotInTorrent) {
      var e := first.value;
      SameLength(mapping(catalog), e.files);
      if e.confidence > CONFIDENCE_NO_MATCH && |layout.files| > 1 {
        RestructuredIsExecutable(tracker, d, m1, tc, layout, e, mapping, ev);
      } else {
        ExecutableBy(Stored(tc, tracker.isVideo, layout, e, CauseOf(e), m1, d), e, m1);
      }
    }
  }

  lemma RestructuredIsExecutable(tracker: Tracker, d: Direction, m: Memo, tc: Remote, layout: Layout, e: Evaluation,
                                 mapping: Layout -> seq<FileMatch>, ev: Evidence)
    requires MemoHolds(tracker, m) && MapsAll(mapping) && Sound(e)
    requires layout.torrent.Some? ==>
               Given(tc.downloadLink) && tc.downloadLink.value in m.torrents
                   && m.torrents[tc.downloadLink.value] == layout.torrent
    ensures var (r, after) := Restructured(tracker, d, m, tc, layout, e, mapping, ev);
      && MemoHolds(tracker, after) && Extends(m, after)
      && (r.Found? ==>
            && r.value.Some? && r.value.value.remoteId == tc.id && r.value.value.pack == IsPack(tc, tracker.isVideo)
            && r.value.value.candidate.downloadLink == tc.downloadLink && Executable(r.value.value, after))
  {
    hide MemoHolds, Sound, SameMapping, EvaluationOf, IsPack, IsOf, Executable, Fetched, Unscored;
    FetchKeepsMemo(tracker, m, tc.downloadLink);
    var (f, after) := if layout.torrent.Some? then (Found(layout.torrent), m) else Fetched(tracker, m, tc.downloadLink);
    if f.Found? && f.value.None? {
      var unknown := e.(confidence := CONFIDENCE_NO_MATCH);
      ExecutableBy(Stored(tc, tracker.isVideo, layout, unknown, Some(TorrentStructureUnknown), after, d), e, after);
    } else if f.Found? {
      var parsed := f.value.value;
      var actual := LayoutFromTorrent(parsed, tracker.isVideo);
      var again := EvaluationOf(mapping(actual), Some(parsed), EvidenceFor(tc, ev));
      EvaluationIsSound(mapping(actual), Some(parsed), EvidenceFor(tc, ev)) by {
        assert Maps(mapping(actual), actual);
      }
      CandidateIsOf(parsed, tracker.isVideo, mapping(actual), again.files, tc.downloadLink, d);
      ExecutableBy(Stored(tc, tracker.isVideo, actual, again, CauseOf(again), after, d), again, after);
    }
  }

  lemma SameLength(ms: seq<FileMatch>, after: seq<FileMatch>)
    requires SameMapping(ms, after)
    ensures |after| == |ms|
  {
  }

  /** Nothing is stored exactly when, as far as the catalogue goes, the anchor alone is what is missing. */
  lemma StoredIff(tracker: Tracker, d: Direction, m: Memo, tc: Remote, mapping: Layout -> seq<FileMatch>, ev: Evidence)
    ensures var (r, after) := Examined(tracker, d, m, tc, mapping, ev);
      r.Found? ==> (r.value.Some? <==>
        MappingReason(mapping(LayoutFromCatalog(tc, tracker.isVideo)), ev.anchorId) != Some(AnchorNotInTorrent))
  {
    hide MappingReason, LooksAtTorrent, Fetched, VideosHaveLocal, LayoutFromCatalog;
    var catalog := LayoutFromCatalog(tc, tracker.isVideo);
    ReasonIsOfTheMapping(mapping(catalog), EvidenceFor(tc, ev));
  }

  lemma ReasonIsOfTheMapping(ms: seq<FileMatch>, ev: Evidence)
    ensures forall torrent :: EvaluationOf(ms, torrent, ev).reason == Some(AnchorNotInTorrent)
                              <==> MappingReason(ms, ev.anchorId) == Some(AnchorNotInTorrent)
  {
    if MappingReason(ms, ev.anchorId).None? {
      LocalOfVideos(ms, ev.anchorId);
    }
  }

  /**
   The record was made from the mapping of this layout: folder and rows are those of the mapping, and if it is
   plausible, the mapping has every video and the anchor.
   */
  ghost predicate MappedOn(r: Record, l: Layout, mapping: Layout -> seq<FileMatch>, ev: Evidence) {
    && r.candidate.folder == l.folder && r.candidate.files == RowsOf(r.evaluation.files)
    && SameMapping(mapping(l), r.evaluation.files)
    && (r.evaluation.confidence > CONFIDENCE_NO_MATCH ==>
          Sound(r.evaluation) && MappingReason(mapping(l), ev.anchorId).None?)
  }

  ghost predicate MappedBy(r: Record, mapping: Layout -> seq<FileMatch>, ev: Evidence) {
    exists l :: MappedOn(r, l, mapping, ev)
  }

  lemma PlausibleIsMapped(ms: seq<FileMatch>, torrent: Option<TorrentInfo>, ev: Evidence)
    requires EvaluationOf(ms, torrent, ev).confidence > CONFIDENCE_NO_MATCH
    ensures MappingReason(ms, ev.anchorId).None?
  {
  }

  lemma EvaluatedIsMapped(ms: seq<FileMatch>, torrent: Option<TorrentInfo>, ev: Evidence, l: Layout)
    requires Maps(ms, l)
    ensures var e := EvaluationOf(ms, torrent, ev);
      SameMapping(ms, e.files)
      && (e.confidence > CONFIDENCE_NO_MATCH ==> Sound(e) && MappingReason(ms, ev.anchorId).None?)
  {
    hide EvaluationOf, MappingReason, Sound, SameMapping;
    EvaluationIsSound(ms, torrent, ev);
    if EvaluationOf(ms, torrent, ev).confidence > CONFIDENCE_NO_MATCH {
      PlausibleIsMapped(ms, torrent, ev);
    }
  }

  lemma ExaminedIsMapped(tracker: Tracker, d: Direction, m: Memo, tc: Remote, mapping: Layout -> seq<FileMatch>,
                         ev: Evidence)
    requires MapsAll(mapping)
    ensures var r := Examined(tracker, d, m, tc, mapping, ev).0;
      r.Found? && r.value.Some? ==> MappedBy(r.value.value, mapping, ev)
  {
    hide EvaluationOf, MappingReason, Sound, SameMapping, Fetched, LayoutFromCatalog, LooksAtTorrent, HashFor;
    hide LayoutFromTorrent, RowsOf, IsPack, Unscored;
    var evidence := EvidenceFor(tc, ev);
    var r := Examined(tracker, d, m, tc, mapping, ev).0;
    if r.Found? && r.value.Some? {
      var catalog := LayoutFromCatalog(tc, tracker.isVideo);
      assert Maps(mapping(catalog), catalog);
      var (first, layout, m1) := EvaluatedOn(tracker, m, catalog, mapping(catalog), evidence, tc.downloadLink);
      EvaluatedIsMapped(mapping(catalog), catalog.torrent, evidence, catalog);
      EvaluatedIsMapped(mapping(catalog), layout.torrent, evidence, catalog);
      var torrent := if layout.torrent.Some? then layout.torrent else
        var f := Fetched(tracker, m1, tc.downloadLink).0; if f.Found? then f.value else None;
      if torrent.Some? {
        var actual := LayoutFromTorrent(torrent.value, tracker.isVideo);
        assert Maps(mapping(actual), actual);
        EvaluatedIsMapped(mapping(actual), torrent, evidence, actual);
        assert MappedOn(r.value.value, actual, mapping, ev) || MappedOn(r.value.value, catalog, mapping, ev);
      } else {
        assert MappedOn(r.value.value, catalog, mapping, ev);
      }
    }
  }

  lemma HistoryIsMapped(remoteId: string, isVideo: string -> bool, parsed: TorrentInfo, used: Option<string>,
                        known: Option<seq<byte>>,
                        m: Memo, d: Direction, mapping: Layout -> seq<FileMatch>, ev: Evidence)
    requires MapsAll(mapping)
    ensures MappedBy(HistoryRecord(remoteId, isVideo, parsed, used, known, m, d, mapping, ev), mapping, ev)
  {
    hide EvaluationOf, MappingReason, Sound, SameMapping, HashFor, LayoutFromTorrent, RowsOf, Unscored, Videos;
    var layout := LayoutFromTorrent(parsed, isVideo);
    assert Maps(mapping(layout), layout);
    EvaluatedIsMapped(mapping(layout), Some(parsed), ev.(uniqueIds := map[], singleUniqueId := None), layout);
    assert MappedOn(HistoryRecord(remoteId, isVideo, parsed, used, known, m, d, mapping, ev), layout, mapping, ev);
  }

  // ---------------------------------------------------------------- a search

  /** `match_file` so far: why it stopped, if it did, the candidates not committed yet, the packs marked. */
  datatype Search = Search(stop: Option<Stop>, pending: seq<Record>, packs: set<string>, memo: Memo)

  function Searched(tracker: Tracker, d: Direction, m: Memo, packs: set<string>, found: seq<Remote>,
                    mapping: Layout -> seq<FileMatch>, ev: Evidence): Search
  {
    if found == [] then Search(None, [], packs, m)
    else
      var s, tc := Searched(tracker, d, m, packs, found[..|found| - 1], mapping, ev), found[|found| - 1];
      if s.stop.Some? || (IsPack(tc, tracker.isVideo) && tc.id in s.packs) then s
      else OneMore(s, Examined(tracker, d, s.memo, tc, mapping, ev))
  }

  function OneMore(s: Search, examined: (Found<Option<Record>>, Memo)): Search {
    match examined.0
    case Stopped(stop) => s.(stop := Some(stop), memo := examined.1)
    case Found(None) => s.(memo := examined.1)
    case Found(Some(r)) =>
      s.(pending := s.pending + [r], packs := s.packs + if r.pack then {r.remoteId} else {}, memo := examined.1)
  }

  /** After it stopped, a search looks at nothing more. */
  lemma {:induction false} StopsForGood(tracker: Tracker, d: Direction, m: Memo, packs: set<string>,
                                        found: seq<Remote>, k: nat,
                                        mapping: Layout -> seq<FileMatch>, ev: Evidence)
    requires k <= |found| && Searched(tracker, d, m, packs, found[..k], mapping, ev).stop.Some?
    ensures Searched(tracker, d, m, packs, found, mapping, ev) ==
        Searched(tracker, d, m, packs, found[..k], mapping, ev)
  {
    hide Examined, IsPack;
    if k == |found| {
      assert found[..k] == found;
    } else {
      assert found[..|found| - 1][..k] == found[..k];
      StopsForGood(tracker, d, m, packs, found[..|found| - 1], k, mapping, ev);
    }
  }

  lemma {:induction false} SearchIsMapped(tracker: Tracker, d: Direction, m: Memo, packs: set<string>,
                                          found: seq<Remote>, mapping: Layout -> seq<FileMatch>, ev: Evidence)
    requires MapsAll(mapping)
    ensures forall r :: r in Searched(tracker, d, m, packs, found, mapping, ev).pending ==> MappedBy(r, mapping, ev)
  {
    hide Examined, IsPack, MapsAll, MappedBy;
    if found != [] {
      var s, tc := Searched(tracker, d, m, packs, found[..|found| - 1], mapping, ev), found[|found| - 1];
      SearchIsMapped(tracker, d, m, packs, found[..|found| - 1], mapping, ev);
      ExaminedIsMapped(tracker, d, s.memo, tc, mapping, ev);
    }
  }

  function PackIds(records: seq<Record>): set<string> {
    set i | 0 <= i < |records| && records[i].pack :: records[i].remoteId
  }

  /** Every stored pack is marked, and no pack is stored twice. */
  ghost predicate PacksHold(packs: set<string>, records: seq<Record>) {
    && PackIds(records) <= packs
    && (forall i, j :: 0 <= i < j < |records| && records[i].pack && records[j].pack ==>
          records[i].remoteId != records[j].remoteId)
  }

  predicate AllExecutable(records: seq<Record>, m: Memo) {
    forall i :: 0 <= i < |records| ==> Executable(records[i], m)
  }

  lemma PackIdsOfMore(records: seq<Record>, r: Record)
    ensures PackIds(records + [r]) == PackIds(records) + if r.pack then {r.remoteId} else {}
  {
    var more := records + [r];
    forall id ensures id in PackIds(more) <==> id in PackIds(records) || (r.pack && id == r.remoteId) {
      if id in PackIds(records) {
        var i :| 0 <= i < |records| && records[i].pack && records[i].remoteId == id;
        assert more[i].pack && more[i].remoteId == id;
      }
      assert more[|records|] == r;
    }
  }

  lemma OneMorePack(packs: set<string>, records: seq<Record>, r: Record)
    requires PacksHold(packs, records) && (r.pack ==> r.remoteId !in packs)
    ensures PacksHold(packs + if r.pack then {r.remoteId} else {}, records + [r])
  {
    PackIdsOfMore(records, r);
    hide PackIds;
    forall i | 0 <= i < |records| && records[i].pack ensures records[i].remoteId in PackIds(records) {
      PackIsListed(records, i);
    }
  }

  lemma PackIsListed(records: seq<Record>, i: nat)
    requires i < |records| && records[i].pack
    ensures records[i].remoteId in PackIds(records)
  {
  }

  lemma MoreExecutable(records: seq<Record>, m: Memo, later: Memo)
    requires AllExecutable(records, m) && Extends(m, later)
    ensures AllExecutable(records, later)
  {
    hide Executable, Extends;
    forall i | 0 <= i < |records| ensures Executable(records[i], later) {
      StaysExecutable(records[i], m, later);
    }
  }

  lemma ExtendsAll(a: Memo, b: Memo, c: Memo)
    requires Extends(a, b) && Extends(b, c)
    ensures Extends(a, c)
  {
  }

  /** What every search keeps, and exactly which packs it marks: those it found candidates for. */
  lemma {:induction false} SearchKeeps(tracker: Tracker, d: Direction, m: Memo, packs: set<string>,
                                       records: seq<Record>, found: seq<Remote>,
                                       mapping: Layout -> seq<FileMatch>, ev: Evidence)
    requires MemoHolds(tracker, m) && MapsAll(mapping) && PacksHold(packs, records)
    ensures var s := Searched(tracker, d, m, packs, found, mapping, ev);
      && MemoHolds(tracker, s.memo) && Extends(m, s.memo) && AllExecutable(s.pending, s.memo)
      && s.packs == packs + PackIds(s.pending) && PackIds(s.pending) !! packs
      && PacksHold(s.packs, records + s.pending)
  {
    hide MemoHolds, Examined, IsPack, MapsAll, PacksHold, Executable, Extends, PackIds;
    if found == [] {
      assert records + [] == records;
      NoPacks(m);
    } else {
      var s, tc := Searched(tracker, d, m, packs, found[..|found| - 1], mapping, ev), found[|found| - 1];
      SearchKeeps(tracker, d, m, packs, records, found[..|found| - 1], mapping, ev);
      if s.stop.None? && !(IsPack(tc, tracker.isVideo) && tc.id in s.packs) {
        ExaminedIsExecutable(tracker, d, s.memo, tc, mapping, ev);
        var (r, after) := Examined(tracker, d, s.memo, tc, mapping, ev);
        ExtendsAll(m, s.memo, after);
        MoreExecutable(s.pending, s.memo, after);
        if r.Found? && r.value.Some? {
          OneMorePack(s.packs, records + s.pending, r.value.value);
          PackIdsOfMore(s.pending, r.value.value);
          assert records + (s.pending + [r.value.value]) == records + s.pending + [r.value.value];
        }
      }
    }
  }

  lemma NoPacks(m: Memo)
    ensures PackIds([]) == {} && Extends(m, m)
  {
  }

  lemma NoRecords(packs: set<string>)
    ensures PacksHold(packs, [])
  {
  }

  /** Every pack marked has a candidate stored. */
  ghost predicate EveryPackStored(packs: set<string>, records: seq<Record>) {
    packs <= PackIds(records)
  }

  /**
   When a search is ended early its candidates are rolled back but its marks stay. Every marked pack still has its
   candidate exactly if it had before and none of the candidates rolled back is of a pack.
   */
  lemma RolledBackIff(packs: set<string>, records: seq<Record>, lost: seq<Record>)
    requires PacksHold(packs, records) && PacksHold(packs + PackIds(lost), records + lost)
    ensures EveryPackStored(packs + PackIds(lost), records) <==> EveryPackStored(packs, records) && PackIds(lost) == {}
  {
    LostIsNew(packs + PackIds(lost), records, lost);
    hide PackIds;
    assert EveryPackStored(packs + PackIds(lost), records) ==> PackIds(lost) <= PackIds(records);
  }

  /** A torrent of the catalogue that no search can lose: no pack, a pack marked before, or one without the anchor. */
  predicate Harmless(tc: Remote, isVideo: string -> bool, packs: set<string>, mapping: Layout -> seq<FileMatch>,
                     ev: Evidence)
  {
    || !IsPack(tc, isVideo) || tc.id in packs
    || MappingReason(mapping(LayoutFromCatalog(tc, isVideo)), ev.anchorId) == Some(AnchorNotInTorrent)
  }

  /** Every torrent that the search got through, before it stopped if it did, is harmless. */
  predicate HarmlessUntilStop(tracker: Tracker, d: Direction, m: Memo, packs: set<string>, found: seq<Remote>,
                              mapping: Layout -> seq<FileMatch>, ev: Evidence)
  {
    forall i: nat :: i < |found| && Searched(tracker, d, m, packs, found[..i + 1], mapping, ev).stop.None? ==>
      Harmless(found[i], tracker.isVideo, packs, mapping, ev)
  }

  /** A search finds candidates of packs unless all it got through is harmless. */
  lemma {:induction false} HarmlessIff(tracker: Tracker, d: Direction, m: Memo, packs: set<string>,
                                       found: seq<Remote>, mapping: Layout -> seq<FileMatch>, ev: Evidence)
    requires MemoHolds(tracker, m) && MapsAll(mapping)
    ensures PackIds(Searched(tracker, d, m, packs, found, mapping, ev).pending) == {}
            <==> HarmlessUntilStop(tracker, d, m, packs, found, mapping, ev)
  {
    hide MemoHolds, Examined, IsPack, MapsAll, PackIds, Executable, PacksHold, Extends, AllExecutable, MappingReason;
    hide LayoutFromCatalog;
    if found == [] {
      NoPacks(m);
    } else {
      hide HarmlessUntilStop;
      var n := |found| - 1;
      var before, s, tc := found[..n], Searched(tracker, d, m, packs, found[..n], mapping, ev), found[n];
      HarmlessIff(tracker, d, m, packs, before, mapping, ev);
      LastIsHarmless(tracker, d, m, packs, found, mapping, ev);
      NoRecords(packs);
      SearchKeeps(tracker, d, m, packs, [], before, mapping, ev);
      if s.stop.None? && !(IsPack(tc, tracker.isVideo) && tc.id in s.packs) {
        ExaminedIsExecutable(tracker, d, s.memo, tc, mapping, ev);
        StoredIff(tracker, d, s.memo, tc, mapping, ev);
        var r := Examined(tracker, d, s.memo, tc, mapping, ev).0;
        if r.Found? && r.value.Some? {
          PackIdsOfMore(s.pending, r.value.value);
        }
      }
    }
  }

  lemma LastIsHarmless(tracker: Tracker, d: Direction, m: Memo, packs: set<string>, found: seq<Remote>,
                       mapping: Layout -> seq<FileMatch>, ev: Evidence)
    requires found != []
    ensures var n := |found| - 1;
      HarmlessUntilStop(tracker, d, m, packs, found, mapping, ev) <==>
      && HarmlessUntilStop(tracker, d, m, packs, found[..n], mapping, ev)
      && (Searched(tracker, d, m, packs, found, mapping, ev).stop.None? ==>
            Harmless(found[n], tracker.isVideo, packs, mapping, ev))
  {
    hide Harmless, Searched;
    var n := |found| - 1;
    assert found[..n + 1] == found;
    forall i: nat | i < n ensures found[..n][..i + 1] == found[..i + 1] && found[..n][i] == found[i] {
    }
  }

  /**
   A search ended early leaves every marked pack with its candidate exactly if it had one before and every torrent
   the search got through is no pack, was marked before, or lacks the anchor.
   */
  lemma LostPacksIff(tracker: Tracker, d: Direction, m: Memo, packs: set<string>, records: seq<Record>,
                     found: seq<Remote>, mapping: Layout -> seq<FileMatch>, ev: Evidence)
    requires MemoHolds(tracker, m) && MapsAll(mapping) && PacksHold(packs, records)
    ensures EveryPackStored(Searched(tracker, d, m, packs, found, mapping, ev).packs, records)
            <==> EveryPackStored(packs, records) && HarmlessUntilStop(tracker, d, m, packs, found, mapping, ev)
  {
    hide MemoHolds, Examined, MapsAll, PackIds, PacksHold, EveryPackStored, HarmlessUntilStop, AllExecutable, Extends;
    var s := Searched(tracker, d, m, packs, found, mapping, ev);
    SearchKeeps(tracker, d, m, packs, records, found, mapping, ev);
    HarmlessIff(tracker, d, m, packs, found, mapping, ev);
    RolledBackIff(packs, records, s.pending);
  }

  lemma LostIsNew(packs: set<string>, records: seq<Record>, lost: seq<Record>)
    requires PacksHold(packs, records + lost)
    ensures PackIds(lost) !! PackIds(records)
  {
    var all := records + lost;
    forall i, j | 0 <= i < |records| && 0 <= j < |lost| && records[i].pack && lost[j].pack
      ensures records[i].remoteId != lost[j].remoteId
    {
      assert all[i] == records[i] && all[|records| + j] == lost[j];
    }
  }

  /** A marked pack is not examined again: whatever the search, it is passed over. */
  lemma MarkedPackIsSkipped(tracker: Tracker, d: Direction, m: Memo, packs: set<string>, found: seq<Remote>, tc: Remote,
                            mapping: Layout -> seq<FileMatch>, ev: Evidence)
    requires IsPack(tc, tracker.isVideo) && tc.id in packs && MemoHolds(tracker, m) && MapsAll(mapping)
    ensures Searched(tracker, d, m, packs, found + [tc], mapping, ev) ==
        Searched(tracker, d, m, packs, found, mapping, ev)
  {
    hide Examined, IsPack, MemoHolds, MapsAll, PackIds;
    assert (found + [tc])[..|found|] == found;
    NoRecords(packs);
    SearchKeeps(tracker, d, m, packs, [], found, mapping, ev);
  }

  // ---------------------------------------------------------------- from the history

  /** The .torrent behind a remembered grab: its link first, then the one the detail page gives now. */
  function HistoryFetched(tracker: Tracker, m: Memo, link: Option<string>, current: Found<Option<string>>)
    : (Found<Option<TorrentInfo>>, Option<string>, Memo)
  {
    var (f, m1) := Fetched(tracker, m, link);
    if !(f.Found? && f.value.None?) then (f, link, m1)
    else
      match current
      case Stopped(stop) => (Stopped(stop), link, m1)
      case Found(now) =>
        var (g, m2) := if Given(now) then Fetched(tracker, m1, now) else (Found(None), m1);
        (g, now, m2)
  }

  function HistoryRecord(remoteId: string, isVideo: string -> bool, parsed: TorrentInfo, used: Option<string>,
                         known: Option<seq<byte>>,
                         m: Memo, d: Direction, mapping: Layout -> seq<FileMatch>, ev: Evidence): Record
  {
    var layout := LayoutFromTorrent(parsed, isVideo);
    var e := EvaluationOf(mapping(layout), Some(parsed), ev.(uniqueIds := map[], singleUniqueId := None));
    Record(remoteId, Videos(layout.files) > 1, CandidateOf(layout, e.files, used, d), e, CauseOf(e),
        HashFor(known, used, m.infoHashes))
  }

  lemma HistoryKeepsMemo(tracker: Tracker, m: Memo, link: Option<string>, current: Found<Option<string>>)
    requires MemoHolds(tracker, m)
    ensures var (f, used, after) := HistoryFetched(tracker, m, link, current);
      && MemoHolds(tracker, after) && Extends(m, after) && |after.downloads| <= |m.downloads| + 2
      && (f.Found? && f.value.Some? ==>
            Given(used) && used.value in after.torrents && after.torrents[used.value] == f.value)
      && (Given(link) && link.value !in m.torrents ==>
            |after.downloads| > |m.downloads| && after.downloads[|m.downloads|].url == link.value)
      && (Given(link) && used != link ==> link.value in after.torrents && after.torrents[link.value].None?)
  {
    hide MemoHolds, Proper, Fetched;
    FetchKeepsMemo(tracker, m, link);
    var (f, m1) := Fetched(tracker, m, link);
    if current.Found? {
      FetchKeepsMemo(tracker, m1, current.value);
    }
  }

  lemma HistoryIsExecutable(remoteId: string, isVideo: string -> bool, parsed: TorrentInfo, used: Option<string>,
                            known: Option<seq<byte>>,
                            m: Memo, d: Direction, mapping: Layout -> seq<FileMatch>, ev: Evidence)
    requires MapsAll(mapping) && Given(used) && used.value in m.torrents && m.torrents[used.value] == Some(parsed)
    ensures Executable(HistoryRecord(remoteId, isVideo, parsed, used, known, m, d, mapping, ev), m)
  {
    hide Executable, Sound, SameMapping, IsOf, EvaluationOf, Unscored;
    var layout := LayoutFromTorrent(parsed, isVideo);
    var evidence := ev.(uniqueIds := map[], singleUniqueId := None);
    var e := EvaluationOf(mapping(layout), Some(parsed), evidence);
    assert Maps(mapping(layout), layout);
    EvaluationIsSound(mapping(layout), Some(parsed), evidence);
    CandidateIsOf(parsed, isVideo, mapping(layout), e.files, used, d);
    ExecutableBy(HistoryRecord(remoteId, isVideo, parsed, used, known, m, d, mapping, ev), e, m);
  }

  // ---------------------------------------------------------------- whole runs

  /** What a run has remembered, marked and stored so far. */
  datatype State = State(memo: Memo, packs: set<string>, records: seq<Record>)

  const START := State(EMPTY, {}, [])

  /** `match_file` for one file, or `match_from_history`. */
  datatype Step =
    | SearchStep(found: seq<Remote>, mapping: Layout -> seq<FileMatch>, ev: Evidence)
    | HistoryStep(
        remoteId: string, link: Option<string>, current: Found<Option<string>>, infoHash: Option<seq<byte>>,
        mapping: Layout -> seq<FileMatch>, ev: Evidence)

  function SearchOf(tracker: Tracker, d: Direction, s: State, step: Step): Search
    requires step.SearchStep?
  {
    Searched(tracker, d, s.memo, s.packs, step.found, step.mapping, step.ev)
  }

  function After(tracker: Tracker, d: Direction, s: State, step: Step): State {
    match step
    case SearchStep(_, _, _) =>
      var r := SearchOf(tracker, d, s, step);
      State(r.memo, r.packs, if r.stop.None? then s.records + r.pending else s.records)
    case HistoryStep(remoteId, link, current, infoHash, mapping, ev) =>
      if remoteId in s.packs then s
      else
        var (f, used, after) := HistoryFetched(tracker, s.memo, link, current);
        if f.Found? && f.value.Some? then
          var rec := HistoryRecord(remoteId, tracker.isVideo, f.value.value, used, infoHash, after, d, mapping, ev);
          State(after, s.packs + if rec.pack then {remoteId} else {}, s.records + [rec])
        else s.(memo := after)
  }

  /** What every run keeps: sound memory, no pack stored twice, nothing stored that could not be executed. */
  ghost predicate Holds(tracker: Tracker, s: State) {
    MemoHolds(tracker, s.memo) && PacksHold(s.packs, s.records) && AllExecutable(s.records, s.memo)
  }

  ghost predicate IsRun(tracker: Tracker, d: Direction, states: seq<State>, steps: seq<Step>) {
    && |states| == |steps| + 1 && states[0] == START
    && forall i :: 0 <= i < |steps| ==>
         MapsAll(steps[i].mapping) && states[i + 1] == After(tracker, d, states[i], steps[i])
  }

  lemma SearchStepKeeps(tracker: Tracker, d: Direction, s: State, step: Step)
    requires Holds(tracker, s) && MapsAll(step.mapping) && step.SearchStep?
    ensures Holds(tracker, After(tracker, d, s, step)) && Extends(s.memo, After(tracker, d, s, step).memo)
  {
    hide MemoHolds, PacksHold, AllExecutable, Extends, MapsAll, Searched, PackIds;
    var r := SearchOf(tracker, d, s, step);
    SearchKeeps(tracker, d, s.memo, s.packs, s.records, step.found, step.mapping, step.ev);
    SearchIsValid(tracker, s.memo, r.memo, s.packs, r.packs, s.records, r.pending, r.stop.None?);
  }

  lemma HistoryStepKeeps(tracker: Tracker, d: Direction, s: State, step: Step)
    requires Holds(tracker, s) && MapsAll(step.mapping) && step.HistoryStep?
    ensures Holds(tracker, After(tracker, d, s, step)) && Extends(s.memo, After(tracker, d, s, step).memo)
  {
    hide MemoHolds, PacksHold, AllExecutable, Extends, MapsAll, HistoryFetched, EvaluationOf, Executable;
    if step.remoteId in s.packs {
      NoPacks(s.memo);
    } else {
      HistoryKeepsMemo(tracker, s.memo, step.link, step.current);
      var (f, used, after) := HistoryFetched(tracker, s.memo, step.link, step.current);
      MoreExecutable(s.records, s.memo, after);
      if f.Found? && f.value.Some? {
        HistoryIsExecutable(step.remoteId, tracker.isVideo, f.value.value, used, step.infoHash, after, d, step.mapping,
          step.ev);
        OneMoreRecord(tracker, s.packs, s.records,
          HistoryRecord(step.remoteId, tracker.isVideo, f.value.value, used, step.infoHash, after, d, step.mapping,
            step.ev), after);
      }
    }
  }

  /** In every state of every run. */
  lemma {:induction false} EveryRunHolds(tracker: Tracker, d: Direction, states: seq<State>, steps: seq<Step>, i: nat)
    requires IsRun(tracker, d, states, steps) && i < |states|
    ensures Holds(tracker, states[i])
  {
    hide Holds, After, MapsAll;
    if i == 0 {
      StartHolds(tracker);
    } else {
      EveryRunHolds(tracker, d, states, steps, i - 1);
      assert states[i - 1 + 1] == After(tracker, d, states[i - 1], steps[i - 1]);
      if steps[i - 1].SearchStep? {
        SearchStepKeeps(tracker, d, states[i - 1], steps[i - 1]);
      } else {
        HistoryStepKeeps(tracker, d, states[i - 1], steps[i - 1]);
      }
    }
  }

  /** Everything stored in a run was made by one of its steps, from the mapping that step was given. */
  lemma {:induction false} EveryRecordIsMapped(tracker: Tracker, d: Direction, states: seq<State>, steps: seq<Step>,
                                               i: nat, r: Record)
    requires IsRun(tracker, d, states, steps) && i < |states| && r in states[i].records
    ensures exists j :: 0 <= j < i && MappedBy(r, steps[j].mapping, steps[j].ev)
  {
    hide MapsAll, MappedBy, Searched, HistoryFetched, HistoryRecord;
    if i > 0 {
      var s, step := states[i - 1], steps[i - 1];
      assert states[i - 1 + 1] == After(tracker, d, s, step);
      if r in s.records {
        EveryRecordIsMapped(tracker, d, states, steps, i - 1, r);
      } else if step.SearchStep? {
        SearchIsMapped(tracker, d, s.memo, s.packs, step.found, step.mapping, step.ev);
      } else {
        var (f, used, after) := HistoryFetched(tracker, s.memo, step.link, step.current);
        HistoryIsMapped(step.remoteId, tracker.isVideo, f.value.value, used, step.infoHash, after, d, step.mapping,
          step.ev);
      }
    }
  }

  lemma StartHolds(tracker: Tracker)
    ensures Holds(tracker, START)
  {
    EmptyHolds(tracker);
    NoRecords({});
  }

  /**
   The promise of one download per URL and run, exactly: rate limits aside, a URL was downloaded at most once if and
   only if no reply for it that was followed by another had crashed the parser.
   */
  lemma DownloadedOnceIff(tracker: Tracker, d: Direction, states: seq<State>, steps: seq<Step>, i: nat, url: string)
    requires IsRun(tracker, d, states, steps) && i < |states|
    ensures var answered := Answered(tracker, states[i].memo, url);
      |answered| <= 1 <==> forall a, b :: a in answered && b in answered && a < b ==> !Crashes(tracker, url, a)
  {
    hide MemoHolds, Answered, Crashes, IsRun;
    EveryRunHolds(tracker, d, states, steps, i);
    MemoDownloadsOnce(tracker, states[i].memo, url);
  }

  /** The step does not lose a pack: it is not a search ended early, or all the search got through is harmless. */
  predicate LosesNoPack(tracker: Tracker, d: Direction, s: State, step: Step) {
    step.SearchStep? && SearchOf(tracker, d, s, step).stop.Some? ==>
      HarmlessUntilStop(tracker, d, s.memo, s.packs, step.found, step.mapping, step.ev)
  }

  lemma PacksAfterIff(tracker: Tracker, d: Direction, s: State, step: Step)
    requires Holds(tracker, s) && MapsAll(step.mapping)
    ensures var after := After(tracker, d, s, step);
      EveryPackStored(after.packs, after.records)
      <==> EveryPackStored(s.packs, s.records) && LosesNoPack(tracker, d, s, step)
  {
    hide MemoHolds, PacksHold, AllExecutable, Extends, MapsAll, Searched, PackIds, HarmlessUntilStop, EvaluationOf;
    hide HistoryFetched;
    if step.SearchStep? {
      var r := SearchOf(tracker, d, s, step);
      SearchKeeps(tracker, d, s.memo, s.packs, s.records, step.found, step.mapping, step.ev);
      LostPacksIff(tracker, d, s.memo, s.packs, s.records, step.found, step.mapping, step.ev);
      PackIdsOfAll(s.records, r.pending);
    } else if step.remoteId !in s.packs {
      var (f, used, after) := HistoryFetched(tracker, s.memo, step.link, step.current);
      if f.Found? && f.value.Some? {
        PackIdsOfMore(s.records,
          HistoryRecord(step.remoteId, tracker.isVideo, f.value.value, used, step.infoHash, after, d, step.mapping,
            step.ev));
      }
    }
  }

  lemma PackIdsOfAll(records: seq<Record>, more: seq<Record>)
    ensures PackIds(records + more) == PackIds(records) + PackIds(more)
  {
    var all := records + more;
    forall id | id in PackIds(records) + PackIds(more) ensures id in PackIds(all) {
      if id in PackIds(records) {
        var i :| 0 <= i < |records| && records[i].pack && records[i].remoteId == id;
        assert all[i].pack && all[i].remoteId == id;
      } else {
        var i :| 0 <= i < |more| && more[i].pack && more[i].remoteId == id;
        assert all[|records| + i].pack && all[|records| + i].remoteId == id;
      }
    }
  }

  /** In a run every marked pack has its candidate exactly if no step so far lost one: what is lost stays lost. */
  lemma {:induction false} EveryPackStoredIff(tracker: Tracker, d: Direction, states: seq<State>, steps: seq<Step>,
                                              i: nat)
    requires IsRun(tracker, d, states, steps) && i < |states|
    ensures EveryPackStored(states[i].packs, states[i].records)
            <==> forall j :: 0 <= j < i ==> LosesNoPack(tracker, d, states[j], steps[j])
  {
    hide Holds, After, MapsAll, LosesNoPack;
    if i == 0 {
      NoPacks(EMPTY);
    } else {
      EveryRunHolds(tracker, d, states, steps, i - 1);
      EveryPackStoredIff(tracker, d, states, steps, i - 1);
      assert states[i - 1 + 1] == After(tracker, d, states[i - 1], steps[i - 1]);
      PacksAfterIff(tracker, d, states[i - 1], steps[i - 1]);
    }
  }

  // ---------------------------------------------------------------- the program

  class MatchContext {
    const tracker: Tracker
    const direction: Direction
    var torrents: map<string, Option<TorrentInfo>>
    var infoHashes: map<string, seq<byte>>
    var evaluatedPacks: set<string>
    var records: seq<Record>
    var calls: nat
    ghost var downloads: seq<Download>
    ghost var served: map<string, nat>

    constructor (tracker: Tracker, direction: Direction)
      ensures this.tracker == tracker && this.direction == direction
      ensures Valid() && Now() == START
    {
      this.tracker, this.direction := tracker, direction;
      torrents, infoHashes, evaluatedPacks, records, calls, downloads, served := map[], map[], {}, [], 0, [], map[];
    }

    ghost function Memory(): Memo
      reads this
    {
      Memo(torrents, infoHashes, calls, downloads, served)
    }

    ghost function Now(): State
      reads this
    {
      State(Memory(), evaluatedPacks, records)
    }

    ghost predicate Valid()
      reads this
    {
      Holds(tracker, Now())
    }

    /** `fetch_torrent` */
    method FetchTorrent(url: Option<string>) returns (r: Found<Option<TorrentInfo>>)
      requires MemoHolds(tracker, Memory())
      modifies this`torrents, this`infoHashes, this`calls, this`downloads, this`served
      ensures (r, Memory()) == Fetched(tracker, old(Memory()), url)
      ensures MemoHolds(tracker, Memory()) && Extends(old(Memory()), Memory())
    {
      hide MemoHolds, Loads, InfoOf, InfoSpan, Proper, Contiguous, Slice;
      FetchKeepsMemo(tracker, Memory(), url);
      if !Given(url) {
        return Found(None);
      }
      var u := url.value;
      if u !in torrents {
        var reply := tracker.download(u, calls);
        match reply {
          case TooManyRequests =>
            calls, downloads := calls + 1, downloads + [Download(u, false)];
            return Stopped(LimitReached);
          case Refused =>
            torrents := torrents[u := None];
          case Content(data) =>
            var parsed := ParseTorrentInfo(data, tracker.text);
            if parsed.Err? && parsed.error != Malformed {
              calls, downloads := calls + 1, downloads + [Download(u, false)];
              return Stopped(Escaped);
            }
            if parsed.Err? {
              torrents := torrents[u := None];
            } else {
              ParsedHasSpan(data, tracker.text);
              torrents := torrents[u := Some(parsed.value)];
              var hash := ComputeInfoHash(data, tracker.sha1);
              infoHashes := infoHashes[u := hash.value];
            }
        }
        served := served[u := calls];
        calls, downloads := calls + 1, downloads + [Download(u, true)];
      }
      return Found(torrents[u]);
    }

    /** `_evaluate` */
    method EvaluateOn(layout: Layout, ms: seq<FileMatch>, ev: Evidence, link: Option<string>)
      returns (r: Found<Evaluation>, seen: Layout)
      requires MemoHolds(tracker, Memory()) && Maps(ms, layout)
      modifies this`torrents, this`infoHashes, this`calls, this`downloads, this`served
      ensures (r, seen, Memory()) == EvaluatedOn(tracker, old(Memory()), layout, ms, ev, link)
      ensures MemoHolds(tracker, Memory())
    {
      hide LooksAtTorrent, MappingReason, Weakest, SameMapping, MemoHolds, Scored, Verified, Sound, Fetched;
      hide EvaluationOf, Evidenced;
      hide VideosHaveLocal, SomePieceWrong, ScoreReason, Extends;
      seen := layout;
      var fetched := None;
      if layout.torrent.None? && LooksAtTorrent(ms, ev) {
        var f := FetchTorrent(link);
        if f.Stopped? {
          r := Stopped(f.stop);
          return;
        }
        fetched := f.value;
      }
      var e, torrent, fetches := Evaluate(ms, layout, ev, fetched);
      return Found(e), layout.(torrent := torrent);
    }

    /** The loop body of `match_file`. */
    method Examine(tc: Remote, mapping: Layout -> seq<FileMatch>, ev: Evidence) returns (r: Found<Option<Record>>)
      requires MemoHolds(tracker, Memory()) && MapsAll(mapping)
      modifies this`torrents, this`infoHashes, this`calls, this`downloads, this`served
      ensures (r, Memory()) == Examined(tracker, direction, old(Memory()), tc, mapping, ev)
      ensures MemoHolds(tracker, Memory())
    {
      hide MemoHolds, EvaluatedOn, EvaluationOf, Unscored, Fetched, Extends;
      var catalog := LayoutFromCatalog(tc, tracker.isVideo);
      var first, layout := EvaluateOn(catalog, mapping(catalog), EvidenceFor(tc, ev), tc.downloadLink);
      if first.Stopped? {
        return Stopped(first.stop);
      }
      var e := first.value;
      if e.reason == Some(AnchorNotInTorrent) {
        return Found(None);
      }
      var cause := CauseOf(e);
      if e.confidence > CONFIDENCE_NO_MATCH && |layout.files| > 1 {
        var parsed := layout.torrent;
        if parsed.None? {
          var f := FetchTorrent(tc.downloadLink);
          if f.Stopped? {
            return Stopped(f.stop);
          }
          parsed := f.value;
        }
        if parsed.Some? {
          layout := LayoutFromTorrent(parsed.value, tracker.isVideo);
          assert Maps(mapping(layout), layout);
          WithTheTorrent(tracker, Memory(), layout, mapping(layout), EvidenceFor(tc, ev), tc.downloadLink);
          var again, same := EvaluateOn(layout, mapping(layout), EvidenceFor(tc, ev), tc.downloadLink);
          e, cause := again.value, CauseOf(again.value);
        } else {
          e, cause := e.(confidence := CONFIDENCE_NO_MATCH), Some(TorrentStructureUnknown);
        }
      }
      return Found(Some(Record(tc.id, IsPack(tc, tracker.isVideo),
          CandidateOf(layout, e.files, tc.downloadLink, direction), e, cause,
                               HashFor(tc.infoHash, tc.downloadLink, infoHashes))));
    }

    /**
     `match_file`. When a download ends it early the candidates found so far are rolled back (`lost`), but their
     packs stay marked as examined.
     */
    method MatchFile(found: seq<Remote>, mapping: Layout -> seq<FileMatch>, ev: Evidence)
      returns (r: Found<seq<Record>>, lost: seq<Record>)
      requires Valid() && MapsAll(mapping)
      modifies this
      ensures Valid() && Now() == After(tracker, direction, old(Now()), SearchStep(found, mapping, ev))
      ensures var s := Searched(tracker, direction, old(Memory()), old(evaluatedPacks), found, mapping, ev);
        && Memory() == s.memo && evaluatedPacks == s.packs
        && if s.stop.None? then r == Found(s.pending) && lost == [] && records == old(records) + s.pending
           else r == Stopped(s.stop.value) && lost == s.pending && records == old(records)
      ensures evaluatedPacks == old(evaluatedPacks) + PackIds(if r.Found? then r.value else lost)
      ensures r.Stopped? ==>
                (EveryPackStored(evaluatedPacks, records) <==>
                 EveryPackStored(old(evaluatedPacks), old(records)) && PackIds(lost) == {})
      ensures r.Stopped? ==>
                (EveryPackStored(evaluatedPacks, records) <==>
                 && EveryPackStored(old(evaluatedPacks), old(records))
                 && HarmlessUntilStop(tracker, direction, old(Memory()), old(evaluatedPacks), found, mapping, ev))
    {
      hide MemoHolds, Executable, Examined, IsPack, MapsAll, PackIds, PacksHold, EveryPackStored, AllExecutable;
      hide Extends, HarmlessUntilStop;
      ghost var m, packs := Memory(), evaluatedPacks;
      var pending := [];
      for k := 0 to |found|
        invariant records == old(records) && MemoHolds(tracker, Memory())
        invariant Searched(tracker, direction, m, packs, found[..k], mapping, ev) ==
            Search(None, pending, evaluatedPacks, Memory())
      {
        var tc := found[k];
        assert found[..k + 1][..k] == found[..k];
        if !(IsPack(tc, tracker.isVideo) && tc.id in evaluatedPacks) {
          var one := Examine(tc, mapping, ev);
          if one.Stopped? {
            StopsForGood(tracker, direction, m, packs, found, k + 1, mapping, ev);
            SearchKeeps(tracker, direction, m, packs, records, found, mapping, ev);
            SearchIsValid(tracker, m, Memory(), packs, evaluatedPacks, records, pending, false);
            RolledBackIff(packs, records, pending);
            LostPacksIff(tracker, direction, m, packs, records, found, mapping, ev);
            return Stopped(one.stop), pending;
          }
          if one.value.Some? {
            var rec := one.value.value;
            pending := pending + [rec];
            evaluatedPacks := evaluatedPacks + if rec.pack then {rec.remoteId} else {};
          }
        }
      }
      assert found[..|found|] == found;
      SearchKeeps(tracker, direction, m, packs, records, found, mapping, ev);
      SearchIsValid(tracker, m, Memory(), packs, evaluatedPacks, records, pending, true);
      records := records + pending;
      return Found(pending), [];
    }

    /** `match_from_history` */
    method MatchFromHistory(remoteId: string, link: Option<string>, current: Found<Option<string>>,
                            infoHash: Option<seq<byte>>,
                            mapping: Layout -> seq<FileMatch>, ev: Evidence)
      returns (r: Found<Option<seq<Record>>>)
      requires Valid() && MapsAll(mapping)
      modifies this
      ensures Valid()
      ensures Now() ==
              After(tracker, direction, old(Now()), HistoryStep(remoteId, link, current, infoHash, mapping, ev))
      ensures remoteId in old(evaluatedPacks) ==> r == Found(Some([]))
      ensures remoteId !in old(evaluatedPacks) ==>
                var (f, used, after) := HistoryFetched(tracker, old(Memory()), link, current);
                r == if f.Stopped? then Stopped(f.stop) else if f.value.None? then Found(None)
                     else
                       Found(Some([HistoryRecord(remoteId, tracker.isVideo, f.value.value, used, infoHash, after,
                           direction, mapping, ev)]))
    {
      hide MemoHolds, Executable, Fetched, PackIds, PacksHold, EvaluationOf, EvaluatedOn, Unscored, Extends;
      hide AllExecutable, Videos;
      HistoryStepKeeps(tracker, direction, Now(), HistoryStep(remoteId, link, current, infoHash, mapping, ev));
      if remoteId in evaluatedPacks {
        return Found(Some([]));
      }
      var used := link;
      var f := FetchTorrent(used);
      if f.Found? && f.value.None? {
        if current.Stopped? {
          f := Stopped(current.stop);
        } else {
          used := current.value;
          if Given(used) {
            f := FetchTorrent(used);
          }
        }
      }
      if f.Stopped? {
        return Stopped(f.stop);
      }
      if f.value.None? {
        return Found(None);
      }
      var parsed := f.value.value;
      var layout := LayoutFromTorrent(parsed, tracker.isVideo);
      assert Maps(mapping(layout), layout);
      WithTheTorrent(tracker, Memory(), layout, mapping(layout), ev.(uniqueIds := map[], singleUniqueId := None), used);
      var one, same := EvaluateOn(layout, mapping(layout), ev.(uniqueIds := map[], singleUniqueId := None), used);
      var e := one.value;
      var rec := Record(remoteId, Videos(layout.files) > 1, CandidateOf(layout, e.files, used, direction), e,
          CauseOf(e), HashFor(infoHash, used, infoHashes));
      evaluatedPacks := evaluatedPacks + if rec.pack then {remoteId} else {};
      records := records + [rec];
      return Found(Some([rec]));
    }
  }

  /** A layout that carries its .torrent is evaluated without a download. */
  lemma WithTheTorrent(tracker: Tracker, m: Memo, layout: Layout, ms: seq<FileMatch>, ev: Evidence,
                       link: Option<string>)
    requires layout.torrent.Some?
    ensures EvaluatedOn(tracker, m, layout, ms, ev, link) == (Found(EvaluationOf(ms, layout.torrent, ev)), layout, m)
  {
  }

  lemma OneMoreRecord(tracker: Tracker, packs: set<string>, records: seq<Record>, r: Record, m: Memo)
    requires PacksHold(packs, records) && AllExecutable(records, m) && Executable(r, m)
    requires (r.pack ==> r.remoteId !in packs)
    ensures PacksHold(packs + if r.pack then {r.remoteId} else {}, records + [r]) && AllExecutable(records + [r], m)
  {
    hide PacksHold, Executable;
    OneMorePack(packs, records, r);
  }

  lemma SearchIsValid(tracker: Tracker, m: Memo, later: Memo, packs: set<string>, after: set<string>,
                      records: seq<Record>, pending: seq<Record>,
                      committed: bool)
    requires AllExecutable(records, m) && Extends(m, later) && AllExecutable(pending, later)
    requires PacksHold(after, records + pending)
    ensures PacksHold(after, if committed then records + pending else records)
    ensures AllExecutable(if committed then records + pending else records, later)
  {
    hide Executable, Extends;
    MoreExecutable(records, m, later);
    var all := records + pending;
    forall i | 0 <= i < |records| ensures all[i] == records[i] {
    }
    assert forall i :: 0 <= i < |records| && records[i].pack ==> all[i].pack && records[i].remoteId in PackIds(all);
  }

  // ---------------------------------------------------------------- what execution relies on

  /**
   A candidate with a positive confidence is never refused for a video without a file, and for its folder exactly
   when it is a torrent of several files with the empty name. Its piece length is that of the .torrent the tracker
   served for its link.
   */
  lemma ExecutionFindsTheStructure(tracker: Tracker, m: Memo, r: Record)
    requires MemoHolds(tracker, m) && Executable(r, m) && r.evaluation.confidence > CONFIDENCE_NO_MATCH
    ensures Executor.StructureError(r.candidate) ==
            if |r.candidate.files| > 1 && r.candidate.folder == Some("") then Some(Executor.UnknownFolder) else None
    ensures |r.candidate.files| > 1 ==>
              && OfItsLink(r.candidate, m)
              && var url := r.candidate.downloadLink.value;
              var t := m.torrents[url].value;
              && url in m.served && ReadFrom(tracker, url, m.served[url], t)
              && r.candidate.folder == Some(t.name) && PieceLengthOr(r.candidate.pieceLength) == t.pieceLength
  {
    hide MemoHolds, ReadFrom;
    if |r.candidate.files| > 1 {
      MemoIsProper(tracker, m, r.candidate.downloadLink.value);
    }
  }

  /** The allowance computed from the stored rows is the one computed from the matches. */
  lemma {:induction false} AllowanceAgrees(layout: Layout, ms: seq<FileMatch>, link: Option<string>, d: Direction)
    ensures var c := CandidateOf(layout, ms, link, d);
      MissingBytesFor(c) == ExpectedMissingBytes(MissingBytes(ms), MissingExtras(ms), c.pieceLength)
  {
    MissingAgrees(ms);
  }

  lemma {:induction false} MissingAgrees(ms: seq<FileMatch>)
    ensures MissingSize(RowsOf(ms)) == MissingBytes(ms) && MissingCount(RowsOf(ms)) == MissingExtras(ms)
  {
    if ms != [] {
      MissingAgrees(ms[..|ms| - 1]);
      assert RowsOf(ms)[..|ms| - 1] == RowsOf(ms[..|ms| - 1]);
    }
  }

  /**
   From matching to seeding. A stored candidate of several files, with positive confidence, is checked in full
   against what its link serves, with files missing only where its rows say so. If the verdict passes and the
   client reports what is left, the job ends in `seeding`.
   */
  lemma StoredCandidateSeeds(tracker: Tracker, m: Memo, r: Record, job: Sweep.Job, isVideo: FullCheck.IsVideo,
                             status: SeedJobs.TorrentStatus, before: SeedJobs.FinalStatus)
    requires MemoHolds(tracker, m) && Executable(r, m) && r.evaluation.confidence > CONFIDENCE_NO_MATCH
    requires |r.candidate.files| > 1
    requires Given(r.candidate.downloadLink) && r.candidate.downloadLink.value in m.served
    requires ReadFrom(tracker, r.candidate.downloadLink.value, m.served[r.candidate.downloadLink.value], job.info)
    requires job.Valid() && |r.candidate.files| == job.Files()
    requires forall k :: 0 <= k < job.Files() && job.local[k].None? ==> MissingExtra(r.candidate.files[k])
    requires FullCheck.Passes(FullCheck.Summary(job), isVideo)
    requires Tolerance.Reports(status, Tolerance.AmountLeft(job, |job.info.pieces|))
    ensures SeedJobs.FinalAfter(before, SeedJobs.Tolerated(status, MissingBytesFor(r.candidate))) == SeedJobs.Seeding
  {
    hide FullCheck.Passes, FullCheck.Summary, Tolerance.AmountLeft, Tolerance.Reports, MissingExtra, MissingBytesFor;
    hide MemoHolds, ParseOf;
    var url := r.candidate.downloadLink.value;
    MemoIsProper(tracker, m, url);
    assert m.torrents[url].value == job.info;
    Tolerance.PassedVerdictSeeds(job, r.candidate, isVideo, status, before);
  }
}
