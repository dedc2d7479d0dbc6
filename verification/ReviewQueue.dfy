/**
 The review queue of app/review.py: which torrent waits for a decision for which file. `Queue` is the
 table with the program's methods; `Db` and `Apply` are the same operations as a state machine, over
 which the invariants of every run are proved.
 */
module ReviewQueue {
  import opened Basics
  import opened Candidates

  /** The orphan a review is for: a library file or a file of the torrent folder. */
  datatype File = MediaRef(id: nat) | SeedRef(id: nat)

  datatype Status = Waiting | Recommended | Approved | Rejected

  type Torrent = (nat, string)

  datatype CandidateRow = CandidateRow(tracker: nat, remote: string, confidence: real, direction: Direction) {
    function Torrent(): Torrent {
      (tracker, remote)
    }
  }

  datatype Review = Review(candidate: nat, file: File, status: Status, decidedBy: Option<string>) {
    /** READY_FOR_DECISION_STATUSES */
    predicate Ready() {
      status == Waiting || status == Recommended
    }

    predicate Holding() {
      Ready() || status == Approved
    }

    predicate RejectedByUser() {
      status == Rejected && decidedBy.Some? && decidedBy.value != SYSTEM
    }

    function Decide(s: Status, who: string): Review {
      this.(status := s, decidedBy := Some(who))
    }
  }

  const SYSTEM := "system"

  datatype JobStatus = InProgress | Seeding | Failed

  datatype JobRow = JobRow(candidate: nat, file: File, status: JobStatus, infoHash: string)

  datatype Db = Db(candidates: seq<CandidateRow>, reviews: seq<Review>, jobs: seq<JobRow>) {
    predicate Valid() {
      && (forall r :: r in reviews ==> r.candidate < |candidates|)
      && (forall j :: j in jobs ==> j.candidate < |candidates|)
    }

    /** The torrent of review `k`. */
    function TorrentAt(k: nat): Torrent
      requires Valid() && k < |reviews|
    {
      assert reviews[k] in reviews;
      TorrentOf(reviews[k].candidate)
    }

    function TorrentOf(candidate: nat): Torrent
      requires candidate < |candidates|
    {
      candidates[candidate].Torrent()
    }
  }

  // ---------------------------------------------------------------- queries

  /** `_user_rejected_torrents` */
  function UserRejected(db: Db, file: File): (s: set<Torrent>)
    requires db.Valid()
    ensures forall t :: t in s <==>
              exists k: nat ::
                k < |db.reviews| && db.reviews[k].RejectedByUser() && db.reviews[k].file == file && db.TorrentAt(k) == t
  {
    set k: nat | k < |db.reviews| && db.reviews[k].RejectedByUser() && db.reviews[k].file == file :: db.TorrentAt(k)
  }

  /** A job that still occupies its torrent: running, or seeding and still in a client. */
  predicate Occupies(j: JobRow, inClient: set<string>) {
    j.status == InProgress || (j.status == Seeding && j.infoHash in inClient)
  }

  /** `_torrents_already_in_progress`: held by a review or a job of another file. */
  function Busy(db: Db, file: File, inClient: set<string>): set<Torrent>
    requires db.Valid()
  {
    BusyReviews(db, file)
    + (set j | j in db.jobs && Occupies(j, inClient) && j.file != file :: db.TorrentOf(j.candidate))
  }

  function BusyReviews(db: Db, file: File): (s: set<Torrent>)
    requires db.Valid()
    ensures forall t :: t in s <==>
              exists k: nat ::
                k < |db.reviews| && db.reviews[k].Holding() && db.reviews[k].file != file && db.TorrentAt(k) == t
  {
    set k: nat | k < |db.reviews| && db.reviews[k].Holding() && db.reviews[k].file != file :: db.TorrentAt(k)
  }

  /** The torrent of the candidate was not rejected by the user for the file and is not held elsewhere. */
  predicate Free(db: Db, id: nat, file: File, inClient: set<string>)
    requires db.Valid() && id < |db.candidates|
  {
    db.TorrentOf(id) !in UserRejected(db, file) && db.TorrentOf(id) !in Busy(db, file, inClient)
  }

  /** The candidates of a matching run that may still be queued for the file, in order. */
  function Eligible(db: Db, ids: seq<nat>, file: File, inClient: set<string>): (r: seq<nat>)
    requires db.Valid() && forall id :: id in ids ==> id < |db.candidates|
    ensures forall id :: id in r <==> id in ids && Free(db, id, file, inClient)
  {
    if ids == [] then []
    else
      assert ids[0] in ids && forall id :: id in ids <==> id == ids[0] || id in ids[1..];
      (if Free(db, ids[0], file, inClient) then [ids[0]] else [])
      + Eligible(db, ids[1..], file, inClient)
  }

  /** `max(..., key=confidence)`: the first of the best. */
  function Best(db: Db, ids: seq<nat>): (r: nat)
    requires ids != [] && forall id :: id in ids ==> id < |db.candidates|
    ensures r in ids && forall id :: id in ids ==> db.candidates[id].confidence <= db.candidates[r].confidence
  {
    if |ids| == 1 then ids[0]
    else
      assert ids[0] in ids && forall id :: id in ids <==> id == ids[0] || id in ids[1..];
      var b := Best(db, ids[1..]);
      if db.candidates[ids[0]].confidence >= db.candidates[b].confidence then ids[0] else b
  }

  // ---------------------------------------------------------------- updates

  /** `_supersede_active_reviews`: every ready review of the file is rejected by the system. */
  function Superseded(reviews: seq<Review>, file: File): (r: seq<Review>)
    ensures |r| == |reviews|
    ensures forall k :: 0 <= k < |r| ==>
              r[k] == if reviews[k].Ready() && reviews[k].file == file then reviews[k].Decide(Rejected, SYSTEM)
                  else reviews[k]
  {
    seq(|reviews|, k requires 0 <= k < |reviews| =>
      if reviews[k].Ready() && reviews[k].file == file then reviews[k].Decide(Rejected, SYSTEM) else reviews[k])
  }

  /** `close_resolved_reviews`, for the reviews whose file needs nothing any more. */
  function Closed(reviews: seq<Review>, resolved: set<nat>): (r: seq<Review>)
    ensures |r| == |reviews|
    ensures forall k :: 0 <= k < |r| ==>
              r[k] == if reviews[k].Ready() && k in resolved then reviews[k].Decide(Rejected, SYSTEM) else reviews[k]
  {
    seq(|reviews|, k requires 0 <= k < |reviews| =>
      if reviews[k].Ready() && k in resolved then reviews[k].Decide(Rejected, SYSTEM) else reviews[k])
  }

  type Thresholds = Direction -> real

  function NewReview(db: Db, id: nat, file: File, thresholds: Thresholds): Review
    requires id < |db.candidates|
  {
    var c := db.candidates[id];
    if c.confidence >= thresholds(c.direction) then Review(id, file, Recommended, Some(SYSTEM))
    else Review(id, file, Waiting, None)
  }

  /** `_create_review` */
  function Created(db: Db, ids: seq<nat>, file: File, inClient: set<string>, thresholds: Thresholds): Db
    requires db.Valid() && forall id :: id in ids ==> id < |db.candidates|
  {
    var left := Eligible(db, ids, file, inClient);
    if left == [] then db
    else
      var best := Best(db, left);
      var superseded := db.(reviews := Superseded(db.reviews, file));
      if db.candidates[best].confidence <= 0.0 then superseded
      else superseded.(reviews := superseded.reviews + [NewReview(db, best, file, thresholds)])
  }

  // ---------------------------------------------------------------- the program

  class Queue {
    var db: Db

    constructor (candidates: seq<CandidateRow>)
      ensures db == Db(candidates, [], [])
    {
      db := Db(candidates, [], []);
    }

    /** `_supersede_active_reviews`, with the number of reviews it closed. */
    method SupersedeActive(file: File) returns (closed: nat)
      modifies this
      ensures db == old(db).(reviews := Superseded(old(db).reviews, file))
      ensures closed > 0 <==>
              exists k :: 0 <= k < |old(db).reviews| && old(db).reviews[k].Ready() && old(db).reviews[k].file == file
    {
      var rows := db.reviews;
      closed := 0;
      for k := 0 to |rows|
        invariant |rows| == |db.reviews|
        invariant forall j :: 0 <= j < |rows| ==>
                    rows[j] == if j < k && db.reviews[j].Ready() && db.reviews[j].file == file
                               then db.reviews[j].Decide(Rejected, SYSTEM) else db.reviews[j]
        invariant closed > 0 <==> exists j :: 0 <= j < k && db.reviews[j].Ready() && db.reviews[j].file == file
      {
        if rows[k].Ready() && rows[k].file == file {
          rows := rows[k := rows[k].Decide(Rejected, SYSTEM)];
          closed := closed + 1;
        }
      }
      assert rows == Superseded(db.reviews, file);
      db := db.(reviews := rows);
    }

    /** `_create_review`: the review created, if any. */
    method CreateReview(ids: seq<nat>, file: File, inClient: set<string>, thresholds: Thresholds)
      returns (review: Option<nat>)
      requires db.Valid() && forall id :: id in ids ==> id < |db.candidates|
      modifies this
      ensures db == Created(old(db), ids, file, inClient, thresholds)
      ensures review.Some? ==> review.value == |old(db).reviews| < |db.reviews|
      ensures review.None? ==> |db.reviews| == |old(db).reviews|
    {
      var left := Eligible(db, ids, file, inClient);
      if left == [] {
        return None;
      }
      var best := Best(db, left);
      var created := NewReview(db, best, file, thresholds);
      var _ := SupersedeActive(file);
      if db.candidates[best].confidence <= 0.0 {
        return None;
      }
      db := db.(reviews := db.reviews + [created]);
      return Some(|db.reviews| - 1);
    }

    /** `reject`, and `approve` up to the execution it tries. There is no guard on the status. */
    method Decide(review: nat, status: Status, who: string)
      requires review < |db.reviews|
      modifies this
      ensures db == old(db).(reviews := old(db).reviews[review := old(db).reviews[review].Decide(status, who)])
    {
      db := db.(reviews := db.reviews[review := db.reviews[review].Decide(status, who)]);
    }

    /** `close_resolved_reviews` over the ready reviews whose candidate has no job. */
    method CloseResolved(needsNothing: File -> bool) returns (closed: nat)
      modifies this
      ensures db == old(db).(reviews := Closed(old(db).reviews, Resolved(old(db), needsNothing)))
    {
      var rows := db.reviews;
      closed := 0;
      for k := 0 to |rows|
        invariant |rows| == |db.reviews|
        invariant forall j :: 0 <= j < |rows| ==>
                    rows[j] == if j < k && db.reviews[j].Ready() && j in Resolved(db, needsNothing)
                               then db.reviews[j].Decide(Rejected, SYSTEM) else db.reviews[j]
      {
        if rows[k].Ready() && !HasJob(db, rows[k].candidate) && needsNothing(rows[k].file) {
          rows := rows[k := rows[k].Decide(Rejected, SYSTEM)];
          closed := closed + 1;
        }
      }
      assert rows == Closed(db.reviews, Resolved(db, needsNothing));
      db := db.(reviews := rows);
    }
  }

  predicate HasJob(db: Db, candidate: nat) {
    exists j :: 0 <= j < |db.jobs| && db.jobs[j].candidate == candidate
  }

  function Resolved(db: Db, needsNothing: File -> bool): set<nat> {
    set k: nat | k < |db.reviews| && !HasJob(db, db.reviews[k].candidate) && needsNothing(db.reviews[k].file)
  }

  // ---------------------------------------------------------------- runs

  /**
   Everything that changes the tables, in any order: matching stores candidates and queues reviews, the
   user or the worker decides a review, the pipeline closes resolved ones, the executor writes jobs.
   */
  datatype Step =
    | StoreCandidates(rows: seq<CandidateRow>)
    | Match(ids: seq<nat>, file: File, inClient: set<string>, thresholds: Thresholds)
    | Decision(review: nat, status: Status, who: string)
    | Close(resolved: set<nat>)
    | WriteJobs(jobs: seq<JobRow>)

  /** A step the system can take: references exist, and only ready reviews are approved or rejected. */
  predicate Enabled(db: Db, step: Step) {
    match step
    case StoreCandidates(_) => true
    case Match(ids, _, _, _) => forall id :: id in ids ==> id < |db.candidates|
    case Decision(review, status, _) =>
      review < |db.reviews| && db.reviews[review].Ready() && (status == Approved || status == Rejected)
    case Close(_) => true
    case WriteJobs(jobs) => forall j :: j in jobs ==> j.candidate < |db.candidates|
  }

  function Apply(db: Db, step: Step): Db
    requires db.Valid() && Enabled(db, step)
  {
    match step
    case StoreCandidates(rows) => db.(candidates := db.candidates + rows)
    case Match(ids, file, inClient, thresholds) => Created(db, ids, file, inClient, thresholds)
    case Decision(review, status, who) => db.(reviews := db.reviews[review := db.reviews[review].Decide(status, who)])
    case Close(resolved) => db.(reviews := Closed(db.reviews, resolved))
    case WriteJobs(jobs) => db.(jobs := jobs)
  }

  /** Two reviews of the same torrent. */
  predicate SameTorrent(db: Db, a: nat, b: nat)
    requires db.Valid() && a < |db.reviews| && b < |db.reviews|
  {
    db.TorrentAt(a) == db.TorrentAt(b)
  }

  /** At most one ready review per file. */
  ghost predicate OneReadyPerFile(db: Db) {
    forall a: nat, b: nat :: a < b < |db.reviews| && db.reviews[a].Ready() && db.reviews[b].Ready() ==>
      db.reviews[a].file != db.reviews[b].file
  }

  /** Reviews holding the same torrent are for the same file. */
  ghost predicate OneFilePerTorrent(db: Db)
    requires db.Valid()
  {
    forall a: nat, b: nat :: a < b < |db.reviews| && db.reviews[a].Holding() && db.reviews[b].Holding() ==>
      SameTorrent(db, a, b) ==> db.reviews[a].file == db.reviews[b].file
  }

  /** No ready review repeats what the user rejected for the file. */
  ghost predicate NoRejectedReady(db: Db)
    requires db.Valid()
  {
    forall a: nat, b: nat ::
      a < |db.reviews| && b < |db.reviews| && db.reviews[a].RejectedByUser() && db.reviews[b].Ready() ==>
      db.reviews[a].file == db.reviews[b].file ==> !SameTorrent(db, a, b)
  }

  ghost predicate Inv(db: Db) {
    db.Valid() && OneReadyPerFile(db) && OneFilePerTorrent(db) && NoRejectedReady(db)
  }

  /** A review after a step that only decides ready reviews: as it was, or it was ready and is decided. */
  predicate Decided(before: Review, after: Review) {
    after == before
    || (before.Ready() && after.candidate == before.candidate && after.file == before.file
        && (after.status == Approved || after.status == Rejected))
  }

  /** Every step that creates no review only decides ready ones. */
  ghost predicate OnlyDecides(before: Db, after: Db) {
    && after.candidates == before.candidates
    && |after.reviews| == |before.reviews|
    && forall k :: 0 <= k < |after.reviews| ==> Decided(before.reviews[k], after.reviews[k])
  }

  lemma DecidedAt(before: Db, after: Db, k: nat)
    requires before.Valid() && after.Valid() && OnlyDecides(before, after) && k < |after.reviews|
    ensures after.TorrentAt(k) == before.TorrentAt(k) && after.reviews[k].file == before.reviews[k].file
    ensures after.reviews[k].Ready() ==> before.reviews[k].Ready()
    ensures after.reviews[k].Holding() ==> before.reviews[k].Holding()
    ensures after.reviews[k].RejectedByUser() ==>
              before.reviews[k].RejectedByUser() || (before.reviews[k].Ready() && !after.reviews[k].Ready())
    ensures before.reviews[k].RejectedByUser() ==> after.reviews[k].RejectedByUser()
  {
    assert Decided(before.reviews[k], after.reviews[k]);
  }

  lemma DecidingKeepsInv(before: Db, after: Db)
    requires Inv(before) && after.Valid() && OnlyDecides(before, after)
    ensures Inv(after)
  {
    hide OnlyDecides, Decided, Db.Valid, Db.TorrentAt, Review.Ready, Review.Holding, Review.RejectedByUser;
    SameLength(before, after);
    forall k: nat | k < |after.reviews|
      ensures after.TorrentAt(k) == before.TorrentAt(k) && after.reviews[k].file == before.reviews[k].file
      ensures after.reviews[k].Ready() ==> before.reviews[k].Ready()
      ensures after.reviews[k].Holding() ==> before.reviews[k].Holding()
      ensures after.reviews[k].RejectedByUser() ==>
                before.reviews[k].RejectedByUser() || (before.reviews[k].Ready() && !after.reviews[k].Ready())
    {
      DecidedAt(before, after, k);
    }
    forall a: nat, b: nat | a < |after.reviews| && b < |after.reviews| && after.reviews[a].RejectedByUser()
        && after.reviews[b].Ready()
      ensures after.reviews[a].file == after.reviews[b].file ==> !SameTorrent(after, a, b)
    {
    }
  }

  lemma SameLength(before: Db, after: Db)
    requires OnlyDecides(before, after)
    ensures |after.reviews| == |before.reviews| && after.candidates == before.candidates
  {
  }

  // ---------------------------------------------------------------- matching

  lemma SupersedingDecides(db: Db, file: File)
    requires db.Valid()
    ensures var after := db.(reviews := Superseded(db.reviews, file));
            && after.Valid() && OnlyDecides(db, after)
            && (forall k :: 0 <= k < |after.reviews| && after.reviews[k].Ready() ==> after.reviews[k].file != file)
            && (forall k :: 0 <= k < |after.reviews| && after.reviews[k].RejectedByUser() ==>
                  after.reviews[k] == db.reviews[k])
  {
    var after := db.(reviews := Superseded(db.reviews, file));
    forall r | r in after.reviews ensures r.candidate < |db.candidates| {
      var k :| 0 <= k < |after.reviews| && after.reviews[k] == r;
      assert db.reviews[k] in db.reviews;
    }
  }

  /** A new review for an eligible candidate, once the file has no ready review left. */
  lemma AddingKeepsInv(before: Db, db: Db, review: Review, ids: seq<nat>, inClient: set<string>)
    requires Inv(db) && before.Valid() && OnlyDecides(before, db) && review.candidate < |db.candidates|
    requires review.Ready()
    requires forall k :: 0 <= k < |db.reviews| && db.reviews[k].Ready() ==> db.reviews[k].file != review.file
    requires forall k :: 0 <= k < |db.reviews| && db.reviews[k].RejectedByUser() ==> db.reviews[k] == before.reviews[k]
    requires before.TorrentOf(review.candidate) !in UserRejected(before, review.file)
    requires before.TorrentOf(review.candidate) !in BusyReviews(before, review.file)
    ensures Inv(db.(reviews := db.reviews + [review]))
  {
    hide OnlyDecides, Decided, Db.TorrentAt, Review.Ready, Review.Holding, Review.RejectedByUser;
    var after := db.(reviews := db.reviews + [review]);
    var n := |db.reviews|;
    SameLength(before, db);
    TorrentsKept(db, review);
    forall k: nat | k < n
      ensures after.reviews[k].Holding() && after.TorrentAt(k) == after.TorrentAt(n) ==>
                after.reviews[k].file == review.file
      ensures after.reviews[k].RejectedByUser() && after.reviews[k].file == review.file ==>
                after.TorrentAt(k) != after.TorrentAt(n)
    {
      assert after.reviews[k] == db.reviews[k];
      DecidedAt(before, db, k);
      InQueries(before, k, review.file);
    }
    ReadyIsHolding(review);
  }

  lemma InQueries(db: Db, k: nat, file: File)
    requires db.Valid() && k < |db.reviews|
    ensures db.reviews[k].Holding() && db.reviews[k].file != file ==> db.TorrentAt(k) in BusyReviews(db, file)
    ensures db.reviews[k].RejectedByUser() && db.reviews[k].file == file ==> db.TorrentAt(k) in UserRejected(db, file)
  {
  }

  lemma ReadyIsHolding(review: Review)
    requires review.Ready()
    ensures review.Holding() && !review.RejectedByUser()
  {
  }

  lemma TorrentsKept(db: Db, review: Review)
    requires db.Valid() && review.candidate < |db.candidates|
    ensures var after := db.(reviews := db.reviews + [review]);
            && after.Valid()
            && (forall k: nat :: k < |db.reviews| ==> after.TorrentAt(k) == db.TorrentAt(k))
            && after.TorrentAt(|db.reviews|) == db.TorrentOf(review.candidate)
  {
    var after := db.(reviews := db.reviews + [review]);
    forall r | r in after.reviews ensures r.candidate < |db.candidates| {
      assert r in db.reviews || r == review;
    }
  }

  lemma MatchingKeepsInv(db: Db, ids: seq<nat>, file: File, inClient: set<string>, thresholds: Thresholds)
    requires Inv(db) && forall id :: id in ids ==> id < |db.candidates|
    ensures Inv(Created(db, ids, file, inClient, thresholds))
  {
    hide OneReadyPerFile, OneFilePerTorrent, NoRejectedReady, OnlyDecides, Eligible, Best, Superseded;
    var left := Eligible(db, ids, file, inClient);
    if left != [] {
      var best := Best(db, left);
      var superseded := db.(reviews := Superseded(db.reviews, file));
      SupersedingDecides(db, file);
      DecidingKeepsInv(db, superseded);
      if db.candidates[best].confidence > 0.0 {
        AddingKeepsInv(db, superseded, NewReview(db, best, file, thresholds), ids, inClient);
      }
    }
  }

  /**
   When a matching run queues something: exactly when some candidate is plausible, was not rejected by
   the user for this file and is not held for another. What the system rejected does not count.
   */
  lemma QueuedIff(db: Db, ids: seq<nat>, file: File, inClient: set<string>, thresholds: Thresholds)
    requires db.Valid() && forall id :: id in ids ==> id < |db.candidates|
    ensures |Created(db, ids, file, inClient, thresholds).reviews| == |db.reviews| + 1
       <==> exists id :: id in ids && db.candidates[id].confidence > 0.0 && Free(db, id, file, inClient)
  {
    hide Free;
    var left := Eligible(db, ids, file, inClient);
    if left != [] {
      var best := Best(db, left);
      assert best in ids;
    }
  }

  /** The new review is for the best eligible candidate, and recommended exactly from the threshold on. */
  lemma QueuedIsBest(db: Db, ids: seq<nat>, file: File, inClient: set<string>, thresholds: Thresholds)
    requires db.Valid() && forall id :: id in ids ==> id < |db.candidates|
    ensures var after := Created(db, ids, file, inClient, thresholds);
            |after.reviews| == |db.reviews| + 1 ==>
              var added := after.reviews[|db.reviews|];
              && added.file == file && added.Ready() && added.candidate in Eligible(db, ids, file, inClient)
              && (forall id :: id in Eligible(db, ids, file, inClient) ==>
                    db.candidates[id].confidence <= db.candidates[added.candidate].confidence)
              && (added.status == Recommended <==>
                    db.candidates[added.candidate].confidence >= thresholds(db.candidates[added.candidate].direction))
              && (forall k :: 0 <= k < |db.reviews| && after.reviews[k].file == file ==> !after.reviews[k].Ready())
  {
    hide Free;
  }

  /** Rejections by the system leave the user's set of rejected torrents as it was, so they never block. */
  lemma SystemRejectionsDoNotBlock(db: Db, other: File, resolved: set<nat>, file: File)
    requires db.Valid()
    ensures var superseded, closed := db.(reviews := Superseded(db.reviews, other)),
        db.(reviews := Closed(db.reviews, resolved));
            && superseded.Valid() && closed.Valid()
            && UserRejected(superseded, file) == UserRejected(db, file)
            && UserRejected(closed, file) == UserRejected(db, file)
  {
    SupersedingDecides(db, other);
    ClosingDecides(db, resolved);
    var superseded, closed := db.(reviews := Superseded(db.reviews, other)),
        db.(reviews := Closed(db.reviews, resolved));
    SameRejections(db, superseded, file);
    SameRejections(db, closed, file);
  }

  lemma SameRejections(before: Db, after: Db, file: File)
    requires before.Valid() && after.Valid() && OnlyDecides(before, after)
    requires forall k :: 0 <= k < |after.reviews| && after.reviews[k].RejectedByUser() ==>
              after.reviews[k] == before.reviews[k]
    ensures UserRejected(after, file) == UserRejected(before, file)
  {
    hide OnlyDecides, Decided, Review.RejectedByUser;
    SameLength(before, after);
    forall k: nat | k < |before.reviews|
      ensures after.TorrentAt(k) == before.TorrentAt(k) && after.reviews[k].file == before.reviews[k].file
      ensures after.reviews[k].RejectedByUser() <==> before.reviews[k].RejectedByUser()
    {
      DecidedAt(before, after, k);
    }
  }

  lemma ClosingDecides(db: Db, resolved: set<nat>)
    requires db.Valid()
    ensures var after := db.(reviews := Closed(db.reviews, resolved));
            && after.Valid() && OnlyDecides(db, after)
            && (forall k :: 0 <= k < |after.reviews| && after.reviews[k].RejectedByUser() ==>
                  after.reviews[k] == db.reviews[k])
  {
    var after := db.(reviews := Closed(db.reviews, resolved));
    forall r | r in after.reviews ensures r.candidate < |db.candidates| {
      var k :| 0 <= k < |after.reviews| && after.reviews[k] == r;
      assert db.reviews[k] in db.reviews;
    }
  }

  // ---------------------------------------------------------------- every run

  lemma StepKeepsInv(db: Db, step: Step)
    requires Inv(db) && Enabled(db, step)
    ensures Inv(Apply(db, step))
  {
    hide OneReadyPerFile, OneFilePerTorrent, NoRejectedReady, OnlyDecides, Created, Closed;
    match step
    case StoreCandidates(rows) =>
      MoreCandidatesKeepInv(db, rows);
    case Match(ids, file, inClient, thresholds) =>
      MatchingKeepsInv(db, ids, file, inClient, thresholds);
    case Decision(review, status, who) =>
      DecisionDecides(db, review, status, who);
      DecidingKeepsInv(db, Apply(db, step));
    case Close(resolved) =>
      ClosingDecides(db, resolved);
      DecidingKeepsInv(db, Apply(db, step));
    case WriteJobs(jobs) =>
      JobsDoNotMatter(db, jobs);
      DecidingKeepsInv(db, Apply(db, step));
  }

  lemma JobsDoNotMatter(db: Db, jobs: seq<JobRow>)
    requires db.Valid() && forall j :: j in jobs ==> j.candidate < |db.candidates|
    ensures db.(jobs := jobs).Valid() && OnlyDecides(db, db.(jobs := jobs))
  {
  }

  lemma DecisionDecides(db: Db, review: nat, status: Status, who: string)
    requires db.Valid() && Enabled(db, Decision(review, status, who))
    ensures var after := Apply(db, Decision(review, status, who));
            after.Valid() && OnlyDecides(db, after)
  {
    var after := Apply(db, Decision(review, status, who));
    assert db.reviews[review] in db.reviews;
    forall r | r in after.reviews ensures r.candidate < |db.candidates| {
      var k :| 0 <= k < |after.reviews| && after.reviews[k] == r;
      assert db.reviews[k] in db.reviews;
    }
  }

  lemma MoreCandidatesKeepInv(db: Db, rows: seq<CandidateRow>)
    requires Inv(db)
    ensures Inv(db.(candidates := db.candidates + rows))
  {
    var after := db.(candidates := db.candidates + rows);
    assert after.Valid();
    forall k: nat | k < |db.reviews| ensures after.TorrentAt(k) == db.TorrentAt(k) {
      assert db.reviews[k] in db.reviews;
    }
  }

  /** A run of the whole system from empty tables. */
  ghost predicate IsRun(dbs: seq<Db>, steps: seq<Step>) {
    && |dbs| == |steps| + 1 && dbs[0] == Db([], [], [])
    && forall i :: 0 <= i < |steps| ==>
         dbs[i].Valid() && Enabled(dbs[i], steps[i]) && dbs[i + 1] == Apply(dbs[i], steps[i])
  }

  /** What every run keeps: the three invariants hold in every state reached. */
  lemma {:induction false} EveryRunKeepsInv(dbs: seq<Db>, steps: seq<Step>, i: nat)
    requires IsRun(dbs, steps) && i < |dbs|
    ensures Inv(dbs[i])
  {
    if i > 0 {
      EveryRunKeepsInv(dbs, steps, i - 1);
      StepKeepsInv(dbs[i - 1], steps[i - 1]);
      assert dbs[i - 1 + 1] == Apply(dbs[i - 1], steps[i - 1]);
    }
  }

  /** A rejection by the user is never undone by a step. */
  lemma RejectionStays(db: Db, step: Step, k: nat)
    requires db.Valid() && Enabled(db, step) && k < |db.reviews| && db.reviews[k].RejectedByUser()
    ensures var after := Apply(db, step); k < |after.reviews| && after.reviews[k] == db.reviews[k]
    ensures db.reviews[k].candidate < |db.candidates| <= |Apply(db, step).candidates|
    ensures Apply(db, step).candidates[db.reviews[k].candidate] == db.candidates[db.reviews[k].candidate]
  {
    hide Eligible, Best;
    assert db.reviews[k] in db.reviews;
  }

  lemma {:induction false} RejectionLasts(dbs: seq<Db>, steps: seq<Step>, i: nat, j: nat, k: nat)
    requires IsRun(dbs, steps) && i <= j < |dbs| && k < |dbs[i].reviews| && dbs[i].reviews[k].RejectedByUser()
    requires dbs[i].Valid() && dbs[j].Valid()
    ensures k < |dbs[j].reviews| && dbs[j].reviews[k] == dbs[i].reviews[k]
    ensures dbs[j].TorrentAt(k) == dbs[i].TorrentAt(k)
    decreases j
  {
    hide Apply, Enabled, Inv, Review.RejectedByUser;
    if i < j {
      EveryRunKeepsInv(dbs, steps, j - 1);
      InvIsValid(dbs[j - 1]);
      RejectionLasts(dbs, steps, i, j - 1, k);
      assert dbs[j - 1 + 1] == Apply(dbs[j - 1], steps[j - 1]);
      RejectionStays(dbs[j - 1], steps[j - 1], k);
    }
  }

  lemma InvIsValid(db: Db)
    requires Inv(db)
    ensures db.Valid()
  {
  }

  /**
   The user's no is final: once a review of a file is rejected by the user, no later state of the run
   has a review of that torrent ready for that file.
   */
  lemma NeverQueuedAgain(dbs: seq<Db>, steps: seq<Step>, i: nat, j: nat, k: nat, other: nat)
    requires IsRun(dbs, steps) && i <= j < |dbs| && dbs[i].Valid() && dbs[j].Valid()
    requires k < |dbs[i].reviews| && dbs[i].reviews[k].RejectedByUser()
    requires other < |dbs[j].reviews| && dbs[j].reviews[other].file == dbs[i].reviews[k].file
    requires dbs[j].TorrentAt(other) == dbs[i].TorrentAt(k)
    ensures !dbs[j].reviews[other].Ready()
  {
    RejectionLasts(dbs, steps, i, j, k);
    EveryRunKeepsInv(dbs, steps, j);
    assert NoRejectedReady(dbs[j]);
    assert SameTorrent(dbs[j], k, other);
  }

  // ---------------------------------------------------------------- decisions without a guard

  function DecidedAs(db: Db, k: nat, status: Status, who: string): Db
    requires k < |db.reviews|
  {
    db.(reviews := db.reviews[k := db.reviews[k].Decide(status, who)])
  }

  lemma StillValid(db: Db, k: nat, status: Status, who: string)
    requires db.Valid() && k < |db.reviews|
    ensures var after := DecidedAs(db, k, status, who);
      && after.Valid() && (forall j: nat :: j < |db.reviews| ==> after.TorrentAt(j) == db.TorrentAt(j))
  {
    var after := DecidedAs(db, k, status, who);
    assert db.reviews[k] in db.reviews;
    forall r | r in after.reviews ensures r.candidate < |db.candidates| {
      var j :| 0 <= j < |after.reviews| && after.reviews[j] == r;
      assert db.reviews[j] in db.reviews;
    }
  }

  /**
   `approve` does not look at the status. Exactly when it keeps the queue in order, whatever the review was: when
   no review of another file holds its torrent.
   */
  lemma ApprovalSafeIff(db: Db, k: nat, who: string)
    requires Inv(db) && k < |db.reviews|
    ensures Inv(DecidedAs(db, k, Approved, who)) <==> db.TorrentAt(k) !in BusyReviews(db, db.reviews[k].file)
  {
    StillValid(db, k, Approved, who);
    var after := DecidedAs(db, k, Approved, who);
    var file := db.reviews[k].file;
    hide BusyReviews;
    if db.TorrentAt(k) in BusyReviews(db, file) {
      var j: nat :| j < |db.reviews| && db.reviews[j].Holding() && db.reviews[j].file != file
          && db.TorrentAt(j) == db.TorrentAt(k);
      assert after.reviews[j].Holding() && after.reviews[k].Holding() && SameTorrent(after, j, k)
          && SameTorrent(after, k, j);
    } else {
      forall a: nat, b: nat | a < b < |after.reviews| && after.reviews[a].Holding() && after.reviews[b].Holding()
          && SameTorrent(after, a, b)
        ensures after.reviews[a].file == after.reviews[b].file
      {
        assert a != k && b != k ==> SameTorrent(db, a, b);
      }
      forall a: nat, b: nat {:trigger SameTorrent(after, a, b)} | a < |after.reviews| && b < |after.reviews|
        ensures SameTorrent(after, a, b) <==> SameTorrent(db, a, b)
      {
      }
    }
  }

  /**
   Nor does `reject`. Exactly when it keeps the queue in order: when the system rejects, or no other ready review
   is of the same torrent for the same file.
   */
  lemma RejectionSafeIff(db: Db, k: nat, who: string)
    requires Inv(db) && k < |db.reviews|
    ensures Inv(DecidedAs(db, k, Rejected, who)) <==>
            who == SYSTEM || forall j: nat :: j < |db.reviews| && j != k && db.reviews[j].Ready() ==>
              !(SameTorrent(db, k, j) && db.reviews[j].file == db.reviews[k].file)
  {
    StillValid(db, k, Rejected, who);
    var after := DecidedAs(db, k, Rejected, who);
    forall a: nat, b: nat {:trigger SameTorrent(after, a, b)} | a < |after.reviews| && b < |after.reviews|
      ensures SameTorrent(after, a, b) <==> SameTorrent(db, a, b)
    {
    }
    if who != SYSTEM && exists j: nat :: j < |db.reviews| && j != k && db.reviews[j].Ready() && SameTorrent(db, k, j)
                                         && db.reviews[j].file == db.reviews[k].file
    {
      var j: nat :| j < |db.reviews| && j != k && db.reviews[j].Ready() && SameTorrent(db, k, j)
          && db.reviews[j].file == db.reviews[k].file;
      assert after.reviews[k].RejectedByUser() && after.reviews[j].Ready() && SameTorrent(after, k, j);
    }
  }

  // ---------------------------------------------------------------- two runs that show it

  const CANDIDATE := CandidateRow(1, "7", 0.5, MediaToTorrent)

  /** A matching run queues the only candidate when its torrent is free for the file. */
  lemma MatchQueues(db: Db, id: nat, file: File, thresholds: Thresholds)
    requires db.Valid() && id < |db.candidates| && db.candidates[id] == CANDIDATE && db.jobs == []
    requires thresholds(MediaToTorrent) == 1.0
    requires forall r :: r in db.reviews ==> if r.file == file then !r.RejectedByUser() else !r.Holding()
    ensures Created(db, [id], file, {}, thresholds) ==
        db.(reviews := Superseded(db.reviews, file) + [Review(id, file, Waiting, None)])
  {
    assert UserRejected(db, file) == {} && BusyReviews(db, file) == {};
    assert Free(db, id, file, {}) && [id][1..] == [];
    assert Eligible(db, [id], file, {}) == [id];
  }

  /** Matched for file 1, rejected by the user, matched for file 2. */
  function ApprovalSteps(thresholds: Thresholds): seq<Step> {
    [StoreCandidates([CANDIDATE]), Match([0], MediaRef(1), {}, thresholds), Decision(0, Rejected, "user"),
     StoreCandidates([CANDIDATE]), Match([1], MediaRef(2), {}, thresholds)]
  }

  function ApprovalStates(): seq<Db> {
    var one, two := [CANDIDATE], [CANDIDATE, CANDIDATE];
    var rejected := Review(0, MediaRef(1), Rejected, Some("user"));
    [Db([], [], []), Db(one, [], []), Db(one, [Review(0, MediaRef(1), Waiting, None)], []), Db(one, [rejected], []),
     Db(two, [rejected], []), Db(two, [rejected, Review(1, MediaRef(2), Waiting, None)], [])]
  }

  lemma ApprovalIsRun(thresholds: Thresholds)
    requires thresholds(MediaToTorrent) == 1.0
    ensures IsRun(ApprovalStates(), ApprovalSteps(thresholds))
  {
    hide Created;
    var d, s := ApprovalStates(), ApprovalSteps(thresholds);
    assert d[2] == Apply(d[1], s[1]) by {
      MatchQueues(d[1], 0, MediaRef(1), thresholds);
      assert Superseded(d[1].reviews, MediaRef(1)) == d[1].reviews;
    }
    assert d[5] == Apply(d[4], s[4]) by {
      MatchQueues(d[4], 1, MediaRef(2), thresholds);
      assert Superseded(d[4].reviews, MediaRef(2)) == d[5].reviews[..1];
    }
  }

  /**
   In a run of ordinary steps a torrent is queued for one file, rejected by the user, and queued for another file.
   Approving the rejected review then holds the torrent for both.
   */
  lemma UnguardedApprovalBreaksTheQueue(thresholds: Thresholds)
    requires thresholds(MediaToTorrent) == 1.0
    ensures IsRun(ApprovalStates(), ApprovalSteps(thresholds))
    ensures var db := ApprovalStates()[5];
      db.reviews[0].RejectedByUser() && Inv(db) && !Inv(DecidedAs(db, 0, Approved, "user"))
  {
    hide Inv, IsRun, ApprovalSteps;
    var dbs, steps := ApprovalStates(), ApprovalSteps(thresholds);
    ApprovalIsRun(thresholds);
    var db := dbs[5];
    EveryRunKeepsInv(dbs, steps, 5);
    InvIsValid(db);
    assert db.reviews[1].Holding() && db.reviews[1].file != db.reviews[0].file && db.TorrentAt(1) == db.TorrentAt(0);
    ApprovalSafeIff(db, 0, "user");
  }

  /** Matched for the same file twice. */
  function RejectionSteps(thresholds: Thresholds): seq<Step> {
    [StoreCandidates([CANDIDATE]), Match([0], MediaRef(1), {}, thresholds), StoreCandidates([CANDIDATE]),
     Match([1], MediaRef(1), {}, thresholds)]
  }

  function RejectionStates(): seq<Db> {
    var one, two := [CANDIDATE], [CANDIDATE, CANDIDATE];
    var first := Review(0, MediaRef(1), Waiting, None);
    [Db([], [], []), Db(one, [], []), Db(one, [first], []), Db(two, [first], []),
     Db(two, [first.Decide(Rejected, SYSTEM), Review(1, MediaRef(1), Waiting, None)], [])]
  }

  lemma RejectionIsRun(thresholds: Thresholds)
    requires thresholds(MediaToTorrent) == 1.0
    ensures IsRun(RejectionStates(), RejectionSteps(thresholds))
  {
    hide Created;
    var d, s := RejectionStates(), RejectionSteps(thresholds);
    assert d[2] == Apply(d[1], s[1]) by {
      MatchQueues(d[1], 0, MediaRef(1), thresholds);
      assert Superseded(d[1].reviews, MediaRef(1)) == d[1].reviews;
    }
    assert d[4] == Apply(d[3], s[3]) by {
      MatchQueues(d[3], 1, MediaRef(1), thresholds);
      assert Superseded(d[3].reviews, MediaRef(1)) == d[4].reviews[..1];
    }
  }

  /**
   A second matching run supersedes the review of a file by one for the same torrent. If the user then rejects the
   superseded review, the torrent is rejected for the file and still ready for it.
   */
  lemma UnguardedRejectionBreaksTheQueue(thresholds: Thresholds)
    requires thresholds(MediaToTorrent) == 1.0
    ensures IsRun(RejectionStates(), RejectionSteps(thresholds))
    ensures var db := RejectionStates()[4];
      !db.reviews[0].Ready() && Inv(db) && !Inv(DecidedAs(db, 0, Rejected, "user"))
  {
    hide Inv, IsRun, RejectionSteps;
    var dbs, steps := RejectionStates(), RejectionSteps(thresholds);
    RejectionIsRun(thresholds);
    var db := dbs[4];
    EveryRunKeepsInv(dbs, steps, 4);
    InvIsValid(db);
    assert db.reviews[1].Ready() && SameTorrent(db, 0, 1) && db.reviews[1].file == db.reviews[0].file;
    RejectionSafeIff(db, 0, "user");
  }
}
