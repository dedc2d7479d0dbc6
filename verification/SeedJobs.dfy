/** The life of a seed job after the torrent is in the client: `reconcile_seed_job`, `retry_seed_job`. */
module SeedJobs {
  import opened Basics

  datatype Recheck = Pending | Okay | Failed

  datatype FinalStatus = InProgress | Seeding | Broken

  /** What the client says about a torrent (app/adapters/torrent_client/base.py). */
  datatype TorrentStatus = TorrentStatus(state: string, recheck: Recheck, incomplete: bool, amountLeft: Option<int>)

  /** The recheck result after the tolerance for extras known to be missing. */
  function Tolerated(status: TorrentStatus, allowed: int): Recheck {
    if status.recheck == Failed && status.incomplete && allowed > 0
       && status.amountLeft.Some? && status.amountLeft.value <= allowed
    then Okay
    else status.recheck
  }

  function FinalAfter(before: FinalStatus, recheck: Recheck): FinalStatus {
    match recheck
    case Okay => Seeding
    case Failed => Broken
    case Pending => before
  }

  /** What a retry did: refused, asked the client again, execute this review again, or found no single review. */
  datatype Outcome = Refused | Reconciled | StartOver(review: nat) | NoSingleReview

  /** What ties a review to a job: the candidate and the file it is for. */
  datatype Subject = Subject(candidate: nat, mediaFile: Option<nat>, seedFile: Option<nat>) {
    /** The filter of the lookup: by the library file if the job has one, else by the torrent's. */
    predicate Finds(review: Subject) {
      && review.candidate == candidate
      && if mediaFile.Some? then review.mediaFile == mediaFile else review.seedFile == seedFile
    }
  }

  function Found(job: Subject, reviews: seq<Subject>): set<nat> {
    set k: nat | k < |reviews| && job.Finds(reviews[k])
  }

  predicate OnlyOne(job: Subject, reviews: seq<Subject>, k: nat) {
    k < |reviews| && job.Finds(reviews[k]) && forall j :: 0 <= j < |reviews| && j != k ==> !job.Finds(reviews[j])
  }

  /** `Query.one()` finds a row exactly if the filter does not let through more or fewer than one. */
  lemma OneFound(job: Subject, reviews: seq<Subject>, k: nat)
    ensures OnlyOne(job, reviews, k) <==> Found(job, reviews) == {k}
    ensures Found(job, reviews) == {k} ==> |Found(job, reviews)| == 1
    ensures |Found(job, reviews)| == 1 && k in Found(job, reviews) ==> Found(job, reviews) == {k}
  {
    var found := Found(job, reviews);
    if OnlyOne(job, reviews, k) {
      assert found == {k};
    }
    if found == {k} {
      assert k in found;
      forall j: nat | j < |reviews| && j != k ensures !job.Finds(reviews[j]) {
        assert j !in found;
      }
    }
    if |found| == 1 && k in found {
      assert found == (found - {k}) + {k};
      assert |found - {k}| == 0;
    }
  }

  class SeedJob {
    var infoHash: Option<string>
    var recheck: Option<Recheck>
    var finalStatus: FinalStatus
    var error: Option<string>
    const expectedMissing: Option<int>

    constructor (expectedMissing: Option<int>)
      ensures this.expectedMissing == expectedMissing
      ensures infoHash == None && recheck == None && finalStatus == InProgress && error == None
    {
      this.expectedMissing := expectedMissing;
      infoHash, recheck, finalStatus, error := None, None, InProgress, None;
    }

    function Allowed(): int {
      if expectedMissing.Some? then expectedMissing.value else 0
    }

    /** `reconcile_seed_job`; refuses a job with no info hash and then changes nothing. */
    method Reconcile(status: TorrentStatus) returns (outcome: Outcome)
      modifies this
      ensures infoHash == old(infoHash)
      ensures outcome == if infoHash.None? then Refused else Reconciled
      ensures outcome == Refused ==>
                recheck == old(recheck) && finalStatus == old(finalStatus) && error == old(error)
      ensures outcome == Reconciled ==>
                && recheck == Some(Tolerated(status, Allowed()))
                && finalStatus == FinalAfter(old(finalStatus), Tolerated(status, Allowed()))
                && error == if recheck == Some(Failed) then Some("Recheck failed, client state: " + status.state)
                            else old(error)
    {
      if infoHash.None? {
        return Refused;
      }
      var recheckStatus := status.recheck;
      var allowed := if expectedMissing.Some? then expectedMissing.value else 0;
      if recheckStatus == Failed && status.incomplete && allowed > 0
         && status.amountLeft.Some? && status.amountLeft.value <= allowed
      {
        recheckStatus := Okay;
      }
      recheck := Some(recheckStatus);
      if recheckStatus == Okay {
        finalStatus := Seeding;
      } else if recheckStatus == Failed {
        finalStatus := Broken;
        error := Some("Recheck failed, client state: " + status.state);
      }
      return Reconciled;
    }

    /**
     `retry_seed_job`: only a failed job; one already in the client is asked again instead of being
     rebuilt (a rebuild would find its own links in the way).
     */
    method Retry(status: TorrentStatus, subject: Subject, reviews: seq<Subject>) returns (outcome: Outcome)
      modifies this
      ensures infoHash == old(infoHash)
      ensures outcome.StartOver? ==> OnlyOne(subject, reviews, outcome.review)
      ensures outcome == NoSingleReview ==> forall k: nat :: !OnlyOne(subject, reviews, k)
      ensures outcome == Refused <==> old(finalStatus) != Broken
      ensures outcome == Reconciled <==> old(finalStatus) == Broken && infoHash.Some? && infoHash.value != ""
      ensures outcome != Reconciled ==>
                recheck == old(recheck) && finalStatus == old(finalStatus) && error == old(error)
      ensures outcome == Reconciled ==>
                && recheck == Some(Tolerated(status, Allowed()))
                && finalStatus == FinalAfter(InProgress, Tolerated(status, Allowed()))
                && error == if recheck == Some(Failed) then Some("Recheck failed, client state: " + status.state)
                            else old(error)
    {
      if finalStatus != Broken {
        return Refused;
      }
      if infoHash.Some? && infoHash.value != "" {
        finalStatus := InProgress;
        outcome := Reconcile(status);
        return;
      }
      var found := Found(subject, reviews);
      if |found| != 1 {
        forall k: nat ensures !OnlyOne(subject, reviews, k) {
          OneFound(subject, reviews, k);
        }
        return NoSingleReview;
      }
      var k :| k in found;
      OneFound(subject, reviews, k);
      return StartOver(k);
    }
  }
}
