/**
  What the validators of a grounding demand, entry by entry, and what a run comes to: the rules are
  given with the positions in the lists and the words that stand in the records.
 */
module EvidenceRules {
  import opened Options
  import opened Evidence
  import opened Text

  ghost predicate SaysSomething(s: string) {
    exists i :: 0 <= i < |s| && !IsGoSpace(s[i])
  }

  lemma GoBlankIff(s: string)
    ensures GoBlank(s) <==> !SaysSomething(s)
  {
    if !SaysSomething(s) {
      forall c | c in s ensures IsGoSpace(c) {
        var i :| 0 <= i < |s| && s[i] == c;
      }
    }
    if GoBlank(s) {
      forall i | 0 <= i < |s| ensures IsGoSpace(s[i]) {
        assert s[i] in s;
      }
    }
  }

  // All of these are among those.
  predicate Among(some: seq<string>, all: seq<string>) {
    forall i :: 0 <= i < |some| ==> exists j :: 0 <= j < |all| && all[j] == some[i]
  }

  predicate NoneTwice(items: seq<string>) {
    forall i, j :: 0 <= i < |items| && 0 <= j < |items| && i != j ==> items[i] != items[j]
  }

  lemma AmongIff(some: seq<string>, all: seq<string>)
    ensures Among(some, all) <==> forall r :: r in some ==> r in all
  {
    if Among(some, all) {
      forall r | r in some ensures r in all {
        var i :| 0 <= i < |some| && some[i] == r;
      }
    }
    if forall r :: r in some ==> r in all {
      forall i | 0 <= i < |some| ensures exists j :: 0 <= j < |all| && all[j] == some[i] {
        assert some[i] in some;
      }
    }
  }

  // ---------------------------------------------------------------- claims

  lemma ClaimOkIff(c: Claim, snapshot: Snapshot)
    ensures ClaimOk(c, snapshot) <==>
      (SaysSomething(c.id) && SaysSomething(c.statement) && |c.evidenceRefs| >= 1 &&
       Among(c.evidenceRefs, snapshot.observations) && NoneTwice(c.evidenceRefs))
  {
    GoBlankIff(c.id);
    GoBlankIff(c.statement);
    AmongIff(c.evidenceRefs, snapshot.observations);
  }

  // Claims are valid exactly if there are some, each says what it claims and cites evidence of the
  // snapshot, none of it twice; their ids differ; and they are the ones the digest was taken of.
  lemma ClaimsAreValidIff(claims: seq<Claim>, snapshot: Snapshot, expected: string, digest: Digest)
    ensures ClaimsOk(claims, snapshot, expected, digest) <==>
      (|claims| >= 1 && expected == digest(claims) &&
       (forall i :: 0 <= i < |claims| ==>
         SaysSomething(claims[i].id) && SaysSomething(claims[i].statement) && |claims[i].evidenceRefs| >= 1 &&
         Among(claims[i].evidenceRefs, snapshot.observations) && NoneTwice(claims[i].evidenceRefs)) &&
       (forall i, j :: 0 <= i < |claims| && 0 <= j < |claims| && claims[i].id == claims[j].id ==> i == j))
  {
    forall i | 0 <= i < |claims|
      ensures ClaimOk(claims[i], snapshot) <==>
        (SaysSomething(claims[i].id) && SaysSomething(claims[i].statement) && |claims[i].evidenceRefs| >= 1 &&
         Among(claims[i].evidenceRefs, snapshot.observations) && NoneTwice(claims[i].evidenceRefs))
    {
      ClaimOkIff(claims[i], snapshot);
      assert claims[i] in claims;
    }
    EachIsOneOf(claims);
  }

  lemma EachIsOneOf<T>(items: seq<T>)
    ensures forall x :: x in items <==> exists i :: 0 <= i < |items| && items[i] == x
  {
  }

  // ---------------------------------------------------------------- findings

  // The finding is about this claim, has something to say and one of the three verdicts, and cites
  // only what the claim cites.
  ghost predicate IsAbout(f: Finding, c: Claim) {
    f.claimId == c.id && SaysSomething(f.summary) && f.status in {Supported, Unsupported, Uncertain} &&
    Among(f.evidenceRefs, c.evidenceRefs)
  }

  lemma FindingOkIff(f: Finding, claims: seq<Claim>)
    ensures FindingOk(f, claims) <==> exists i :: 0 <= i < |claims| && IsAbout(f, claims[i])
  {
    GoBlankIff(f.summary);
    forall c: Claim
      ensures Among(f.evidenceRefs, c.evidenceRefs) <==> forall r :: r in f.evidenceRefs ==> r in c.evidenceRefs
    {
      AmongIff(f.evidenceRefs, c.evidenceRefs);
    }
    if FindingOk(f, claims) {
      var c :| c in claims && c.id == f.claimId && forall r :: r in f.evidenceRefs ==> r in c.evidenceRefs;
      var i :| 0 <= i < |claims| && claims[i] == c;
      assert IsAbout(f, claims[i]);
    }
    if exists i :: 0 <= i < |claims| && IsAbout(f, claims[i]) {
      var i :| 0 <= i < |claims| && IsAbout(f, claims[i]);
      assert claims[i] in claims;
    }
  }

  // What stands at the head of a review.
  lemma EnvelopeIsValidIff(review: Review, snapshot: Snapshot, digest: string)
    ensures EnvelopeOk(review, snapshot, digest) <==>
      (review.apiVersion == "openseal.evidence-grounding/v1" && review.snapshotId == snapshot.id &&
       review.claimsDigest == digest && SaysSomething(review.invocationId) && SaysSomething(review.provider) &&
       SaysSomething(review.model) && review.usageValid)
  {
    GoBlankIff(review.invocationId);
    GoBlankIff(review.provider);
    GoBlankIff(review.model);
  }

  // Every finding supports its claim, and every claim has one.
  ghost predicate SupportsAll(claims: seq<Claim>, findings: seq<Finding>) {
    (forall k :: 0 <= k < |findings| ==> findings[k].status == Supported) &&
    forall i :: 0 <= i < |claims| ==> exists k :: 0 <= k < |findings| && findings[k].claimId == claims[i].id
  }

  lemma SupportsAllIff(claims: seq<Claim>, findings: seq<Finding>)
    ensures SupportsAll(claims, findings) <==> AllReviewed(claims, findings) && AllSupported(findings)
  {
    if SupportsAll(claims, findings) {
      forall c | c in claims ensures Reviewed(c, findings) {
        var i :| 0 <= i < |claims| && claims[i] == c;
        var k :| 0 <= k < |findings| && findings[k].claimId == claims[i].id;
        assert findings[k] in findings;
      }
    }
    if AllReviewed(claims, findings) && AllSupported(findings) {
      forall i | 0 <= i < |claims| ensures exists k :: 0 <= k < |findings| && findings[k].claimId == claims[i].id {
        assert claims[i] in claims && Reviewed(claims[i], findings);
        var f :| f in findings && f.claimId == claims[i].id;
        var k :| 0 <= k < |findings| && findings[k] == f;
      }
    }
  }

  ghost predicate EachIsAbout(findings: seq<Finding>, claims: seq<Claim>) {
    forall k :: 0 <= k < |findings| ==> exists i :: 0 <= i < |claims| && IsAbout(findings[k], claims[i])
  }

  lemma EachIsAboutIff(findings: seq<Finding>, claims: seq<Claim>)
    ensures EachIsAbout(findings, claims) <==> forall f :: f in findings ==> FindingOk(f, claims)
  {
    forall k | 0 <= k < |findings|
      ensures FindingOk(findings[k], claims) <==> exists i :: 0 <= i < |claims| && IsAbout(findings[k], claims[i])
    {
      FindingOkIff(findings[k], claims);
    }
    if forall f :: f in findings ==> FindingOk(f, claims) {
      forall k | 0 <= k < |findings| ensures exists i :: 0 <= i < |claims| && IsAbout(findings[k], claims[i]) {
        assert findings[k] in findings;
      }
    }
  }

  predicate OneEach(findings: seq<Finding>) {
    forall k, l :: 0 <= k < |findings| && 0 <= l < |findings| && k != l ==> findings[k].claimId != findings[l].claimId
  }

  // A review is valid exactly if its claims and its envelope are, each finding is about one of the
  // claims, no two about the same, and it accepts precisely when it covers and supports everything.
  lemma ReviewIsValidIff(claims: seq<Claim>, review: Review, snapshot: Snapshot, expected: string, digest: Digest)
    ensures var findings := if review.findings.Some? then review.findings.value else [];
      ReviewOk(claims, review, snapshot, expected, digest) <==>
      (ClaimsOk(claims, snapshot, expected, digest) && EnvelopeOk(review, snapshot, expected) &&
       EachIsAbout(findings, claims) && OneEach(findings) &&
       review.accepted == (review.coverageComplete && SupportsAll(claims, findings)))
  {
    var findings := Items(review.findings);
    SupportsAllIff(claims, findings);
    EachIsAboutIff(findings, claims);
    assert OneEach(findings) <==> DistinctFindings(findings);
  }

  // ---------------------------------------------------------------- runs

  // A run is shown as accepted exactly if it is completed, has claims and a review and no
  // checkpoint, and the review is valid and accepts them.
  lemma AcceptedRunIff(run: Run, snapshot: Snapshot, digest: Digest)
    ensures AcceptedRun(run, snapshot, digest) <==>
      (run.completed && run.claims.Readable? && run.review.Readable? && run.checkpoint.Missing? &&
       (var claims, review := run.claims.value, run.review.value;
        review.accepted && ReviewOk(claims, review, snapshot, digest(claims), digest)))
  {
    if run.claims.Readable? && run.review.Readable? {
      ReviewIsValidIff(run.claims.value, run.review.value, snapshot, run.review.value.claimsDigest, digest);
      ReviewIsValidIff(run.claims.value, run.review.value, snapshot, digest(run.claims.value), digest);
    }
  }

  // A finding before any review: it says what is wrong, with a claim if it names one, from evidence
  // of the snapshot.
  ghost predicate IsOpenFinding(f: Finding, claims: seq<Claim>, snapshot: Snapshot) {
    SaysSomething(f.summary) && f.status in {Unsupported, Uncertain} && Among(f.evidenceRefs, snapshot.observations) &&
    (f.claimId == "" || exists i :: 0 <= i < |claims| && claims[i].id == f.claimId)
  }

  lemma PendingFindingOkIff(f: Finding, claims: seq<Claim>, snapshot: Snapshot)
    ensures PendingFindingOk(f, claims, snapshot) <==> IsOpenFinding(f, claims, snapshot)
  {
    GoBlankIff(f.summary);
    AmongIff(f.evidenceRefs, snapshot.observations);
    EachIsOneOf(claims);
  }

  // A run is shown as in progress exactly if it has a checkpoint only, of this snapshot, with valid
  // claims, which either waits for its first review, without findings; or is to be repaired after a
  // valid review that did not accept, with that review's findings, or with findings of its own.
  lemma OpenRunIff(run: Run, snapshot: Snapshot, digest: Digest)
    ensures OpenRun(run, snapshot, digest) <==>
      (run.claims.Missing? && run.review.Missing? && run.checkpoint.Readable? &&
       (var s := run.checkpoint.value;
        s.apiVersion == "openseal.evidence-grounding/v1" && s.snapshotId == snapshot.id &&
        SaysSomething(s.claimsDigest) && ClaimsOk(s.claims, snapshot, s.claimsDigest, digest) &&
        (if s.lastReview.Some? then
           s.status == "repair_required" && !s.lastReview.value.accepted &&
           ReviewOk(s.claims, s.lastReview.value, snapshot, s.claimsDigest, digest) &&
           s.findings == s.lastReview.value.findings
         else
           (s.status == "pending_review" && (s.findings.None? || s.findings == Some([]))) ||
           (s.status == "repair_required" &&
            forall k :: 0 <= k < |Items(s.findings)| ==> IsOpenFinding(Items(s.findings)[k], s.claims, snapshot)))))
  {
    if run.checkpoint.Readable? {
      var s := run.checkpoint.value;
      GoBlankIff(s.claimsDigest);
      EachIsOneOf(Items(s.findings));
      forall f ensures PendingFindingOk(f, s.claims, snapshot) <==> IsOpenFinding(f, s.claims, snapshot) {
        PendingFindingOkIff(f, s.claims, snapshot);
      }
    }
  }
}
