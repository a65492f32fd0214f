/**
  Validating a reviewed set of evidence claims before it is shown (internal/tui/evidence.go).
  Each validator is a loop over seen-sets; what it accepts is stated with quantifiers. The digest
  of a list of claims is a function of it that nothing else is known about.
 */
module Evidence {
  import opened Options
  import opened Text

  datatype Snapshot = Snapshot(id: string, observations: seq<string>)

  datatype Claim = Claim(id: string, statement: string, evidenceRefs: seq<string>)

  datatype Status = Supported | Unsupported | Uncertain | OtherStatus(text: string)

  datatype Finding = Finding(claimId: string, status: Status, summary: string, evidenceRefs: seq<string>)

  // A slice the checkpoint or the review leaves out is nil, which is not the empty one when the
  // two are compared as JSON.
  type Findings = Option<seq<Finding>>

  function Items(findings: Findings): seq<Finding> {
    if findings.Some? then findings.value else []
  }

  // `usageValid`: the recorded usage is free of negative and undefined numbers.
  datatype Review = Review(
    apiVersion: string, invocationId: string, snapshotId: string, claimsDigest: string, provider: string, model: string,
    accepted: bool, coverageComplete: bool, findings: Findings, usageValid: bool)

  datatype Checkpoint = Checkpoint(
    apiVersion: string, status: string, snapshotId: string, claimsDigest: string, claims: seq<Claim>,
    findings: Findings, lastReview: Option<Review>)

  const API_VERSION := "openseal.evidence-grounding/v1"
  const PENDING_REVIEW := "pending_review"
  const REPAIR_REQUIRED := "repair_required"

  type Digest = seq<Claim> -> string

  // ---------------------------------------------------------------- what is accepted

  predicate Distinct(items: seq<string>) {
    forall i, j :: 0 <= i < j < |items| ==> items[i] != items[j]
  }

  predicate ClaimOk(claim: Claim, snapshot: Snapshot) {
    !GoBlank(claim.id) && !GoBlank(claim.statement) && claim.evidenceRefs != [] &&
    (forall r :: r in claim.evidenceRefs ==> r in snapshot.observations) && Distinct(claim.evidenceRefs)
  }

  predicate DistinctClaims(claims: seq<Claim>) {
    forall i, j :: 0 <= i < j < |claims| ==> claims[i].id != claims[j].id
  }

  predicate ClaimsOk(claims: seq<Claim>, snapshot: Snapshot, expected: string, digest: Digest) {
    claims != [] && (forall c :: c in claims ==> ClaimOk(c, snapshot)) && DistinctClaims(claims) &&
    digest(claims) == expected
  }

  predicate Known(status: Status) {
    status.Supported? || status.Unsupported? || status.Uncertain?
  }

  // A finding about one of the claims, citing only what that claim cites.
  predicate FindingOk(f: Finding, claims: seq<Claim>) {
    !GoBlank(f.summary) && Known(f.status) &&
    exists c :: c in claims && c.id == f.claimId && forall r :: r in f.evidenceRefs ==> r in c.evidenceRefs
  }

  predicate DistinctFindings(findings: seq<Finding>) {
    forall i, j :: 0 <= i < j < |findings| ==> findings[i].claimId != findings[j].claimId
  }

  predicate Reviewed(c: Claim, findings: seq<Finding>) {
    exists f :: f in findings && f.claimId == c.id
  }

  predicate AllReviewed(claims: seq<Claim>, findings: seq<Finding>) {
    forall c :: c in claims ==> Reviewed(c, findings)
  }

  predicate AllSupported(findings: seq<Finding>) {
    forall f :: f in findings ==> f.status.Supported?
  }

  predicate EnvelopeOk(review: Review, snapshot: Snapshot, digest: string) {
    review.apiVersion == API_VERSION && !GoBlank(review.invocationId) && review.snapshotId == snapshot.id &&
    review.claimsDigest == digest && !GoBlank(review.provider) && !GoBlank(review.model) && review.usageValid
  }

  predicate ReviewOk(claims: seq<Claim>, review: Review, snapshot: Snapshot, expected: string, digest: Digest) {
    var findings := Items(review.findings);
    ClaimsOk(claims, snapshot, expected, digest) && EnvelopeOk(review, snapshot, expected) &&
    (forall f :: f in findings ==> FindingOk(f, claims)) && DistinctFindings(findings) &&
    (review.accepted <==> review.coverageComplete && AllReviewed(claims, findings) && AllSupported(findings))
  }

  predicate PendingFindingOk(f: Finding, claims: seq<Claim>, snapshot: Snapshot) {
    !GoBlank(f.summary) && (f.status.Unsupported? || f.status.Uncertain?) &&
    (f.claimId != "" ==> exists c :: c in claims && c.id == f.claimId) &&
    forall r :: r in f.evidenceRefs ==> r in snapshot.observations
  }

  // ---------------------------------------------------------------- the validators

  method ValidateRefs(refs: seq<string>, allowed: set<string>) returns (ok: bool)
    ensures ok <==> (forall r :: r in refs ==> r in allowed) && Distinct(refs)
  {
    var seen: set<string> := {};
    for i := 0 to |refs|
      invariant forall r :: r in seen <==> r in refs[..i]
      invariant forall j :: 0 <= j < i ==> refs[j] in allowed
      invariant Distinct(refs[..i])
    {
      assert refs[..i + 1] == refs[..i] + [refs[i]];
      if refs[i] !in allowed {
        return false;
      }
      if refs[i] in seen {
        var j :| 0 <= j < i && refs[j] == refs[i];
        return false;
      }
      seen := seen + {refs[i]};
    }
    assert refs[..|refs|] == refs;
    return true;
  }

  method ValidateEvidenceClaims(claims: seq<Claim>, snapshot: Snapshot, expected: string, digest: Digest)
    returns (ok: bool)
    ensures ok <==> ClaimsOk(claims, snapshot, expected, digest)
  {
    if |claims| == 0 {
      return false;
    }
    var allowed := set o | o in snapshot.observations;
    var seen: set<string> := {};
    for i := 0 to |claims|
      invariant forall id :: id in seen <==> exists j :: 0 <= j < i && claims[j].id == id
      invariant forall j :: 0 <= j < i ==> ClaimOk(claims[j], snapshot)
      invariant DistinctClaims(claims[..i])
    {
      var claim := claims[i];
      if GoBlank(claim.id) || GoBlank(claim.statement) || |claim.evidenceRefs| == 0 {
        assert !ClaimOk(claim, snapshot);
        return false;
      }
      if claim.id in seen {
        return false;
      }
      seen := seen + {claim.id};
      var refsOk := ValidateRefs(claim.evidenceRefs, allowed);
      if !refsOk {
        assert !ClaimOk(claim, snapshot);
        return false;
      }
    }
    assert claims[..|claims|] == claims;
    return digest(claims) == expected;
  }

  function ClaimIds(claims: seq<Claim>): set<string> {
    set c | c in claims :: c.id
  }

  lemma {:induction false} DistinctClaimsCount(claims: seq<Claim>)
    requires DistinctClaims(claims)
    ensures |ClaimIds(claims)| == |claims|
  {
    if claims != [] {
      var front, last := claims[..|claims| - 1], claims[|claims| - 1];
      assert claims == front + [last];
      DistinctClaimsCount(front);
      assert ClaimIds(claims) == ClaimIds(front) + {last.id};
      assert last.id !in ClaimIds(front);
    }
  }

  lemma {:induction false} SameSizeSubset<T>(a: set<T>, b: set<T>)
    requires a <= b && |a| == |b|
    ensures a == b
  {
    if a != {} {
      var x :| x in a;
      SameSizeSubset(a - {x}, b - {x});
      assert a == (a - {x}) + {x} && b == (b - {x}) + {x};
    } else {
      assert |b| == 0;
    }
  }

  // Counting is enough: as many distinct known ids as claims means that every claim was reviewed.
  lemma CountingIsCovering(claims: seq<Claim>, findings: seq<Finding>, seen: set<string>)
    requires DistinctClaims(claims) && seen == (set f | f in findings :: f.claimId) && seen <= ClaimIds(claims)
    ensures |seen| == |claims| <==> AllReviewed(claims, findings)
  {
    DistinctClaimsCount(claims);
    if |seen| == |claims| {
      SameSizeSubset(seen, ClaimIds(claims));
      forall c | c in claims ensures Reviewed(c, findings) {
        assert c.id in seen;
      }
    }
    if AllReviewed(claims, findings) {
      forall id | id in ClaimIds(claims) ensures id in seen {
        var c :| c in claims && c.id == id;
        assert Reviewed(c, findings);
      }
      assert seen == ClaimIds(claims);
    }
  }

  // The claim a finding is about, as the map from ids to claims gives it.
  function ClaimFor(claims: seq<Claim>, id: string): (found: Option<Claim>)
    ensures found.Some? ==> found.value in claims && found.value.id == id
    ensures found.None? ==> forall c :: c in claims ==> c.id != id
  {
    if claims == [] then None
    else if claims[|claims| - 1].id == id then Some(claims[|claims| - 1])
    else ClaimFor(claims[..|claims| - 1], id)
  }

  lemma FindingOkFor(f: Finding, claims: seq<Claim>, claim: Claim)
    requires DistinctClaims(claims) && claim in claims && claim.id == f.claimId
    ensures FindingOk(f, claims) <==>
      !GoBlank(f.summary) && Known(f.status) && forall r :: r in f.evidenceRefs ==> r in claim.evidenceRefs
  {
  }

  method ValidateEvidenceGroundingProjection(
    claims: seq<Claim>, review: Review, snapshot: Snapshot, expected: string, digest: Digest) returns (ok: bool)
    ensures ok <==> ReviewOk(claims, review, snapshot, expected, digest)
  {
    var claimsOk := ValidateEvidenceClaims(claims, snapshot, expected, digest);
    if !claimsOk || !EnvelopeOk(review, snapshot, expected) {
      return false;
    }
    var findings := Items(review.findings);
    var seen: set<string> := {};
    var allSupported := true;
    for i := 0 to |findings|
      invariant seen == set f | f in findings[..i] :: f.claimId
      invariant seen <= ClaimIds(claims)
      invariant forall j :: 0 <= j < i ==> FindingOk(findings[j], claims)
      invariant DistinctFindings(findings[..i])
      invariant allSupported <==> AllSupported(findings[..i])
    {
      var f := findings[i];
      var claim := ClaimFor(claims, f.claimId);
      assert findings[..i + 1] == findings[..i] + [f];
      if claim.None? || GoBlank(f.summary) {
        assert !FindingOk(f, claims);
        return false;
      }
      if f.claimId in seen {
        var j :| 0 <= j < i && findings[j].claimId == f.claimId;
        return false;
      }
      seen := seen + {f.claimId};
      FindingOkFor(f, claims, claim.value);
      if !Known(f.status) {
        assert !FindingOk(f, claims);
        return false;
      }
      for k := 0 to |f.evidenceRefs|
        invariant forall l :: 0 <= l < k ==> f.evidenceRefs[l] in claim.value.evidenceRefs
      {
        if f.evidenceRefs[k] !in claim.value.evidenceRefs {
          assert !FindingOk(f, claims);
          return false;
        }
      }
      if !f.status.Supported? {
        allSupported := false;
      }
    }
    assert findings[..|findings|] == findings;
    CountingIsCovering(claims, findings, seen);
    var allClaimsReviewed := |seen| == |claims|;
    return review.accepted == (review.coverageComplete && allClaimsReviewed && allSupported);
  }

  method ValidatePendingGroundingFindings(findings: seq<Finding>, claims: seq<Claim>, snapshot: Snapshot)
    returns (ok: bool)
    ensures ok <==> forall f :: f in findings ==> PendingFindingOk(f, claims, snapshot)
  {
    var claimIds := ClaimIds(claims);
    var evidenceIds := set o | o in snapshot.observations;
    for i := 0 to |findings|
      invariant forall j :: 0 <= j < i ==> PendingFindingOk(findings[j], claims, snapshot)
    {
      var f := findings[i];
      if GoBlank(f.summary) || !(f.status.Unsupported? || f.status.Uncertain?) {
        assert !PendingFindingOk(f, claims, snapshot);
        return false;
      }
      if f.claimId != "" && f.claimId !in claimIds {
        assert !PendingFindingOk(f, claims, snapshot);
        return false;
      }
      for k := 0 to |f.evidenceRefs|
        invariant forall l :: 0 <= l < k ==> f.evidenceRefs[l] in snapshot.observations
      {
        if f.evidenceRefs[k] !in evidenceIds {
          assert !PendingFindingOk(f, claims, snapshot);
          return false;
        }
      }
    }
    return true;
  }

  // ---------------------------------------------------------------- decoding

  datatype Presence<T> = Missing | Unreadable | Readable(value: T)

  datatype Run = Run(completed: bool, claims: Presence<seq<Claim>>, review: Presence<Review>,
    checkpoint: Presence<Checkpoint>)

  datatype Decoded =
    | Nothing
    | Invalid
    | Projection(phase: string, snapshotId: string, claimsDigest: string, claims: seq<Claim>,
                 review: Option<Review>, findings: Findings)

  const ACCEPTED := "accepted"

  predicate AcceptedRun(run: Run, snapshot: Snapshot, digest: Digest) {
    run.claims.Readable? && run.review.Readable? && run.checkpoint.Missing? && run.completed &&
    run.review.value.accepted && run.review.value.coverageComplete &&
    ReviewOk(run.claims.value, run.review.value, snapshot, run.review.value.claimsDigest, digest)
  }

  predicate LastReviewOk(state: Checkpoint, last: Review, snapshot: Snapshot, digest: Digest) {
    state.status == REPAIR_REQUIRED && !last.accepted && last.snapshotId == state.snapshotId &&
    last.claimsDigest == state.claimsDigest && ReviewOk(state.claims, last, snapshot, state.claimsDigest, digest) &&
    state.findings == last.findings
  }

  predicate OpenRun(run: Run, snapshot: Snapshot, digest: Digest) {
    run.claims.Missing? && run.review.Missing? && run.checkpoint.Readable? &&
    (var state := run.checkpoint.value;
     state.apiVersion == API_VERSION && (state.status == PENDING_REVIEW || state.status == REPAIR_REQUIRED) &&
     state.snapshotId == snapshot.id && !GoBlank(state.claimsDigest) &&
     ClaimsOk(state.claims, snapshot, state.claimsDigest, digest) &&
     (state.lastReview.Some? ==> LastReviewOk(state, state.lastReview.value, snapshot, digest)) &&
     (state.lastReview.None? ==>
        (state.status == PENDING_REVIEW ==> Items(state.findings) == []) &&
        forall f :: f in Items(state.findings) ==> PendingFindingOk(f, state.claims, snapshot)))
  }

  method DecodeEvidenceGrounding(run: Option<Run>, snapshot: Option<Snapshot>, digest: Digest) returns (d: Decoded)
    ensures d.Nothing? <==>
      run.None? || snapshot.None? ||
      (run.value.claims.Missing? && run.value.review.Missing? && run.value.checkpoint.Missing?)
    ensures d.Projection? && d.phase == ACCEPTED <==>
      run.Some? && snapshot.Some? && AcceptedRun(run.value, snapshot.value, digest)
    ensures d.Projection? && d.phase != ACCEPTED <==>
      run.Some? && snapshot.Some? && OpenRun(run.value, snapshot.value, digest)
    ensures d.Projection? && d.phase == ACCEPTED ==>
      d == Projection(ACCEPTED, snapshot.value.id, run.value.review.value.claimsDigest, run.value.claims.value,
                      Some(run.value.review.value), run.value.review.value.findings)
    ensures d.Projection? && d.phase != ACCEPTED ==>
      var state := run.value.checkpoint.value;
      d == Projection(state.status, state.snapshotId, state.claimsDigest, state.claims, state.lastReview,
        state.findings)
  {
    if run.None? || snapshot.None? {
      return Nothing;
    }
    var claimsPresent, reviewPresent := !run.value.claims.Missing?, !run.value.review.Missing?;
    var checkpointPresent := !run.value.checkpoint.Missing?;
    if !claimsPresent && !reviewPresent && !checkpointPresent {
      return Nothing;
    }
    if claimsPresent != reviewPresent || (claimsPresent && checkpointPresent) {
      return Invalid;
    }
    if claimsPresent {
      if run.value.claims.Unreadable? || run.value.review.Unreadable? {
        return Invalid;
      }
      var claims, review := run.value.claims.value, run.value.review.value;
      if !run.value.completed || !review.accepted || !review.coverageComplete {
        return Invalid;
      }
      var ok := ValidateEvidenceGroundingProjection(claims, review, snapshot.value, review.claimsDigest, digest);
      if !ok {
        return Invalid;
      }
      return Projection(ACCEPTED, review.snapshotId, review.claimsDigest, claims, Some(review), review.findings);
    }
    if run.value.checkpoint.Unreadable? {
      return Invalid;
    }
    var state := run.value.checkpoint.value;
    if state.apiVersion != API_VERSION || (state.status != PENDING_REVIEW && state.status != REPAIR_REQUIRED) ||
       state.snapshotId != snapshot.value.id || GoBlank(state.claimsDigest) {
      return Invalid;
    }
    var claimsOk := ValidateEvidenceClaims(state.claims, snapshot.value, state.claimsDigest, digest);
    if !claimsOk {
      return Invalid;
    }
    var findings := state.findings;
    if state.lastReview.Some? {
      var last := state.lastReview.value;
      if state.status != REPAIR_REQUIRED || last.accepted || last.snapshotId != state.snapshotId ||
         last.claimsDigest != state.claimsDigest {
        return Invalid;
      }
      var ok := ValidateEvidenceGroundingProjection(state.claims, last, snapshot.value, state.claimsDigest, digest);
      if !ok || state.findings != last.findings {
        return Invalid;
      }
      findings := last.findings;
    } else {
      if state.status == PENDING_REVIEW && |Items(findings)| != 0 {
        return Invalid;
      }
      var ok := ValidatePendingGroundingFindings(Items(findings), state.claims, snapshot.value);
      if !ok {
        return Invalid;
      }
    }
    assert state.status != ACCEPTED;
    return Projection(state.status, state.snapshotId, state.claimsDigest, state.claims, state.lastReview, findings);
  }

  // ---------------------------------------------------------------- results

  // Exactly one finding, at index `j`, is about the claim, and it supports it from evidence the
  // claim itself cites, all of it in the snapshot.
  ghost predicate SupportedAt(claim: Claim, findings: seq<Finding>, snapshot: Snapshot, j: nat) {
    j < |findings| && findings[j].claimId == claim.id && findings[j].status.Supported? &&
    (forall k :: 0 <= k < |findings| && findings[k].claimId == claim.id ==> k == j) &&
    (forall r :: r in findings[j].evidenceRefs ==> r in claim.evidenceRefs) &&
    (forall r :: r in claim.evidenceRefs ==> r in snapshot.observations)
  }

  // Accepted means fully supported.
  lemma AcceptedIsFullySupported(run: Run, snapshot: Snapshot, digest: Digest, i: nat)
    requires AcceptedRun(run, snapshot, digest) && i < |run.claims.value|
    ensures exists j :: SupportedAt(run.claims.value[i], Items(run.review.value.findings), snapshot, j)
    ensures |Items(run.review.value.findings)| == |run.claims.value|
  {
    var claims, findings := run.claims.value, Items(run.review.value.findings);
    var claim := claims[i];
    assert ClaimOk(claim, snapshot);
    assert Reviewed(claim, findings);
    var f :| f in findings && f.claimId == claim.id;
    var j: nat :| j < |findings| && findings[j] == f;
    assert FindingOk(f, claims);
    FindingOkFor(f, claims, claim);
    assert SupportedAt(claim, findings, snapshot, j);
    OneFindingEach(claims, findings);
  }

  lemma {:induction false} FindingIdsCount(findings: seq<Finding>)
    requires DistinctFindings(findings)
    ensures |(set f | f in findings :: f.claimId)| == |findings|
  {
    if findings != [] {
      var front, last := findings[..|findings| - 1], findings[|findings| - 1];
      assert findings == front + [last];
      FindingIdsCount(front);
      assert (set f | f in findings :: f.claimId) == (set f | f in front :: f.claimId) + {last.claimId};
      assert last.claimId !in (set f | f in front :: f.claimId);
    }
  }

  lemma OneFindingEach(claims: seq<Claim>, findings: seq<Finding>)
    requires DistinctClaims(claims) && DistinctFindings(findings) && AllReviewed(claims, findings)
    requires forall f :: f in findings ==> FindingOk(f, claims)
    ensures |findings| == |claims|
  {
    var seen := set f | f in findings :: f.claimId;
    forall id | id in seen ensures id in ClaimIds(claims) {
      var f :| f in findings && f.claimId == id;
      assert FindingOk(f, claims);
    }
    CountingIsCovering(claims, findings, seen);
    FindingIdsCount(findings);
  }

  // A review that did not accept left something open: its coverage was incomplete, or a claim has
  // no finding, or a finding does not support its claim. And one that left nothing open accepted.
  lemma RejectedLeavesSomethingOpen(claims: seq<Claim>, review: Review, snapshot: Snapshot, expected: string,
      digest: Digest)
    requires ReviewOk(claims, review, snapshot, expected, digest)
    ensures !review.accepted <==>
      !review.coverageComplete || (exists c :: c in claims && !Reviewed(c, Items(review.findings))) ||
      (exists f :: f in Items(review.findings) && !f.status.Supported?)
  {
  }

  // A review leaves no choice of verdict: of the two that could be given over the same findings,
  // one is valid if anything is, and it is acceptance exactly when all is covered and supported.
  lemma OneVerdictIsValid(claims: seq<Claim>, review: Review, snapshot: Snapshot, expected: string, digest: Digest)
    requires ReviewOk(claims, review, snapshot, expected, digest)
    ensures !ReviewOk(claims, review.(accepted := !review.accepted), snapshot, expected, digest)
    ensures ReviewOk(claims, review.(accepted := true), snapshot, expected, digest) <==>
      review.coverageComplete && AllReviewed(claims, Items(review.findings)) && AllSupported(Items(review.findings))
  {
  }

  // The comparison of the checkpoint's findings with the last review's is one of JSON texts, where
  // no findings at all are written as an empty list or left out. Of a checkpoint that is sound
  // otherwise, with no findings on either side, what is accepted is exactly that both write it alike.
  lemma EmptyFindingsAreAcceptedIff(run: Run, snapshot: Snapshot, digest: Digest)
    requires run.checkpoint.Readable? && run.checkpoint.value.lastReview.Some?
    requires Items(run.checkpoint.value.findings) == Items(run.checkpoint.value.lastReview.value.findings) == []
    requires OpenRun(run.(checkpoint := Readable(run.checkpoint.value.(
        findings := None, lastReview := Some(run.checkpoint.value.lastReview.value.(findings := None))))), snapshot,
          digest)
    ensures OpenRun(run, snapshot, digest) <==>
      run.checkpoint.value.findings.Some? == run.checkpoint.value.lastReview.value.findings.Some?
  {
  }
}
