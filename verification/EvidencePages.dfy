/**
  Laying a grounding out in pages and lines, and choosing the run it is taken from
  (internal/tui/evidence.go).
 */
module EvidencePages {
  import opened Options
  import opened Text
  import opened Evidence

  // A page without a claim shows one finding that no claim was found for.
  datatype Page = Page(claim: Option<Claim>, findings: seq<Finding>)

  function Matching(findings: seq<Finding>, id: string): seq<Finding> {
    if findings == [] then []
    else
      var front, last := Matching(findings[..|findings| - 1], id), findings[|findings| - 1];
      if last.claimId == id then front + [last] else front
  }

  predicate HasClaim(claims: seq<Claim>, id: string) {
    exists i :: 0 <= i < |claims| && claims[i].id == id
  }

  function ClaimPages(claims: seq<Claim>, findings: seq<Finding>): seq<Page> {
    if claims == [] then []
    else
      var last := claims[|claims| - 1];
      ClaimPages(claims[..|claims| - 1], findings) + [Page(Some(last), Matching(findings, last.id))]
  }

  function LoosePages(claims: seq<Claim>, findings: seq<Finding>): seq<Page> {
    if findings == [] then []
    else
      var front, last := LoosePages(claims, findings[..|findings| - 1]), findings[|findings| - 1];
      if HasClaim(claims, last.claimId) then front else front + [Page(None, [last])]
  }

  function PagesOf(claims: seq<Claim>, findings: seq<Finding>): seq<Page> {
    ClaimPages(claims, findings) + LoosePages(claims, findings)
  }

  method GroundingPages(claims: seq<Claim>, findings: seq<Finding>) returns (pages: seq<Page>)
    ensures pages == PagesOf(claims, findings)
  {
    pages := [];
    var used := new bool[|findings|](_ => false);
    for c := 0 to |claims|
      invariant pages == ClaimPages(claims[..c], findings)
      invariant forall j :: 0 <= j < |findings| ==> (used[j] <==> HasClaim(claims[..c], findings[j].claimId))
    {
      var claim := claims[c];
      assert claims[..c + 1][..c] == claims[..c];
      var matched: seq<Finding> := [];
      for f := 0 to |findings|
        invariant matched == Matching(findings[..f], claim.id)
        invariant forall j :: 0 <= j < |findings| ==>
          (used[j] <==> HasClaim(claims[..c], findings[j].claimId) || (j < f && findings[j].claimId == claim.id))
      {
        assert findings[..f + 1][..f] == findings[..f];
        if findings[f].claimId == claim.id {
          matched := matched + [findings[f]];
          used[f] := true;
        }
      }
      assert findings[..|findings|] == findings;
      forall id ensures HasClaim(claims[..c + 1], id) <==> HasClaim(claims[..c], id) || id == claim.id {
        HasClaimSnoc(claims[..c], claim, id);
        assert claims[..c + 1] == claims[..c] + [claim];
      }
      pages := pages + [Page(Some(claim), matched)];
    }
    assert claims[..|claims|] == claims;
    for f := 0 to |findings|
      invariant pages == ClaimPages(claims, findings) + LoosePages(claims, findings[..f])
    {
      assert findings[..f + 1][..f] == findings[..f];
      if !used[f] {
        pages := pages + [Page(None, [findings[f]])];
      }
    }
    assert findings[..|findings|] == findings;
  }

  lemma HasClaimSnoc(claims: seq<Claim>, claim: Claim, id: string)
    ensures HasClaim(claims + [claim], id) <==> HasClaim(claims, id) || claim.id == id
  {
    if HasClaim(claims, id) {
      var i :| 0 <= i < |claims| && claims[i].id == id;
      assert (claims + [claim])[i].id == id;
    }
    if claim.id == id {
      assert (claims + [claim])[|claims|].id == id;
    }
  }

  // ---------------------------------------------------------------- conservation

  function Shown(pages: seq<Page>): seq<Finding> {
    if pages == [] then [] else Shown(pages[..|pages| - 1]) + pages[|pages| - 1].findings
  }

  function ClaimsWith(claims: seq<Claim>, id: string): nat {
    if claims == [] then 0 else ClaimsWith(claims[..|claims| - 1], id) + if claims[|claims| - 1].id == id then 1 else 0
  }

  lemma {:induction false} MatchingCount(findings: seq<Finding>, id: string, f: Finding)
    ensures multiset(Matching(findings, id))[f] == if f.claimId == id then multiset(findings)[f] else 0
  {
    if findings != [] {
      MatchingCount(findings[..|findings| - 1], id, f);
      assert findings == findings[..|findings| - 1] + [findings[|findings| - 1]];
    }
  }

  lemma Distribute(a: nat, b: nat, n: nat)
    ensures (a + b) * n == a * n + b * n
  {
  }

  lemma OneMorePage(claims: seq<Claim>, findings: seq<Finding>)
    requires claims != []
    ensures var front, last := claims[..|claims| - 1], claims[|claims| - 1];
      |ClaimPages(claims, findings)| == |ClaimPages(front, findings)| + 1 &&
      Shown(ClaimPages(claims, findings)) == Shown(ClaimPages(front, findings)) + Matching(findings, last.id)
  {
    var pages := ClaimPages(claims, findings);
    assert pages[..|pages| - 1] == ClaimPages(claims[..|claims| - 1], findings);
  }

  lemma {:induction false} ClaimPagesCount(claims: seq<Claim>, findings: seq<Finding>, f: Finding)
    ensures multiset(Shown(ClaimPages(claims, findings)))[f] == ClaimsWith(claims, f.claimId) * multiset(findings)[f]
    ensures |ClaimPages(claims, findings)| == |claims|
  {
    if claims != [] {
      var front, last := claims[..|claims| - 1], claims[|claims| - 1];
      ClaimPagesCount(front, findings, f);
      MatchingCount(findings, last.id, f);
      OneMorePage(claims, findings);
      Distribute(ClaimsWith(front, f.claimId), if last.id == f.claimId then 1 else 0, multiset(findings)[f]);
    }
  }

  lemma {:induction false} LoosePagesCount(claims: seq<Claim>, findings: seq<Finding>, f: Finding)
    ensures multiset(Shown(LoosePages(claims, findings)))[f] == if HasClaim(claims, f.claimId) then 0
      else multiset(findings)[f]
  {
    if findings != [] {
      var front, last := findings[..|findings| - 1], findings[|findings| - 1];
      LoosePagesCount(claims, front, f);
      assert findings == front + [last];
      var pages := LoosePages(claims, findings);
      if !HasClaim(claims, last.claimId) {
        assert pages[..|pages| - 1] == LoosePages(claims, front);
      }
    }
  }

  lemma {:induction false} ShownAppend(a: seq<Page>, b: seq<Page>)
    ensures Shown(a + b) == Shown(a) + Shown(b)
  {
    if b == [] {
      assert a + b == a;
    } else {
      assert (a + b)[..|a + b| - 1] == a + b[..|b| - 1];
      ShownAppend(a, b[..|b| - 1]);
    }
  }

  lemma {:induction false} NoClaimsWith(claims: seq<Claim>, id: string)
    ensures ClaimsWith(claims, id) == 0 <==> !HasClaim(claims, id)
  {
    if claims != [] {
      NoClaimsWith(claims[..|claims| - 1], id);
      HasClaimSnoc(claims[..|claims| - 1], claims[|claims| - 1], id);
      assert claims == claims[..|claims| - 1] + [claims[|claims| - 1]];
    }
  }

  lemma ShownInTwoParts(claims: seq<Claim>, findings: seq<Finding>, f: Finding)
    ensures multiset(Shown(PagesOf(claims, findings)))[f]
         == multiset(Shown(ClaimPages(claims, findings)))[f] + multiset(Shown(LoosePages(claims, findings)))[f]
  {
    ShownAppend(ClaimPages(claims, findings), LoosePages(claims, findings));
  }

  lemma InTotal(claimed: nat, loose: nat, k: nat, n: nat)
    requires claimed == k * n && loose == if k != 0 then 0 else n
    ensures claimed + loose == (if k != 0 then k else 1) * n
  {
  }

  function TimesShown(claims: seq<Claim>, id: string): nat {
    if HasClaim(claims, id) then ClaimsWith(claims, id) else 1
  }

  // How often a finding is shown, for any claims at all: once for each claim with its id, and
  // once if there is none.
  lemma FindingIsShown(claims: seq<Claim>, findings: seq<Finding>, f: Finding)
    ensures multiset(Shown(PagesOf(claims, findings)))[f] == TimesShown(claims, f.claimId) * multiset(findings)[f]
  {
    ClaimPagesCount(claims, findings, f);
    LoosePagesCount(claims, findings, f);
    ShownInTwoParts(claims, findings, f);
    NoClaimsWith(claims, f.claimId);
    InTotal(multiset(Shown(ClaimPages(claims, findings)))[f], multiset(Shown(LoosePages(claims, findings)))[f],
            ClaimsWith(claims, f.claimId), multiset(findings)[f]);
  }

  // The pages show every finding exactly once if and only if no finding is claimed twice.
  lemma PagesConserveFindingsIff(claims: seq<Claim>, findings: seq<Finding>)
    ensures multiset(Shown(PagesOf(claims, findings))) == multiset(findings)
       <==> forall f :: f in findings ==> ClaimsWith(claims, f.claimId) <= 1
  {
    forall f ensures multiset(Shown(PagesOf(claims, findings)))[f]
                  == TimesShown(claims, f.claimId) * multiset(findings)[f] {
      FindingIsShown(claims, findings, f);
    }
    forall f | f in findings
      ensures multiset(Shown(PagesOf(claims, findings)))[f] == multiset(findings)[f] <==>
        ClaimsWith(claims, f.claimId) <= 1
    {
      NoClaimsWith(claims, f.claimId);
      OnlyOneKeeps(multiset(findings)[f], TimesShown(claims, f.claimId));
    }
    if forall f :: f in findings ==> ClaimsWith(claims, f.claimId) <= 1 {
      forall f ensures multiset(Shown(PagesOf(claims, findings)))[f] == multiset(findings)[f] {
        if f !in findings {
          assert multiset(findings)[f] == 0;
        }
      }
    }
  }

  lemma OnlyOneKeeps(n: nat, k: nat)
    requires n > 0 && k > 0
    ensures k * n == n <==> k <= 1
  {
    if k > 1 {
      assert k * n >= 2 * n;
    }
  }

  lemma {:induction false} DistinctMeansOne(claims: seq<Claim>, id: string)
    requires DistinctClaims(claims)
    ensures ClaimsWith(claims, id) <= 1
  {
    if claims != [] {
      var front, last := claims[..|claims| - 1], claims[|claims| - 1];
      DistinctMeansOne(front, id);
      if last.id == id {
        NoClaimsWith(front, id);
      }
    }
  }

  // What the validators accept has distinct claims, so its pages conserve the findings, keep the
  // claims in order, one page each and first, and number claims plus unmatched findings.
  lemma ValidPagesConserve(claims: seq<Claim>, findings: seq<Finding>)
    requires DistinctClaims(claims)
    ensures multiset(Shown(PagesOf(claims, findings))) == multiset(findings)
    ensures |PagesOf(claims, findings)| == |claims| + |LoosePages(claims, findings)|
    ensures forall i :: 0 <= i < |claims| ==>
      PagesOf(claims, findings)[i] == Page(Some(claims[i]), Matching(findings, claims[i].id))
    ensures forall i :: |claims| <= i < |PagesOf(claims, findings)| ==> PagesOf(claims, findings)[i].claim.None?
  {
    forall f | f in findings ensures ClaimsWith(claims, f.claimId) <= 1 {
      DistinctMeansOne(claims, f.claimId);
    }
    PagesConserveFindingsIff(claims, findings);
    ClaimPageAt(claims, findings);
    LooseHaveNoClaim(claims, findings);
  }

  lemma {:induction false} ClaimPageAt(claims: seq<Claim>, findings: seq<Finding>)
    ensures |ClaimPages(claims, findings)| == |claims|
    ensures forall i :: 0 <= i < |claims| ==>
      ClaimPages(claims, findings)[i] == Page(Some(claims[i]), Matching(findings, claims[i].id))
  {
    if claims != [] {
      ClaimPageAt(claims[..|claims| - 1], findings);
    }
  }

  lemma {:induction false} LooseHaveNoClaim(claims: seq<Claim>, findings: seq<Finding>)
    ensures forall p :: p in LoosePages(claims, findings) ==> p.claim.None?
    ensures (forall f :: f in findings ==> HasClaim(claims, f.claimId)) ==> LoosePages(claims, findings) == []
  {
    if findings != [] {
      LooseHaveNoClaim(claims, findings[..|findings| - 1]);
    }
  }

  // An accepted review is shown as one page per claim, with the one finding that supports it.
  lemma AcceptedPages(run: Run, snapshot: Snapshot, digest: Digest)
    requires AcceptedRun(run, snapshot, digest)
    ensures var pages := PagesOf(run.claims.value, Items(run.review.value.findings));
      |pages| == |run.claims.value| &&
      forall i :: 0 <= i < |pages| ==>
        pages[i].claim == Some(run.claims.value[i]) && |pages[i].findings| == 1 &&
        pages[i].findings[0].status.Supported?
  {
    var claims, findings := run.claims.value, Items(run.review.value.findings);
    ValidPagesConserve(claims, findings);
    forall f | f in findings ensures HasClaim(claims, f.claimId) {
      assert FindingOk(f, claims);
    }
    LooseHaveNoClaim(claims, findings);
    forall i | 0 <= i < |claims| ensures
      |Matching(findings, claims[i].id)| == 1 && Matching(findings, claims[i].id)[0].status.Supported?
    {
      AcceptedIsFullySupported(run, snapshot, digest, i);
      var j :| SupportedAt(claims[i], findings, snapshot, j);
      MatchingIsTheOne(findings, claims[i].id, j);
    }
  }

  lemma {:induction false} MatchingIsTheOne(findings: seq<Finding>, id: string, j: nat)
    requires j < |findings| && findings[j].claimId == id
    requires forall k :: 0 <= k < |findings| && findings[k].claimId == id ==> k == j
    ensures Matching(findings, id) == [findings[j]]
  {
    var front := findings[..|findings| - 1];
    if j < |front| {
      MatchingIsTheOne(front, id, j);
    } else {
      MatchingNone(front, id);
    }
  }

  lemma {:induction false} MatchingNone(findings: seq<Finding>, id: string)
    requires forall k :: 0 <= k < |findings| ==> findings[k].claimId != id
    ensures Matching(findings, id) == []
  {
    if findings != [] {
      MatchingNone(findings[..|findings| - 1], id);
    }
  }

  // ---------------------------------------------------------------- lines

  function Joined(chunks: seq<string>): string {
    if chunks == [] then "" else Joined(chunks[..|chunks| - 1]) + chunks[|chunks| - 1]
  }

  // A limit below one counts as one, so the loop always advances.
  function Width(i: int, firstLimit: int, remainingLimit: int): int {
    var limit := if i == 0 then firstLimit else remainingLimit;
    if limit < 1 then 1 else limit
  }

  // Lines of their widths, the last one perhaps shorter.
  predicate Fits(chunks: seq<string>, full: bool, firstLimit: int, remainingLimit: int) {
    forall i :: 0 <= i < |chunks| ==>
      0 < |chunks[i]| <= Width(i, firstLimit, remainingLimit) &&
      (i < |chunks| - 1 || full ==> |chunks[i]| == Width(i, firstLimit, remainingLimit))
  }

  lemma OneMoreLine(chunks: seq<string>, line: string)
    ensures Joined(chunks + [line]) == Joined(chunks) + line
  {
    assert (chunks + [line])[..|chunks|] == chunks;
  }

  // The lines a value is cut into lose nothing of it, fit their widths, and only the last one
  // may be shorter than its width.
  method RuneChunks(value: string, firstLimit: int, remainingLimit: int) returns (chunks: seq<string>)
    ensures Joined(chunks) == GoTrim(value)
    ensures Fits(chunks, false, firstLimit, remainingLimit)
  {
    chunks := Cut(GoTrim(value), firstLimit, remainingLimit);
  }

  method Cut(text: string, firstLimit: int, remainingLimit: int) returns (chunks: seq<string>)
    ensures Joined(chunks) == text
    ensures Fits(chunks, false, firstLimit, remainingLimit)
  {
    var remaining := text;
    chunks := [];
    var limit := if firstLimit < 1 then 1 else firstLimit;
    ghost var done := 0;
    while |remaining| > 0
      invariant 0 <= done <= |text| && Joined(chunks) == text[..done] && remaining == text[done..]
      invariant limit == Width(|chunks|, firstLimit, remainingLimit)
      invariant Fits(chunks, remaining != "", firstLimit, remainingLimit)
      decreases |remaining|
    {
      var count := if limit < |remaining| then limit else |remaining|;
      var line := remaining[..count];
      OneMoreCut(text, done, count);
      OneMoreLine(chunks, line);
      OneMoreFits(chunks, line, count < |remaining|, firstLimit, remainingLimit);
      chunks := chunks + [line];
      remaining := remaining[count..];
      done := done + count;
      limit := if remainingLimit < 1 then 1 else remainingLimit;
    }
  }

  lemma OneMoreCut(text: string, done: nat, count: nat)
    requires done + count <= |text|
    ensures text[..done] + text[done..][..count] == text[..done + count]
    ensures text[done..][count..] == text[done + count..]
  {
  }

  lemma OneMoreFits(chunks: seq<string>, line: string, full: bool, firstLimit: int, remainingLimit: int)
    requires Fits(chunks, true, firstLimit, remainingLimit) && 0 < |line| <= Width(|chunks|, firstLimit, remainingLimit)
    requires full ==> |line| == Width(|chunks|, firstLimit, remainingLimit)
    ensures Fits(chunks + [line], full, firstLimit, remainingLimit)
  {
  }

  // ---------------------------------------------------------------- the newest lineage

  // What the choice looks at: the id, the time a run counts for, and whether it carries evidence
  // the caller asks for.
  datatype Candidate = Candidate(id: string, time: int, matches: bool)

  predicate Newer(a: Candidate, b: Candidate) {
    a.time > b.time || (a.time == b.time && Before(b.id, a.id))
  }

  ghost predicate Newest(runs: seq<Candidate>, c: Candidate) {
    c in runs && c.matches && forall r :: r in runs && r.matches ==> !Newer(r, c)
  }

  lemma NewerIsTransitive(runs: seq<Candidate>, selected: Candidate, candidate: Candidate)
    requires Newest(runs, selected) && Newer(candidate, selected)
    ensures forall r :: r in runs && r.matches ==> !Newer(r, candidate)
  {
    forall r | r in runs && r.matches ensures !Newer(r, candidate) {
      if Newer(r, candidate) && Before(selected.id, candidate.id) && Before(candidate.id, r.id) {
        BeforeIsTransitive(selected.id, candidate.id, r.id);
      }
    }
  }

  method LatestEvidenceLineage(runs: seq<Candidate>) returns (selected: Option<Candidate>)
    ensures selected.None? <==> forall r :: r in runs ==> !r.matches
    ensures selected.Some? ==> Newest(runs, selected.value)
  {
    selected := None;
    for i := 0 to |runs|
      invariant selected.None? <==> forall r :: r in runs[..i] ==> !r.matches
      invariant selected.Some? ==> Newest(runs[..i], selected.value)
    {
      var candidate := runs[i];
      assert runs[..i + 1] == runs[..i] + [candidate];
      if !candidate.matches {
        continue;
      }
      if selected.Some? && Newer(candidate, selected.value) {
        NewerIsTransitive(runs[..i], selected.value, candidate);
      }
      BeforeIsTotal(candidate.id, candidate.id);
      if selected.None? || candidate.time > selected.value.time ||
         (candidate.time == selected.value.time && Before(selected.value.id, candidate.id)) {
        selected := Some(candidate);
      }
    }
    assert runs[..|runs|] == runs;
  }

  // The order in which the runs are listed does not matter for which one is chosen.
  lemma NewestIsUnique(runs: seq<Candidate>, runs': seq<Candidate>, a: Candidate, b: Candidate)
    requires multiset(runs) == multiset(runs') && Newest(runs, a) && Newest(runs', b)
    ensures a.id == b.id && a.time == b.time
  {
    assert a in multiset(runs') && b in multiset(runs);
    BeforeIsTotal(a.id, b.id);
  }
}
