/**
 * One run of the pipeline: read the seen links, concatenate the three
 * sources' listings, drop the seen ones, drop the located ones outside the
 * search box, review each remaining candidate in order, append each verdict
 * to its tab, and report the counts.
 *
 * The scrapers, the secrets fetch, the clock and the language model are
 * inputs: the three sources' listings, today's date as text, and `ask`,
 * which gives the model's reply to the i-th request (numbered from 0) with a
 * given user content.
 */
module Handler {
  import opened Wrappers
  import opened Models
  import opened Geo
  import opened Reviewer
  import opened Sheets

  /** The search centre (degrees) and radius (miles). */
  datatype SearchConfig = SearchConfig(centerLat: real, centerLng: real, radiusMiles: real)

  /** The counts a completed run reports. */
  datatype Summary = Summary(scraped: nat, newCount: nat, candidates: nat, approved: nat, rejected: nat)

  /** A run either completes, or ends with the exception a review let escape. */
  datatype RunOutcome = Completed(summary: Summary) | Failed(error: Exception)

  // ---------------------------------------------------------------------------
  // Order-preserving filtering

  /** The elements of s that keep accepts, in their original order. */
  function Filter<T>(s: seq<T>, keep: T -> bool): (r: seq<T>)
    ensures |r| <= |s|
  {
    if s == [] then []
    else Filter(s[..|s| - 1], keep) + (if keep(s[|s| - 1]) then [s[|s| - 1]] else [])
  }

  /** a is b with some elements left out, the rest in the same order. */
  predicate IsSubsequence<T(==)>(a: seq<T>, b: seq<T>)
    decreases |b|
  {
    if a == [] then true
    else if b == [] then false
    else
      || (a[|a| - 1] == b[|b| - 1] && IsSubsequence(a[..|a| - 1], b[..|b| - 1]))
      || IsSubsequence(a, b[..|b| - 1])
  }

  lemma {:induction false} FilterIsSubsequence<T>(s: seq<T>, keep: T -> bool)
    ensures IsSubsequence(Filter(s, keep), s)
  {
    if s != [] {
      var init := s[..|s| - 1];
      FilterIsSubsequence(init, keep);
      var f := Filter(init, keep);
      if keep(s[|s| - 1]) {
        var r := f + [s[|s| - 1]];
        assert r[..|r| - 1] == f;
      } else {
        assert Filter(s, keep) == f;
        if f != [] {
          assert IsSubsequence(f, init);
        }
      }
    }
  }

  /** Each element occurs in the result as often as in s if keep accepts it, and never otherwise. */
  lemma {:induction false} FilterCounts<T>(s: seq<T>, keep: T -> bool, x: T)
    ensures multiset(Filter(s, keep))[x] == if keep(x) then multiset(s)[x] else 0
  {
    if s != [] {
      var init := s[..|s| - 1];
      FilterCounts(init, keep, x);
      assert s == init + [s[|s| - 1]];
    }
  }

  lemma FilterMembership<T>(s: seq<T>, keep: T -> bool, x: T)
    ensures x in Filter(s, keep) <==> x in s && keep(x)
  {
    FilterCounts(s, keep, x);
  }

  /** Filtering a concatenation filters each part. */
  lemma {:induction false} FilterOfConcat<T>(a: seq<T>, b: seq<T>, keep: T -> bool)
    ensures Filter(a + b, keep) == Filter(a, keep) + Filter(b, keep)
  {
    if b == [] {
      assert a + b == a;
    } else {
      var init := b[..|b| - 1];
      FilterOfConcat(a, init, keep);
      assert (a + b)[..|a + b| - 1] == a + init;
    }
  }

  // ---------------------------------------------------------------------------
  // Deduplication and the geofilter

  /** The listings whose key is not among the seen links, in order. */
  function NewListings(all: seq<Listing>, seen: set<string>): seq<Listing> {
    Filter(all, (l: Listing) => l.UniqueKey() !in seen)
  }

  /** A listing with both coordinates. */
  predicate Located(l: Listing) {
    l.lat.Some? && l.lng.Some?
  }

  /** A listing survives the geofilter unless it is located outside the box. */
  predicate InSearchArea(l: Listing, cfg: SearchConfig, cos: real -> real)
    requires cos(cfg.centerLat) != 0.0
  {
    Located(l) ==> IsWithinRadius(l.lat.value, l.lng.value, cfg.centerLat, cfg.centerLng, cfg.radiusMiles, cos)
  }

  /** The new listings that survive the geofilter, in order. */
  function Candidates(news: seq<Listing>, cfg: SearchConfig, cos: real -> real): seq<Listing>
    requires cos(cfg.centerLat) != 0.0
  {
    Filter(news, (l: Listing) => InSearchArea(l, cfg, cos))
  }

  /**
   * A listing is new exactly when it was scraped and its link is unseen; the
   * new listings keep their order and every copy of an unseen link, so two
   * listings with one link both survive.
   */
  lemma NewListingsSpec(all: seq<Listing>, seen: set<string>, l: Listing)
    ensures l in NewListings(all, seen) <==> l in all && l.link !in seen
    ensures multiset(NewListings(all, seen))[l] == if l.link in seen then 0 else multiset(all)[l]
    ensures IsSubsequence(NewListings(all, seen), all)
  {
    var keep := (l: Listing) => l.UniqueKey() !in seen;
    FilterCounts(all, keep, l);
    FilterIsSubsequence(all, keep);
  }

  /**
   * Deduplication is only against the links seen before the run: the sources'
   * listings are filtered one by one, never against each other.
   */
  lemma NoDedupeWithinRun(a: seq<Listing>, b: seq<Listing>, c: seq<Listing>, seen: set<string>)
    ensures NewListings(a + b + c, seen) == NewListings(a, seen) + NewListings(b, seen) + NewListings(c, seen)
  {
    var keep := (l: Listing) => l.UniqueKey() !in seen;
    FilterOfConcat(a + b, c, keep);
    FilterOfConcat(a, b, keep);
  }

  /**
   * A new listing is a candidate exactly when it lacks a coordinate or lies
   * in the box; candidates keep the order of the new listings.
   */
  lemma CandidatesSpec(news: seq<Listing>, cfg: SearchConfig, cos: real -> real, l: Listing)
    requires cos(cfg.centerLat) != 0.0
    ensures l in Candidates(news, cfg, cos) <==>
      l in news && (!Located(l) ||
        IsWithinRadius(l.lat.value, l.lng.value, cfg.centerLat, cfg.centerLng, cfg.radiusMiles, cos))
    ensures IsSubsequence(Candidates(news, cfg, cos), news)
  {
    var keep := (l: Listing) => InSearchArea(l, cfg, cos);
    FilterMembership(news, keep, l);
    FilterIsSubsequence(news, keep);
  }

  /** No listing whose link was seen reaches review, and the counts shrink stage by stage. */
  lemma SelectionNarrows(all: seq<Listing>, seen: set<string>, cfg: SearchConfig, cos: real -> real)
    requires cos(cfg.centerLat) != 0.0
    ensures var news := NewListings(all, seen);
            var cands := Candidates(news, cfg, cos);
            && |cands| <= |news| <= |all|
            && forall l :: l in cands ==> l in all && l.link !in seen
  {
    var news := NewListings(all, seen);
    forall l | l in Candidates(news, cfg, cos) ensures l in all && l.link !in seen {
      CandidatesSpec(news, cfg, cos, l);
      NewListingsSpec(all, seen, l);
    }
  }

  // ---------------------------------------------------------------------------
  // Review and routing

  /**
   * The review of the i-th candidate (numbered from 0): the model is asked
   * with that listing's content and its reply is mapped to a verdict.
   */
  function Reviewing(ask: (nat, string) -> Reply): (nat, Listing) -> Outcome {
    (i: nat, l: Listing) => ReviewReply(ask(i, UserContent(l)))
  }

  /** The "Approved" row for a listing and its verdict; the score is written as `str` writes it. */
  function ApprovedRowFor(l: Listing, r: ReviewResult, today: string): Row {
    ApprovedRow(l.title, l.price, l.sqft, l.address, l.link, today,
                r.estMonthlyCost, IntToString(r.suitabilityScore), r.reasoning)
  }

  /** The "Rejected" row for a listing and its verdict. */
  function RejectedRowFor(l: Listing, r: ReviewResult, today: string): Row {
    RejectedRow(l.title, l.price, l.sqft, l.address, l.link, today,
                r.estMonthlyCost, IntToString(r.suitabilityScore), r.reasoning)
  }

  /** The rows a run appends to each tab, and the exception that stopped it, if any. */
  datatype Run = Run(approvedRows: seq<Row>, rejectedRows: seq<Row>, failure: Option<Exception>)

  /**
   * Reviewing the candidates in order: each verdict adds one row to its own
   * tab, and the first escaping exception stops the run. A completed run
   * wrote one row per candidate; a failed one stopped at a verdict that
   * raised.
   */
  function Route(cands: seq<Listing>, decide: (nat, Listing) -> Outcome, today: string): (run: Run)
    ensures |run.approvedRows| + |run.rejectedRows| <= |cands|
    ensures run.failure.None? ==> |run.approvedRows| + |run.rejectedRows| == |cands|
    ensures run.failure.Some? ==> exists i :: 0 <= i < |cands| && decide(i, cands[i]) == Raised(run.failure.value)
  {
    if cands == [] then Run([], [], None)
    else
      var prior := Route(cands[..|cands| - 1], decide, today);
      var i := |cands| - 1;
      if prior.failure.Some? then prior
      else
        match decide(i, cands[i])
        case Raised(e) => prior.(failure := Some(e))
        case Reviewed(r) =>
          if r.approved then prior.(approvedRows := prior.approvedRows + [ApprovedRowFor(cands[i], r, today)])
          else prior.(rejectedRows := prior.rejectedRows + [RejectedRowFor(cands[i], r, today)])
  }

  /** Once a prefix of the candidates has failed, the rest are never reviewed. */
  lemma {:induction false} RouteStopsAtFailure(cands: seq<Listing>, k: nat, decide: (nat, Listing) -> Outcome,
                                               today: string)
    requires k <= |cands| && Route(cands[..k], decide, today).failure.Some?
    ensures Route(cands, decide, today) == Route(cands[..k], decide, today)
  {
    if k < |cands| {
      var init := cands[..|cands| - 1];
      assert init[..k] == cands[..k];
      RouteStopsAtFailure(init, k, decide, today);
    } else {
      assert cands[..k] == cands;
    }
  }

  /**
   * Reviewing one more candidate after a prefix that completed either stops
   * the run with that review's exception, or adds exactly that candidate's
   * row to the tab of its verdict and leaves the other tab as it was.
   */
  lemma RouteExtends(cands: seq<Listing>, i: nat, decide: (nat, Listing) -> Outcome, today: string)
    requires i < |cands| && Route(cands[..i], decide, today).failure.None?
    ensures var prior := Route(cands[..i], decide, today);
            var run := Route(cands[..i + 1], decide, today);
            var o := decide(i, cands[i]);
            && (o.Raised? ==> run == prior.(failure := Some(o.error)))
            && (o.Reviewed? && o.result.approved ==>
                  run == prior.(approvedRows := prior.approvedRows + [ApprovedRowFor(cands[i], o.result, today)]))
            && (o.Reviewed? && !o.result.approved ==>
                  run == prior.(rejectedRows := prior.rejectedRows + [RejectedRowFor(cands[i], o.result, today)]))
  {
    assert cands[..i + 1][..i] == cands[..i];
  }

  /**
   * In a completed run each candidate's verdict lands in its own tab: an
   * approval as an "Approved" row, a rejection as a "Rejected" row.
   */
  lemma {:induction false} EachVerdictInItsTab(cands: seq<Listing>, decide: (nat, Listing) -> Outcome,
                                               today: string, i: nat)
    requires i < |cands| && Route(cands, decide, today).failure.None?
    ensures decide(i, cands[i]).Reviewed?
    ensures var run := Route(cands, decide, today);
            var r := decide(i, cands[i]).result;
            && (r.approved ==> ApprovedRowFor(cands[i], r, today) in run.approvedRows)
            && (!r.approved ==> RejectedRowFor(cands[i], r, today) in run.rejectedRows)
  {
    var init := cands[..|cands| - 1];
    if i < |cands| - 1 {
      assert init[i] == cands[i];
      EachVerdictInItsTab(init, decide, today, i);
    }
  }

  /** Every row a run writes is the row of some candidate whose verdict belongs in that tab. */
  lemma {:induction false} RowsComeFromVerdicts(cands: seq<Listing>, decide: (nat, Listing) -> Outcome,
                                                today: string, row: Row)
    ensures var run := Route(cands, decide, today);
      && (row in run.approvedRows ==>
            exists i :: 0 <= i < |cands| && decide(i, cands[i]).Reviewed? && decide(i, cands[i]).result.approved
              && row == ApprovedRowFor(cands[i], decide(i, cands[i]).result, today))
      && (row in run.rejectedRows ==>
            exists i :: 0 <= i < |cands| && decide(i, cands[i]).Reviewed? && !decide(i, cands[i]).result.approved
              && row == RejectedRowFor(cands[i], decide(i, cands[i]).result, today))
  {
    if cands != [] {
      var init := cands[..|cands| - 1];
      RowsComeFromVerdicts(init, decide, today, row);
      forall j | 0 <= j < |init| ensures init[j] == cands[j] { }
    }
  }

  /** All rows of a run carry the run's date, and each tab's rows have that tab's width. */
  lemma RowsShareTheRunDate(cands: seq<Listing>, decide: (nat, Listing) -> Outcome, today: string)
    ensures forall row :: row in Route(cands, decide, today).approvedRows ==> |row| == 12 && row[5] == today
    ensures forall row :: row in Route(cands, decide, today).rejectedRows ==> |row| == 11 && row[5] == today
  {
    var run := Route(cands, decide, today);
    forall row | row in run.approvedRows ensures |row| == 12 && row[5] == today {
      ApprovedRowDated(cands, decide, today, row);
    }
    forall row | row in run.rejectedRows ensures |row| == 11 && row[5] == today {
      RejectedRowDated(cands, decide, today, row);
    }
  }

  lemma RowsForCarryDate(l: Listing, r: ReviewResult, today: string)
    ensures |ApprovedRowFor(l, r, today)| == 12 && ApprovedRowFor(l, r, today)[5] == today
    ensures |RejectedRowFor(l, r, today)| == 11 && RejectedRowFor(l, r, today)[5] == today
  {
  }

  lemma ApprovedRowDated(cands: seq<Listing>, decide: (nat, Listing) -> Outcome, today: string, row: Row)
    requires row in Route(cands, decide, today).approvedRows
    ensures |row| == 12 && row[5] == today
  {
    RowsComeFromVerdicts(cands, decide, today, row);
    var i :| 0 <= i < |cands| && decide(i, cands[i]).Reviewed? && decide(i, cands[i]).result.approved
      && row == ApprovedRowFor(cands[i], decide(i, cands[i]).result, today);
    RowsForCarryDate(cands[i], decide(i, cands[i]).result, today);
  }

  lemma RejectedRowDated(cands: seq<Listing>, decide: (nat, Listing) -> Outcome, today: string, row: Row)
    requires row in Route(cands, decide, today).rejectedRows
    ensures |row| == 11 && row[5] == today
  {
    RowsComeFromVerdicts(cands, decide, today, row);
    var i :| 0 <= i < |cands| && decide(i, cands[i]).Reviewed? && !decide(i, cands[i]).result.approved
      && row == RejectedRowFor(cands[i], decide(i, cands[i]).result, today);
    RowsForCarryDate(cands[i], decide(i, cands[i]).result, today);
  }

  /** The score cell of either row reads back, through `int`, as the verdict's score. */
  lemma ScoreCellReadsBack(l: Listing, r: ReviewResult, today: string)
    requires WithinDigitLimit(r.suitabilityScore)
    ensures ParseInt(ApprovedRowFor(l, r, today)[7]) == Ok(r.suitabilityScore)
    ensures ParseInt(RejectedRowFor(l, r, today)[7]) == Ok(r.suitabilityScore)
  {
    ParseIntOfIntToString(r.suitabilityScore);
  }

  // ---------------------------------------------------------------------------
  // The run

  /** The geofilter loop: keeps each new listing unless it is located outside the box. */
  method SelectCandidates(newListings: seq<Listing>, cfg: SearchConfig, cos: real -> real)
    returns (candidates: seq<Listing>)
    requires cos(cfg.centerLat) != 0.0
    ensures candidates == Candidates(newListings, cfg, cos)
  {
    candidates := [];
    for i := 0 to |newListings|
      invariant candidates == Candidates(newListings[..i], cfg, cos)
    {
      assert newListings[..i + 1][..i] == newListings[..i];
      var listing := newListings[i];
      if listing.lat.Some? && listing.lng.Some? {
        if !IsWithinRadius(listing.lat.value, listing.lng.value, cfg.centerLat, cfg.centerLng,
                           cfg.radiusMiles, cos) {
          continue;
        }
      }
      candidates := candidates + [listing];
    }
    assert newListings[..|newListings|] == newListings;
  }

  /**
   * The review loop: reviews each candidate in order and appends its verdict
   * to its tab, counting both; an exception from a review stops the loop and
   * is returned.
   */
  method ReviewCandidates(sheets: SheetsClient, candidates: seq<Listing>, today: string,
                          review: (nat, Listing) -> Outcome)
    returns (approvedCount: nat, rejectedCount: nat, failure: Option<Exception>)
    modifies sheets
    ensures var run := Route(candidates, review, today);
            && sheets.approved == old(sheets.approved) + run.approvedRows
            && sheets.rejected == old(sheets.rejected) + run.rejectedRows
            && failure == run.failure
            && (failure.None? ==> approvedCount == |run.approvedRows| && rejectedCount == |run.rejectedRows|)
  {
    approvedCount, rejectedCount := 0, 0;
    for i := 0 to |candidates|
      invariant Route(candidates[..i], review, today).failure.None?
      invariant sheets.approved == old(sheets.approved) + Route(candidates[..i], review, today).approvedRows
      invariant sheets.rejected == old(sheets.rejected) + Route(candidates[..i], review, today).rejectedRows
      invariant approvedCount == |Route(candidates[..i], review, today).approvedRows|
      invariant rejectedCount == |Route(candidates[..i], review, today).rejectedRows|
    {
      var listing := candidates[i];
      var outcome := review(i, listing);
      RouteExtends(candidates, i, review, today);
      if outcome.Raised? {
        RouteStopsAtFailure(candidates, i + 1, review, today);
        return approvedCount, rejectedCount, Some(outcome.error);
      }
      var result := outcome.result;
      if result.approved {
        sheets.AppendApproved(listing.title, listing.price, listing.sqft, listing.address, listing.link,
                              today, result.estMonthlyCost, IntToString(result.suitabilityScore),
                              result.reasoning);
        approvedCount := approvedCount + 1;
      } else {
        sheets.AppendRejected(listing.title, listing.price, listing.sqft, listing.address, listing.link,
                              today, result.estMonthlyCost, IntToString(result.suitabilityScore),
                              result.reasoning);
        rejectedCount := rejectedCount + 1;
      }
    }
    assert candidates[..|candidates|] == candidates;
    failure := None;
  }

  /**
   * One invocation. The seen links are read once, before any review, and the
   * tabs afterwards hold the rows the routing of the candidates gives. A
   * completed run reports the five counts; a run stopped by an escaping
   * exception keeps the rows it had already appended.
   */
  method LambdaHandler(sheets: SheetsClient, craigslist: seq<Listing>, loopnet: seq<Listing>,
                       commercialCafe: seq<Listing>, cfg: SearchConfig, cos: real -> real,
                       today: string, ask: (nat, string) -> Reply)
    returns (outcome: RunOutcome)
    requires cos(cfg.centerLat) != 0.0
    modifies sheets
    ensures var all := craigslist + loopnet + commercialCafe;
            var news := NewListings(all, TabLinks(old(sheets.approved)) + TabLinks(old(sheets.rejected)));
            var cands := Candidates(news, cfg, cos);
            var run := Route(cands, Reviewing(ask), today);
            && sheets.approved == old(sheets.approved) + run.approvedRows
            && sheets.rejected == old(sheets.rejected) + run.rejectedRows
            && (run.failure.None? ==> outcome == Completed(Summary(|all|, |news|, |cands|,
                                                                |run.approvedRows|, |run.rejectedRows|)))
            && (run.failure.Some? ==> outcome == Failed(run.failure.value))
  {
    var seenUrls := sheets.GetSeenUrls();

    var allListings := craigslist;
    allListings := allListings + loopnet;
    allListings := allListings + commercialCafe;

    var newListings := NewListings(allListings, seenUrls);
    var candidates := SelectCandidates(newListings, cfg, cos);

    var approvedCount, rejectedCount, failure := ReviewCandidates(sheets, candidates, today, Reviewing(ask));
    if failure.Some? {
      return Failed(failure.value);
    }
    outcome := Completed(Summary(|allListings|, |newListings|, |candidates|, approvedCount, rejectedCount));
  }

  // ---------------------------------------------------------------------------
  // Re-running

  /** A link written in one of the appended rows is read back from them. */
  lemma AppendedRowLinkRead(rows: seq<Row>, row: Row)
    requires row in rows && Cell(row, LinkCol) != ""
    ensures Cell(row, LinkCol) in NonBlank(ColumnValues(rows, LinkCol))
  {
    var j :| 0 <= j < |rows| && rows[j] == row;
    assert ColumnValues(rows, LinkCol)[j] == Cell(row, LinkCol);
  }

  /**
   * After a completed run, the link of every candidate with a non-blank link
   * is among the seen links, provided both tabs had their header row.
   */
  lemma CompletedRunRecordsCandidates(approved: seq<Row>, rejected: seq<Row>, cands: seq<Listing>,
                                      decide: (nat, Listing) -> Outcome, today: string, l: Listing)
    requires |approved| > 0 && |rejected| > 0
    requires Route(cands, decide, today).failure.None?
    requires l in cands && l.link != ""
    ensures var run := Route(cands, decide, today);
            l.link in TabLinks(approved + run.approvedRows) + TabLinks(rejected + run.rejectedRows)
  {
    var run := Route(cands, decide, today);
    TabLinksAfterAppend(approved, run.approvedRows);
    TabLinksAfterAppend(rejected, run.rejectedRows);
    var i :| 0 <= i < |cands| && cands[i] == l;
    EachVerdictInItsTab(cands, decide, today, i);
    var r := decide(i, l).result;
    if r.approved {
      AppendedRowLinkRead(run.approvedRows, ApprovedRowFor(l, r, today));
    } else {
      AppendedRowLinkRead(run.rejectedRows, RejectedRowFor(l, r, today));
    }
  }

  /** Reading the tabs after appending to them loses no link that was seen before. */
  lemma SeenLinksOnlyGrow(approved: seq<Row>, rejected: seq<Row>, moreApproved: seq<Row>, moreRejected: seq<Row>)
    ensures TabLinks(approved) + TabLinks(rejected)
         <= TabLinks(approved + moreApproved) + TabLinks(rejected + moreRejected)
  {
    if |approved| > 0 { TabLinksAfterAppend(approved, moreApproved); }
    if |rejected| > 0 { TabLinksAfterAppend(rejected, moreRejected); }
  }

  /**
   * Idempotence: when both tabs have their header row and every scraped
   * link is non-blank, a second run over the same listings, after a first
   * run that completed, has no candidates.
   */
  lemma SecondRunHasNoCandidates(approved: seq<Row>, rejected: seq<Row>, all: seq<Listing>,
                                 cfg: SearchConfig, cos: real -> real,
                                 decide: (nat, Listing) -> Outcome, today: string)
    requires cos(cfg.centerLat) != 0.0
    requires |approved| > 0 && |rejected| > 0
    requires forall l :: l in all ==> l.link != ""
    requires Route(Candidates(NewListings(all, TabLinks(approved) + TabLinks(rejected)), cfg, cos),
                   decide, today).failure.None?
    ensures var cands := Candidates(NewListings(all, TabLinks(approved) + TabLinks(rejected)), cfg, cos);
            var run := Route(cands, decide, today);
            var seenAfter := TabLinks(approved + run.approvedRows) + TabLinks(rejected + run.rejectedRows);
            Candidates(NewListings(all, seenAfter), cfg, cos) == []
  {
    var seen := TabLinks(approved) + TabLinks(rejected);
    var news := NewListings(all, seen);
    var cands := Candidates(news, cfg, cos);
    var run := Route(cands, decide, today);
    var seenAfter := TabLinks(approved + run.approvedRows) + TabLinks(rejected + run.rejectedRows);
    var second := Candidates(NewListings(all, seenAfter), cfg, cos);
    if second != [] {
      var l := second[0];
      CandidatesSpec(NewListings(all, seenAfter), cfg, cos, l);
      NewListingsSpec(all, seenAfter, l);
      SeenLinksOnlyGrow(approved, rejected, run.approvedRows, run.rejectedRows);
      // Its link was unseen before the first run too, so it was a candidate then.
      NewListingsSpec(all, seen, l);
      CandidatesSpec(news, cfg, cos, l);
      CompletedRunRecordsCandidates(approved, rejected, cands, decide, today, l);
      assert false;
    }
  }
}
