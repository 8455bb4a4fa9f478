/**
 * The outcome store: a spreadsheet with an "Approved" and a "Rejected" tab.
 * Each tab is a sequence of rows of cells; its first row is the header. The
 * set of links already seen is read from the link column of both tabs, and
 * every verdict appends one row to one tab.
 *
 * Authentication and the spreadsheet service are not modelled: a client holds
 * the two tabs' rows in memory.
 */
module Sheets {

  type Row = seq<string>

  /** The 1-based column that holds a listing's link (column E). */
  const LinkCol: nat := 5

  /** Header row of the "Approved" tab. */
  const ApprovedHeaders: Row := [
    "Title", "Price", "Sqft", "Address/Neighborhood", "Link",
    "Date Found", "Est. Monthly Cost", "Suitability Score",
    "AI Notes", "Followed Up?", "Who", "Notes"]

  /** Header row of the "Rejected" tab. */
  const RejectedHeaders: Row := [
    "Title", "Price", "Sqft", "Address/Neighborhood", "Link",
    "Date Found", "Est. Monthly Cost", "Suitability Score",
    "Rejection Reason", "Reviewed By", "Notes"]

  /** The value in a 1-based column; a cell past the end of the row reads as blank. */
  function Cell(row: Row, col: nat): string
    requires col >= 1
  {
    if col <= |row| then row[col - 1] else ""
  }

  /** All values of one column, top to bottom, header first. */
  function ColumnValues(rows: seq<Row>, col: nat): seq<string>
    requires col >= 1
  {
    seq(|rows|, i requires 0 <= i < |rows| => Cell(rows[i], col))
  }

  /** A column without its header cell. */
  function BelowHeader(col: seq<string>): seq<string> {
    if |col| == 0 then [] else col[1..]
  }

  /** The distinct non-blank values among some cells. */
  function NonBlank(cells: seq<string>): set<string> {
    set c | c in cells && c != ""
  }

  /** The links recorded in one tab: its non-blank link cells below the header. */
  function TabLinks(rows: seq<Row>): set<string> {
    NonBlank(BelowHeader(ColumnValues(rows, LinkCol)))
  }

  /** The links recorded across several tabs. */
  function SeenIn(tabs: seq<seq<Row>>): set<string> {
    if tabs == [] then {} else SeenIn(tabs[..|tabs| - 1]) + TabLinks(tabs[|tabs| - 1])
  }

  lemma SeenInStep(tabs: seq<seq<Row>>, t: nat)
    requires t < |tabs|
    ensures SeenIn(tabs[..t + 1]) == SeenIn(tabs[..t]) + TabLinks(tabs[t])
  {
    assert tabs[..t + 1][..t] == tabs[..t];
  }

  /** Reading the two tabs in turn collects the links of each. */
  lemma SeenInPair(approved: seq<Row>, rejected: seq<Row>)
    ensures SeenIn([approved, rejected]) == TabLinks(approved) + TabLinks(rejected)
  {
    var tabs := [approved, rejected];
    assert tabs[..|tabs| - 1] == [approved];
    assert [approved][..0] == [];
    assert SeenIn([approved]) == SeenIn([]) + TabLinks(approved);
    assert SeenIn(tabs) == SeenIn([approved]) + TabLinks(rejected);
  }

  lemma NonBlankStep(cells: seq<string>, j: nat)
    requires j < |cells|
    ensures NonBlank(cells[..j + 1]) == NonBlank(cells[..j]) + (if cells[j] != "" then {cells[j]} else {})
  {
  }

  /**
   * A link is recorded in a tab exactly when some row other than the first
   * holds it, non-blank, in the link column.
   */
  lemma TabLinksIff(rows: seq<Row>, link: string)
    ensures link in TabLinks(rows) <==>
      link != "" && exists i :: 1 <= i < |rows| && Cell(rows[i], LinkCol) == link
  {
    var col := ColumnValues(rows, LinkCol);
    if link in TabLinks(rows) {
      var j :| 0 <= j < |BelowHeader(col)| && BelowHeader(col)[j] == link;
      assert Cell(rows[j + 1], LinkCol) == link;
    }
    if link != "" && exists i :: 1 <= i < |rows| && Cell(rows[i], LinkCol) == link {
      var i :| 1 <= i < |rows| && Cell(rows[i], LinkCol) == link;
      assert BelowHeader(col)[i - 1] == link;
    }
  }

  /** Appending rows below an existing header adds exactly their non-blank links. */
  lemma TabLinksAfterAppend(rows: seq<Row>, more: seq<Row>)
    requires |rows| > 0
    ensures TabLinks(rows + more) == TabLinks(rows) + NonBlank(ColumnValues(more, LinkCol))
  {
    var c, m := ColumnValues(rows, LinkCol), ColumnValues(more, LinkCol);
    assert ColumnValues(rows + more, LinkCol) == c + m;
    assert BelowHeader(c + m) == BelowHeader(c) + m;
  }

  /** A row appended to a tab with no header becomes the header, and its link is not read. */
  lemma FirstRowIsNeverSeen(row: Row)
    ensures TabLinks([] + [row]) == {}
  {
  }

  /** The row `append_approved` writes: the nine given fields, then three blank human columns. */
  function ApprovedRow(title: string, price: string, sqft: string, address: string, link: string,
                       dateFound: string, estMonthlyCost: string, suitabilityScore: string,
                       aiNotes: string): (row: Row)
    ensures |row| == 12 && Cell(row, LinkCol) == link
  {
    [title, price, sqft, address, link, dateFound, estMonthlyCost, suitabilityScore, aiNotes,
     "", "", ""]
  }

  /** The row `append_rejected` writes: the nine given fields, then two blank human columns. */
  function RejectedRow(title: string, price: string, sqft: string, address: string, link: string,
                       dateFound: string, estMonthlyCost: string, suitabilityScore: string,
                       rejectionReason: string): (row: Row)
    ensures |row| == 11 && Cell(row, LinkCol) == link && row[8] == rejectionReason
  {
    [title, price, sqft, address, link, dateFound, estMonthlyCost, suitabilityScore, rejectionReason,
     "", ""]
  }

  /**
   * Both row layouts line up with their tab's headers: one cell per header,
   * the link under "Link", the verdict's text under "AI Notes" or "Rejection
   * Reason", and blanks under the human columns.
   */
  lemma RowLayoutsMatchHeaders(title: string, price: string, sqft: string, address: string, link: string,
                               dateFound: string, estMonthlyCost: string, suitabilityScore: string,
                               notes: string)
    ensures var a := ApprovedRow(title, price, sqft, address, link, dateFound, estMonthlyCost,
                                 suitabilityScore, notes);
            && |a| == |ApprovedHeaders| && ApprovedHeaders[LinkCol - 1] == "Link"
            && ApprovedHeaders[8] == "AI Notes" && a[8] == notes
            && ApprovedHeaders[9..] == ["Followed Up?", "Who", "Notes"] && a[9..] == ["", "", ""]
    ensures var r := RejectedRow(title, price, sqft, address, link, dateFound, estMonthlyCost,
                                 suitabilityScore, notes);
            && |r| == |RejectedHeaders| && RejectedHeaders[LinkCol - 1] == "Link"
            && RejectedHeaders[8] == "Rejection Reason" && r[8] == notes
            && RejectedHeaders[9..] == ["Reviewed By", "Notes"] && r[9..] == ["", ""]
  {
  }

  /** A client over the spreadsheet's two outcome tabs. */
  class SheetsClient {
    var approved: seq<Row>
    var rejected: seq<Row>

    /** Opening the spreadsheet: the tabs' rows as they stand. */
    constructor (approvedRows: seq<Row>, rejectedRows: seq<Row>)
      ensures approved == approvedRows && rejected == rejectedRows
    {
      approved := approvedRows;
      rejected := rejectedRows;
    }

    /** The tabs in the order they are read: "Approved", then "Rejected". */
    function Tabs(): seq<seq<Row>>
      reads this
    {
      [approved, rejected]
    }

    /** The links recorded in either tab. */
    method GetSeenUrls() returns (urls: set<string>)
      ensures urls == TabLinks(approved) + TabLinks(rejected)
    {
      var tabs := Tabs();
      urls := {};
      for t := 0 to |tabs|
        invariant urls == SeenIn(tabs[..t])
      {
        SeenInStep(tabs, t);
        var col := ColumnValues(tabs[t], LinkCol);
        var below := BelowHeader(col);
        ghost var before := urls;
        for j := 0 to |below|
          invariant urls == before + NonBlank(below[..j])
        {
          NonBlankStep(below, j);
          if below[j] != "" {
            urls := urls + {below[j]};
          }
        }
        assert below[..|below|] == below;
      }
      SeenInPair(approved, rejected);
      assert tabs[..|tabs|] == tabs;
    }

    /** Appends one row to the "Approved" tab; the "Rejected" tab is untouched. */
    method AppendApproved(title: string, price: string, sqft: string, address: string, link: string,
                          dateFound: string, estMonthlyCost: string, suitabilityScore: string,
                          aiNotes: string)
      modifies this
      ensures approved == old(approved) + [ApprovedRow(title, price, sqft, address, link, dateFound,
                                                       estMonthlyCost, suitabilityScore, aiNotes)]
      ensures rejected == old(rejected)
    {
      approved := approved + [ApprovedRow(title, price, sqft, address, link, dateFound,
                                          estMonthlyCost, suitabilityScore, aiNotes)];
    }

    /** Appends one row to the "Rejected" tab; the "Approved" tab is untouched. */
    method AppendRejected(title: string, price: string, sqft: string, address: string, link: string,
                          dateFound: string, estMonthlyCost: string, suitabilityScore: string,
                          rejectionReason: string)
      modifies this
      ensures rejected == old(rejected) + [RejectedRow(title, price, sqft, address, link, dateFound,
                                                       estMonthlyCost, suitabilityScore, rejectionReason)]
      ensures approved == old(approved)
    {
      rejected := rejected + [RejectedRow(title, price, sqft, address, link, dateFound,
                                          estMonthlyCost, suitabilityScore, rejectionReason)];
    }
  }

  /**
   * Read after write: once a row with a non-blank link is appended below the
   * header of either tab, the link is among the seen links, and every link
   * seen before still is.
   */
  lemma AppendedLinkIsSeen(approved: seq<Row>, rejected: seq<Row>, row: Row, toApproved: bool)
    requires |(if toApproved then approved else rejected)| > 0
    requires Cell(row, LinkCol) != ""
    ensures var approved' := if toApproved then approved + [row] else approved;
            var rejected' := if toApproved then rejected else rejected + [row];
            TabLinks(approved') + TabLinks(rejected')
              == TabLinks(approved) + TabLinks(rejected) + {Cell(row, LinkCol)}
  {
    var m := ColumnValues([row], LinkCol);
    assert m == [Cell(row, LinkCol)];
    assert NonBlank(m) == {Cell(row, LinkCol)};
    if toApproved {
      TabLinksAfterAppend(approved, [row]);
    } else {
      TabLinksAfterAppend(rejected, [row]);
    }
  }
}
