# shop-seeker in Dafny

A model of the shop-seeker pipeline, which looks for workshop space. A single
invocation of the handler does the following:

1. It reads the links already recorded in the "Approved" and "Rejected" tabs of
   a spreadsheet.
2. It concatenates the listings of three sources.
3. It drops every listing whose link was already seen.
4. It drops every located listing that falls outside a flat-earth bounding box
   around the search centre.
5. It asks a language model to review each remaining candidate in order, maps
   the reply to a verdict, and appends one row per verdict to the matching tab.
6. It reports five counts: scraped, new, candidates, approved and rejected.

The model has these modules, one per file:

- `Models` (`models.dfy`): the `Listing` record and its key.
- `Geo` (`geo.dfy`): the bounding box and the containment test, over `real`.
  The cosine of the centre latitude is passed in as a function `cos`.
- `Reviewer` (`reviewer.dfy`): the request text, and the mapping from a reply
  to a `ReviewResult` or to an escaping exception. This mapping includes the
  fallback verdict.
- `Sheets` (`sheets.dfy`): a `SheetsClient` class whose two fields hold the
  rows of the two tabs. It reads the seen links and appends rows.
- `Handler` (`handler.dfy`): the run, as methods with loops proved against
  specification functions. `NewListings` and `Candidates` specify the
  selection. `Route` specifies the review loop.
- `Wrappers` (`wrappers.dfy`): `Option` and `Result`.

The scrapers, the clock and the language model are inputs to the model:

- the three sequences of listings;
- today's date as text;
- `ask(i, content)`, the reply to the i-th review request, which carries the
  given user content.

`review_listing` catches only `JSONDecodeError`, `KeyError` and `IndexError`
(src/reviewer.py:69). The following therefore escape from the handler:

- an API failure;
- a JSON value that is not an object;
- a score that `int` refuses, which raises `ValueError` or `TypeError`.

Such a run ends as `Failed(e)`, and the rows already appended stay in place.

## Model

| member | source | states |
|---|---|---|
| Models.NewListing | src/models.py:4-14 | a listing built from the six required fields stores them unchanged, has no coordinates and an empty full text, and its key is its link |
| Models.KeyIsLinkOnly | src/models.py:16-18 | two listings have the same key exactly when they have the same link |
| Geo.BoundingBox | src/geo.py:4-15 | the box is symmetric about the centre; its half-height times 69 is the radius, and its half-width times 69·cos(centre latitude) is the radius |
| Geo.WithinRadiusIffMilesApart | src/geo.py:18-27 | for a positive cosine, a point is within the radius exactly when both its north-south and its east-west distances, on the flat-earth scale, are at most the radius |
| Geo.BoxSurroundsCentre | src/geo.py:4-15 | a positive radius gives south < centre latitude < north and west < centre longitude < east |
| Geo.CentreIsWithinRadius | src/geo.py:18-27 | the centre is within any non-negative radius of itself |
| Geo.CornersAreWithinRadius | src/geo.py:26-27 | the test is inclusive: all four corners of the box are within the radius |
| Geo.WithinRadiusMonotone | src/geo.py:18-27 | a point within one radius is within every larger radius |
| Reviewer.Fallback | src/reviewer.py:69-76 | the fallback verdict is a rejection with cost "Unknown", score 0, and reasoning that starts with "Error parsing Claude response: " |
| Reviewer.ReviewReply | src/reviewer.py:52-76 | every exception that escapes the mapping is one of those it does not catch; an approval comes only from a delivered reply whose first block is a JSON object with a truthy "approved" |
| Reviewer.CompleteReplyRoundTrip | src/reviewer.py:60-68 | a reply with a single object that carries all four keys maps back to exactly the verdict it encodes |
| Reviewer.MissingKeysTakeDefaults | src/reviewer.py:63-68 | with "approved" present and a score `int` accepts, the reply is a verdict whose approval is `bool` of "approved", and each missing key takes its default whatever other keys are present: cost "Unknown", score 0, reasoning "" |
| Reviewer.UnreadableRepliesAreRejected | src/reviewer.py:60-76 | an empty content list, text that is not JSON, and an object without "approved" each give the fallback rejection for their own exception |
| Reviewer.ScoreErrorsEscape | src/reviewer.py:63-69 | with "approved" present, the reply escapes exactly when `int` refuses the score (or its default 0), and then with the exception `int` raised |
| Reviewer.NonIntegerScoreEscapes | src/reviewer.py:66-69 | a score that is text `int` refuses raises `ValueError`, whatever the other keys and trailing blocks, and the fallback does not replace it |
| Reviewer.NullScoreEscapes | src/reviewer.py:66-69 | a null score raises `TypeError`, whatever the other keys and trailing blocks, and the fallback does not replace it |
| Reviewer.ParseIntOfIntToString | src/reviewer.py:66 | `int(str(n)) == n` for every integer n of at most 4300 digits, the integers `str` writes out |
| Reviewer.ParseIntDigitLimit | src/reviewer.py:66 | a string of more than 4300 digits, signed or not, makes `int` raise `ValueError` |
| Reviewer.UserContentLines | src/reviewer.py:43-50 | when the short fields hold no newline, the request consists of five labelled lines, a blank line, "Full listing text:", then the lines of the full text |
| Sheets.TabLinksIff | src/sheets.py:11-17 | a link is read from a tab exactly when it is non-blank and sits in the link column of a row below the header |
| Sheets.SeenInPair | src/sheets.py:13-17 | reading "Approved" and then "Rejected" collects the union of both tabs' links |
| Sheets.TabLinksAfterAppend | src/sheets.py:11-17 | appending rows below a header adds exactly their non-blank link cells to the links read |
| Sheets.FirstRowIsNeverSeen | src/sheets.py:16 | a row appended to an empty tab is taken as the header, and its link is not read |
| Sheets.ApprovedRow | src/sheets.py:19-36 | an "Approved" row has 12 cells, with the link in column E |
| Sheets.RejectedRow | src/sheets.py:39-56 | a "Rejected" row has 11 cells, with the link in column E and the rejection reason in the ninth cell |
| Sheets.RowLayoutsMatchHeaders | tests/test_sheets.py:4-14 | each row has one cell per header of its tab; the link is under "Link", the notes are under "AI Notes" or "Rejection Reason", and the human columns are blank |
| Sheets.SheetsClient.constructor | src/sheets.py:7-9 | an opened client holds the two tabs' rows as they stand |
| Sheets.SheetsClient.GetSeenUrls | src/sheets.py:11-17 | the loop over both tabs returns exactly the non-blank link cells below each header |
| Sheets.SheetsClient.AppendApproved | src/sheets.py:19-37 | the "Approved" tab gains exactly the approved row at its end, and the "Rejected" tab is unchanged |
| Sheets.SheetsClient.AppendRejected | src/sheets.py:39-57 | the "Rejected" tab gains exactly the rejected row at its end, and the "Approved" tab is unchanged |
| Sheets.AppendedLinkIsSeen | src/sheets.py:11-57 | after one append below a header, the seen links are the earlier ones plus the new row's non-blank link |
| Handler.Filter | src/handler.py:58 | filtering never lengthens a sequence |
| Handler.NewListingsSpec | src/handler.py:58 | a listing is new exactly when it was scraped and its link is unseen; each new listing keeps every copy of itself and the original order |
| Handler.NoDedupeWithinRun | src/handler.py:44-58 | deduplicating the concatenated sources equals deduplicating each source against the seen links alone, so listings within one run are never deduplicated against each other |
| Handler.CandidatesSpec | src/handler.py:61-73 | a new listing is a candidate exactly when it lacks a coordinate or lies in the box, and candidates keep their order |
| Handler.SelectionNarrows | src/handler.py:57-75 | candidates ≤ new ≤ scraped, and no candidate has a seen link |
| Handler.SelectCandidates | src/handler.py:61-73 | the geofilter loop computes exactly `Candidates` of the new listings |
| Handler.Route | src/handler.py:82-110 | at most one row per candidate; one row per candidate when no exception escaped; an escaped exception is the verdict of some candidate |
| Handler.RouteExtends | src/handler.py:82-110 | reviewing one more candidate after a completed prefix either stops the run with that review's exception and leaves the rows unchanged, or adds exactly that candidate's row to the tab of its verdict and leaves the other tab unchanged |
| Handler.RouteStopsAtFailure | src/handler.py:82-83 | once a review raises, no later candidate is reviewed or written |
| Handler.EachVerdictInItsTab | src/handler.py:85-110 | in a completed run each candidate is reviewed, and its row lands in the "Approved" tab if approved and in the "Rejected" tab otherwise |
| Handler.RowsComeFromVerdicts | src/handler.py:85-110 | every row written belongs to some candidate whose verdict sends it to that tab |
| Handler.RowsShareTheRunDate | src/handler.py:78-110 | every row of a run carries the run's date, and has 12 or 11 cells according to its tab |
| Handler.ScoreCellReadsBack | src/handler.py:94 | the score cell, written with `str`, reads back through `int` as the verdict's score, for any score of at most 4300 digits |
| Handler.ReviewCandidates | src/handler.py:79-110 | for any review function, the review loop appends exactly the rows `Route` gives, returns the escaping exception if there is one, and otherwise counts the rows of each tab |
| Handler.LambdaHandler | src/handler.py:40-127 | the tabs end as before plus the routed rows of the candidates selected against the links seen at the start; a completed run reports scraped, new, candidates, approved and rejected counts, and a failed run reports the escaped exception |
| Handler.CompletedRunRecordsCandidates | src/handler.py:82-110 | after a completed run, provided both tabs already have a header row, every candidate with a non-blank link is among the links read back from the tabs |
| Handler.SeenLinksOnlyGrow | src/sheets.py:11-17 | appending rows never removes a link from the seen links |
| Handler.SecondRunHasNoCandidates | src/handler.py:40-110 | after a completed run, a second run over the same listings has no candidates, provided both tabs have headers and every link is non-blank |

## Left out

- The scrapers, the secrets fetch, the search configuration file and the spreadsheet client's authentication are not modelled. They are inputs or fields instead.
- The request parameters sent to the model are not modelled: the model name, the token limit and the system prompt. The call itself is the `ask` input.
- `json.loads` is not modelled. A reply arrives as already-parsed content blocks.
- The model does not cover a content block without `.text`, which raises `AttributeError`.
- JSON values are modelled as booleans, integers, strings and null only. Floats, arrays and nested objects under the four keys are not modelled.
- Reviewer.ParseInt: accepts only an optional sign followed by one to 4300 ASCII digits. Python's `int` also accepts surrounding whitespace, underscores between digits and non-ASCII digits. The 4300-digit limit is Python's default since 3.10.7 and is taken as fixed.
- Reviewer.IntToString: writes an integer of any length. Python's `str` raises `ValueError` for more than 4300 digits. A score of that length can only come from a JSON integer literal, and `json.loads` itself raises `ValueError` on such a literal, which the model does not capture because replies arrive already parsed.
- Logging is not modelled.
- The HTTP envelope is not modelled: status code 200 and `json.dumps` of the body. `Completed(Summary(...))` stands for the body.
- `date.today()` is not modelled. The date is the `today` parameter.
- Geo.BoundingBox: the cosine is the parameter `cos`, and arithmetic is exact over the reals, so floating-point rounding is not captured. Lemmas that compare distances assume the cosine is positive, which holds for any latitude strictly between the poles.
- Sheets.ColumnValues: reads a short row's link cell as blank. The spreadsheet service's own trimming of trailing empty cells is not modelled, and neither is its detection of where the table ends when appending. An appended row goes at the end of the tab's row sequence.
- Sheets.SheetsClient.GetSeenUrls, Sheets.SheetsClient.AppendApproved, Sheets.SheetsClient.AppendRejected: always succeed in the model. In the source, `worksheet`, `col_values` and `append_row` (src/sheets.py:14-15, 37, 57) can raise, for example on a spreadsheet API error or a missing tab. Such an exception stops the handler before the reviews, or partway through the loop with the rows already written kept. The model's `Failed` outcome covers only exceptions that escape a review.
- Concurrent runs and partial writes inside a single append are not modelled.
