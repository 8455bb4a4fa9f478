/**
 * The review gateway: the per-listing request text, and the mapping from the
 * language model's reply to a verdict, with a fixed rejected verdict when the
 * reply cannot be read.
 *
 * The API call and `json.loads` are not modelled: a reply is given as the
 * already-parsed content blocks. Python's coercions `bool(v)`, `str(v)` and
 * `int(v)` are written out for the JSON value kinds the four keys carry.
 */
module Reviewer {
  import opened Wrappers
  import opened Models

  /** The verdict on one listing. The score is nominally 1 to 10 but unchecked. */
  datatype ReviewResult = ReviewResult(
    approved: bool,
    estMonthlyCost: string,
    suitabilityScore: int,
    reasoning: string)

  /** A JSON value as `json.loads` yields it. */
  datatype Value = Bool(b: bool) | Int(n: int) | Str(s: string) | Null

  /** `json.loads` applied to the text of one content block. */
  datatype Parsed =
    | Object(fields: map<string, Value>)
    | NotAnObject          // valid JSON that is an array, string, number or null
    | DecodeError(msg: string)

  /** What the messages call gave back. */
  datatype Reply = Delivered(content: seq<Parsed>) | CallFailed

  /** The Python exceptions the mapping can raise. */
  datatype Exception =
    | JsonDecodeError(msg: string)
    | KeyError(key: string)
    | IndexError
    | ValueError(literal: string)
    | TypeError
    | ApiError

  /** The review either yields a verdict or lets an exception escape to its caller. */
  datatype Outcome = Reviewed(result: ReviewResult) | Raised(error: Exception)

  /** The exceptions the review catches and turns into the fallback verdict. */
  predicate Caught(e: Exception) {
    e.JsonDecodeError? || e.KeyError? || e.IndexError?
  }

  /** `str(e)` for a caught exception. */
  function Message(e: Exception): string
    requires Caught(e)
  {
    match e
    case JsonDecodeError(msg) => msg
    case KeyError(key) => "'" + key + "'"
    case IndexError => "list index out of range"
  }

  const FallbackPrefix: string := "Error parsing Claude response: "

  /** The verdict given when the reply cannot be read. */
  function Fallback(e: Exception): (r: ReviewResult)
    requires Caught(e)
    ensures !r.approved && r.estMonthlyCost == "Unknown" && r.suitabilityScore == 0
    ensures |r.reasoning| >= |FallbackPrefix| && r.reasoning[..|FallbackPrefix|] == FallbackPrefix
  {
    ReviewResult(false, "Unknown", 0, FallbackPrefix + Message(e))
  }

  // ---------------------------------------------------------------------------
  // Python's decimal rendering and parsing of integers

  function DigitChar(d: nat): char
    requires d < 10
  {
    "0123456789"[d]
  }

  predicate IsDigit(c: char) {
    '0' <= c <= '9'
  }

  function DigitValue(c: char): nat
    requires IsDigit(c)
  {
    (c - '0') as nat
  }

  /** The decimal digits of n, without leading zeros. */
  function NatToString(n: nat): (s: string)
    ensures |s| > 0 && forall i :: 0 <= i < |s| ==> IsDigit(s[i])
  {
    if n < 10 then [DigitChar(n)] else NatToString(n / 10) + [DigitChar(n % 10)]
  }

  /** `str(n)` for an int: a minus sign for negatives, then the digits. */
  function IntToString(n: int): string {
    if n < 0 then "-" + NatToString(-n) else NatToString(n)
  }

  /** The number a string of decimal digits denotes. */
  function DigitsValue(s: string): nat
    requires forall i :: 0 <= i < |s| ==> IsDigit(s[i])
  {
    if s == [] then 0 else DigitsValue(s[..|s| - 1]) * 10 + DigitValue(s[|s| - 1])
  }

  predicate AllDigits(s: string) {
    |s| > 0 && forall i :: 0 <= i < |s| ==> IsDigit(s[i])
  }

  /** Python's default limit on the number of digits `int` parses and `str` writes. */
  const MaxStrDigits: nat := 4300

  /**
   * `int(s)` for a string: an optional sign, then one to `MaxStrDigits` decimal
   * digits; a longer digit string raises `ValueError` too.
   */
  function ParseInt(s: string): Result<int, Exception> {
    var signed := |s| > 0 && (s[0] == '-' || s[0] == '+');
    var digits := if signed then s[1..] else s;
    if !AllDigits(digits) || |digits| > MaxStrDigits then Err(ValueError(s))
    else if signed && s[0] == '-' then Ok(-(DigitsValue(digits) as int))
    else Ok(DigitsValue(digits))
  }

  /** A digit string longer than the limit is refused, whatever it denotes. */
  lemma ParseIntDigitLimit(s: string)
    requires AllDigits(s) && |s| > MaxStrDigits
    ensures ParseInt(s) == Err(ValueError(s))
    ensures ParseInt("-" + s) == Err(ValueError("-" + s))
  {
    assert ("-" + s)[1..] == s;
  }

  /** `str(n)` succeeds: n has at most `MaxStrDigits` digits. */
  predicate WithinDigitLimit(n: int) {
    |NatToString(if n < 0 then -n else n)| <= MaxStrDigits
  }

  lemma {:induction false} NatToStringValue(n: nat)
    ensures DigitsValue(NatToString(n)) == n
  {
    var s := NatToString(n);
    if n >= 10 {
      var init := NatToString(n / 10);
      assert s[..|s| - 1] == init;
      NatToStringValue(n / 10);
    }
  }

  /** The digits of n read back as n, and as -n after a minus sign. */
  lemma ParseIntOfDigits(n: nat)
    requires |NatToString(n)| <= MaxStrDigits
    ensures ParseInt(NatToString(n)) == Ok(n)
    ensures ParseInt("-" + NatToString(n)) == Ok(-(n as int))
  {
    var digits := NatToString(n);
    NatToStringValue(n);
    assert AllDigits(digits);
    assert digits[0] != '-' && digits[0] != '+';
    var s := "-" + digits;
    assert s[0] == '-' && s[1..] == digits;
  }

  /** `int(str(n)) == n`: a score written out as text reads back as the same score. */
  lemma ParseIntOfIntToString(n: int)
    requires WithinDigitLimit(n)
    ensures ParseInt(IntToString(n)) == Ok(n)
  {
    if n < 0 {
      assert IntToString(n) == "-" + NatToString(-n);
      ParseIntOfDigits(-n);
    } else {
      assert IntToString(n) == NatToString(n);
      ParseIntOfDigits(n);
    }
  }

  // ---------------------------------------------------------------------------
  // Python's coercions of a JSON value

  /** `bool(v)`. */
  predicate Truthy(v: Value) {
    match v
    case Bool(b) => b
    case Int(n) => n != 0
    case Str(s) => s != ""
    case Null => false
  }

  /** `str(v)`. */
  function Show(v: Value): string {
    match v
    case Bool(b) => if b then "True" else "False"
    case Int(n) => IntToString(n)
    case Str(s) => s
    case Null => "None"
  }

  /** `int(v)`: a `TypeError` for null, a `ValueError` for text that is not an integer. */
  function ToInt(v: Value): Result<int, Exception> {
    match v
    case Bool(b) => Ok(if b then 1 else 0)
    case Int(n) => Ok(n)
    case Str(s) => ParseInt(s)
    case Null => Err(TypeError)
  }

  /** `d.get(key, default)`. */
  function Get(fields: map<string, Value>, key: string, default: Value): Value {
    if key in fields then fields[key] else default
  }

  // ---------------------------------------------------------------------------
  // The reply-to-verdict mapping

  /**
   * The verdict for a reply. The first content block is read; a missing
   * block, undecodable JSON or a missing "approved" key give the fallback
   * verdict. A failed call, a JSON value that is not an object, and a score
   * that `int` refuses are not caught and escape.
   */
  function ReviewReply(reply: Reply): (o: Outcome)
    ensures o.Raised? ==> !Caught(o.error)
    ensures o.Reviewed? && o.result.approved ==>
      && reply.Delivered? && |reply.content| > 0 && reply.content[0].Object?
      && "approved" in reply.content[0].fields
      && Truthy(reply.content[0].fields["approved"])
  {
    match reply
    case CallFailed => Raised(ApiError)
    case Delivered(content) =>
      if |content| == 0 then Reviewed(Fallback(IndexError))
      else
        match content[0]
        case DecodeError(msg) => Reviewed(Fallback(JsonDecodeError(msg)))
        case NotAnObject => Raised(TypeError)
        case Object(fields) =>
          if "approved" !in fields then Reviewed(Fallback(KeyError("approved")))
          else
            var approved := Truthy(fields["approved"]);
            var cost := Show(Get(fields, "est_monthly_cost", Str("Unknown")));
            var score := ToInt(Get(fields, "suitability_score", Int(0)));
            if score.Err? then Raised(score.error)
            else
              var reasoning := Show(Get(fields, "reasoning", Str("")));
              Reviewed(ReviewResult(approved, cost, score.value, reasoning))
  }

  /** The reply a well-behaved model sends for a verdict: one JSON object with the four keys. */
  function Encode(r: ReviewResult): Reply {
    Delivered([Object(map[
      "approved" := Bool(r.approved),
      "est_monthly_cost" := Str(r.estMonthlyCost),
      "suitability_score" := Int(r.suitabilityScore),
      "reasoning" := Str(r.reasoning)])])
  }

  /** A reply carrying all four keys yields exactly those values. */
  lemma CompleteReplyRoundTrip(r: ReviewResult)
    ensures ReviewReply(Encode(r)) == Reviewed(r)
  {
  }

  /**
   * When "approved" is present and the score converts, the reply is a
   * verdict whatever other keys are present, and each missing key takes its
   * default: cost "Unknown", score 0, reasoning "".
   */
  lemma MissingKeysTakeDefaults(fields: map<string, Value>, rest: seq<Parsed>)
    requires "approved" in fields && ToInt(Get(fields, "suitability_score", Int(0))).Ok?
    ensures var o := ReviewReply(Delivered([Object(fields)] + rest));
            && o.Reviewed?
            && o.result.approved == Truthy(fields["approved"])
            && ("est_monthly_cost" !in fields ==> o.result.estMonthlyCost == "Unknown")
            && ("suitability_score" !in fields ==> o.result.suitabilityScore == 0)
            && ("reasoning" !in fields ==> o.result.reasoning == "")
  {
  }

  /**
   * Every reply the review catches on ends in the same rejected verdict: an
   * empty content list, text that is not JSON, and an object without
   * "approved".
   */
  lemma UnreadableRepliesAreRejected(rest: seq<Parsed>, msg: string, fields: map<string, Value>)
    requires "approved" !in fields
    ensures ReviewReply(Delivered([])) == Reviewed(Fallback(IndexError))
    ensures ReviewReply(Delivered([DecodeError(msg)] + rest)) == Reviewed(Fallback(JsonDecodeError(msg)))
    ensures ReviewReply(Delivered([Object(fields)] + rest)) == Reviewed(Fallback(KeyError("approved")))
    ensures !Fallback(IndexError).approved && !Fallback(JsonDecodeError(msg)).approved
  {
  }

  /**
   * When "approved" is present, the reply escapes exactly when `int` refuses
   * the score, and then with the exception `int` raised; the fallback never
   * replaces it.
   */
  lemma ScoreErrorsEscape(fields: map<string, Value>, rest: seq<Parsed>)
    requires "approved" in fields
    ensures var o := ReviewReply(Delivered([Object(fields)] + rest));
            var score := ToInt(Get(fields, "suitability_score", Int(0)));
            && (o.Raised? <==> score.Err?)
            && (o.Raised? ==> o.error == score.error)
  {
  }

  /** A score that is text but not an integer escapes as a `ValueError`, whatever the other keys. */
  lemma NonIntegerScoreEscapes(fields: map<string, Value>, rest: seq<Parsed>, score: string)
    requires "approved" in fields && "suitability_score" in fields
    requires fields["suitability_score"] == Str(score) && ParseInt(score).Err?
    ensures ReviewReply(Delivered([Object(fields)] + rest)) == Raised(ValueError(score))
  {
  }

  /** A null score escapes as a `TypeError`, whatever the other keys. */
  lemma NullScoreEscapes(fields: map<string, Value>, rest: seq<Parsed>)
    requires "approved" in fields && "suitability_score" in fields && fields["suitability_score"] == Null
    ensures ReviewReply(Delivered([Object(fields)] + rest)) == Raised(TypeError)
  {
  }

  // ---------------------------------------------------------------------------
  // The request text

  /** One line of the request, a label and a value, followed by the rest of the request. */
  function Line(tag: string, value: string, rest: string): string {
    tag + value + "\n" + rest
  }

  /** The per-listing content sent to the model. */
  function UserContent(l: Listing): string {
    Line("Title: ", l.title,
    Line("Listed Price: ", l.price,
    Line("Listed Sqft: ", l.sqft,
    Line("Address: ", l.address,
    Line("Source: ", l.source,
    Line("", "",
    Line("Full listing text:", "", l.fullText)))))))
  }

  /** `s.split("\n")`. */
  function Lines(s: string): (r: seq<string>)
    ensures |r| > 0
  {
    if s == [] then [""]
    else if s[0] == '\n' then [""] + Lines(s[1..])
    else
      var rest := Lines(s[1..]);
      [[s[0]] + rest[0]] + rest[1..]
  }

  lemma {:induction false} LinesOfLine(s: string)
    requires '\n' !in s
    ensures Lines(s) == [s]
  {
    if s != [] {
      LinesOfLine(s[1..]);
      assert [s[0]] + s[1..] == s;
    }
  }

  /** Splitting at a newline splits the lines. */
  lemma {:induction false} LinesOfJoin(a: string, b: string)
    ensures Lines(a + "\n" + b) == Lines(a) + Lines(b)
  {
    if a == [] {
      assert a + "\n" + b == "\n" + b;
      assert ("\n" + b)[1..] == b;
    } else {
      var s := a + "\n" + b;
      assert s[0] == a[0];
      assert s[1..] == a[1..] + "\n" + b;
      LinesOfJoin(a[1..], b);
    }
  }

  /** A labelled line without newlines, then a newline, splits off as one line. */
  lemma LinesOfLabelledLine(tag: string, value: string, rest: string)
    requires '\n' !in tag && '\n' !in value
    ensures Lines(Line(tag, value, rest)) == [tag + value] + Lines(rest)
  {
    assert '\n' !in tag + value;
    LinesOfLine(tag + value);
    LinesOfJoin(tag + value, rest);
  }

  /** The last three lines of the request: the source, a blank line and the full-text heading. */
  lemma RequestTailLines(source: string, fullText: string)
    requires '\n' !in source
    ensures Lines(Line("Source: ", source, Line("", "", Line("Full listing text:", "", fullText))))
         == ["Source: " + source, "", "Full listing text:"] + Lines(fullText)
  {
    var h := "Full listing text:";
    var s6 := Line(h, "", fullText);
    var s5 := Line("", "", s6);
    var L6 := [h] + Lines(fullText);
    assert Lines(s6) == L6 by {
      LinesOfLabelledLine(h, "", fullText);
      assert h + "" == h;
    }
    var L5 := [""] + L6;
    assert Lines(s5) == L5 by { LinesOfLabelledLine("", "", s6); }
    LinesOfLabelledLine("Source: ", source, s5);
  }

  /** The request from the address line on: address, then the last three lines. */
  lemma RequestAddressLines(address: string, source: string, fullText: string)
    requires '\n' !in address && '\n' !in source
    ensures Lines(Line("Address: ", address,
                  Line("Source: ", source, Line("", "", Line("Full listing text:", "", fullText)))))
         == ["Address: " + address, "Source: " + source, "", "Full listing text:"] + Lines(fullText)
  {
    var s4 := Line("Source: ", source, Line("", "", Line("Full listing text:", "", fullText)));
    var L4 := ["Source: " + source, "", "Full listing text:"] + Lines(fullText);
    assert Lines(s4) == L4 by { RequestTailLines(source, fullText); }
    LinesOfLabelledLine("Address: ", address, s4);
  }

  /** The request from the area line on: area, address, then the last three lines. */
  lemma RequestMiddleLines(sqft: string, address: string, source: string, fullText: string)
    requires '\n' !in sqft && '\n' !in address && '\n' !in source
    ensures Lines(Line("Listed Sqft: ", sqft, Line("Address: ", address,
                  Line("Source: ", source, Line("", "", Line("Full listing text:", "", fullText))))))
         == ["Listed Sqft: " + sqft, "Address: " + address, "Source: " + source, "",
             "Full listing text:"] + Lines(fullText)
  {
    var s3 := Line("Address: ", address,
                Line("Source: ", source, Line("", "", Line("Full listing text:", "", fullText))));
    var L3 := ["Address: " + address, "Source: " + source, "", "Full listing text:"] + Lines(fullText);
    assert Lines(s3) == L3 by { RequestAddressLines(address, source, fullText); }
    LinesOfLabelledLine("Listed Sqft: ", sqft, s3);
  }

  /**
   * When the five short fields hold no newline, the request reads as the
   * labelled lines title, price, area, address and source, a blank line, the
   * "Full listing text:" line, and then the lines of the full text.
   */
  lemma UserContentLines(l: Listing)
    requires '\n' !in l.title && '\n' !in l.price && '\n' !in l.sqft
    requires '\n' !in l.address && '\n' !in l.source
    ensures Lines(UserContent(l)) ==
      [ "Title: " + l.title,
        "Listed Price: " + l.price,
        "Listed Sqft: " + l.sqft,
        "Address: " + l.address,
        "Source: " + l.source,
        "",
        "Full listing text:" ] + Lines(l.fullText)
  {
    var s2 := Line("Listed Sqft: ", l.sqft, Line("Address: ", l.address,
                Line("Source: ", l.source, Line("", "", Line("Full listing text:", "", l.fullText)))));
    var s1 := Line("Listed Price: ", l.price, s2);
    var L2 := ["Listed Sqft: " + l.sqft, "Address: " + l.address, "Source: " + l.source, "",
               "Full listing text:"] + Lines(l.fullText);
    assert Lines(s2) == L2 by { RequestMiddleLines(l.sqft, l.address, l.source, l.fullText); }
    var L1 := ["Listed Price: " + l.price] + L2;
    assert Lines(s1) == L1 by { LinesOfLabelledLine("Listed Price: ", l.price, s2); }
    assert Lines(UserContent(l)) == ["Title: " + l.title] + L1 by {
      LinesOfLabelledLine("Title: ", l.title, s1);
    }
  }
}
