/** The AI service wrapper: the fixed answers given when no API key is
    configured, the error texts of the two calls, and the clean-up of the
    meter reading the model returns. The calls themselves are parameters:
    what the service replied, or what it threw. */
module GeminiService {
  import opened Types
  import opened Text

  /** The tips returned when no API key is configured. */
  const MockTips: seq<string> := [
    "Turn off the tap while brushing your teeth.",
    "Install water-saving showerheads and faucet aerators.",
    "Only run the washing machine and dishwasher with full loads.",
    "Use a bucket to wash your car instead of a hose.",
    "Check for and repair any leaks in your pipes and toilets."
  ]

  /** The reading returned when no API key is configured. */
  const MockMeterReading: string := "123.45"

  const TipsErrorPrefix: string := "Failed to generate tips: "
  const EmptyResponseMessage: string := "Failed to generate tips. The response was empty."
  const UnexpectedErrorMessage: string := "An unexpected error occurred while communicating with the AI model."
  const MeterErrorMessage: string := "Failed to process image with AI model."

  /** A thrown value: an `Error` with its message, or anything else. */
  datatype Thrown = ErrorObject(message: string) | OtherValue

  /** What the tips request produced: it threw, or it answered with a text
      whose (trimmed) JSON either fails to parse or read, or has a `tips`
      member, truthy or not. */
  datatype TipsReply =
    | CallFailed(thrown: Thrown)
    | Replied(text: string, json: ParsedTips)

  datatype ParsedTips =
    | ParseFailed(thrown: Thrown)
    | Parsed(tips: Option<seq<string>>)

  /** The catch block's rethrow: never an empty message; either the
      unexpected-error text or the tips prefix, after which the original
      `Error`'s message can be read back unchanged. */
  function Rethrown(t: Thrown): (message: string)
    ensures t.ErrorObject? ==> message == TipsErrorPrefix + t.message
    ensures t.OtherValue? ==> message == UnexpectedErrorMessage
    ensures message != ""
    ensures message == UnexpectedErrorMessage
            || (|message| >= |TipsErrorPrefix| && message[..|TipsErrorPrefix|] == TipsErrorPrefix)
    ensures t.ErrorObject? ==> message[|TipsErrorPrefix|..] == t.message
  {
    match t
    case ErrorObject(m) => TipsErrorPrefix + m
    case OtherValue => UnexpectedErrorMessage
  }

  /** `generateWaterSavingTips`. */
  function GenerateWaterSavingTips(hasApiKey: bool, reply: TipsReply): Result<seq<string>> {
    if !hasApiKey then Ok(MockTips)
    else
      match reply
      case CallFailed(t) => Err(Rethrown(t))
      case Replied(text, json) =>
        if IsBlank(text) then Err(Rethrown(ErrorObject(EmptyResponseMessage)))
        else
          match json
          case ParseFailed(t) => Err(Rethrown(t))
          case Parsed(tips) => Ok(if tips.Some? then tips.value else [])
  }

  /** Without a key the five fixed tips come back, whatever the service
      would have said. */
  lemma MockTipsWithoutKey(reply: TipsReply)
    ensures GenerateWaterSavingTips(false, reply) == Ok(MockTips)
    ensures |MockTips| == 5
  {
  }

  /** With a key: a blank answer is an error even before parsing, an answer
      without truthy `tips` is the empty list, and every error carries the
      prefix unless what was thrown was not an `Error`. */
  lemma TipsWithKey(reply: TipsReply)
    ensures reply.Replied? && IsBlank(reply.text) ==>
      GenerateWaterSavingTips(true, reply) == Err(TipsErrorPrefix + EmptyResponseMessage)
    ensures reply.Replied? && !IsBlank(reply.text) && reply.json == Parsed(None) ==>
      GenerateWaterSavingTips(true, reply) == Ok([])
    ensures reply.Replied? && !IsBlank(reply.text) && reply.json.Parsed? && reply.json.tips.Some? ==>
      GenerateWaterSavingTips(true, reply) == Ok(reply.json.tips.value)
    ensures GenerateWaterSavingTips(true, reply).Err? ==>
      var m := GenerateWaterSavingTips(true, reply).message;
      m == UnexpectedErrorMessage || (|m| >= |TipsErrorPrefix| && m[..|TipsErrorPrefix|] == TipsErrorPrefix)
  {
  }

  /** A character of the pattern `[\d.]`: an ASCII digit or a dot. */
  predicate IsReadingChar(c: char) {
    '0' <= c <= '9' || c == '.'
  }

  /** The first index from `i` on that holds a reading character, or `|s|`. */
  function RunStart(s: string, i: nat): (k: nat)
    requires i <= |s|
    ensures i <= k <= |s|
    ensures forall j :: i <= j < k ==> !IsReadingChar(s[j])
    ensures k < |s| ==> IsReadingChar(s[k])
    decreases |s| - i
  {
    if i == |s| || IsReadingChar(s[i]) then i else RunStart(s, i + 1)
  }

  /** The first index from `i` on that does not hold a reading character,
      or `|s|`. */
  function RunEnd(s: string, i: nat): (k: nat)
    requires i <= |s|
    ensures i <= k <= |s|
    ensures forall j :: i <= j < k ==> IsReadingChar(s[j])
    ensures k < |s| ==> !IsReadingChar(s[k])
    decreases |s| - i
  {
    if i == |s| || !IsReadingChar(s[i]) then i else RunEnd(s, i + 1)
  }

  /** `match ? match[0] : ""` for `s.match(/[\d.]+/)`: the leftmost run of
      digits and dots, as long as it goes, and empty when there is none. */
  function MatchReading(s: string): (r: string)
    ensures RunStart(s, 0) + |r| <= |s|
    ensures r == s[RunStart(s, 0)..RunStart(s, 0) + |r|]
    ensures forall j :: 0 <= j < RunStart(s, 0) ==> !IsReadingChar(s[j])
    ensures forall j :: 0 <= j < |r| ==> IsReadingChar(r[j])
    ensures RunStart(s, 0) + |r| < |s| ==> !IsReadingChar(s[RunStart(s, 0) + |r|])
    ensures r == [] <==> forall j :: 0 <= j < |s| ==> !IsReadingChar(s[j])
  {
    var a := RunStart(s, 0);
    s[a..RunEnd(s, a)]
  }

  /** The leftmost maximal run is the only one: any cut of `s` into a part
      without reading characters, a non-empty run of them, and a part that
      does not continue it, finds the same run. */
  lemma RunUnique(s: string, a: nat, b: nat)
    requires a < b <= |s|
    requires forall j :: 0 <= j < a ==> !IsReadingChar(s[j])
    requires forall j :: a <= j < b ==> IsReadingChar(s[j])
    requires b < |s| ==> !IsReadingChar(s[b])
    ensures MatchReading(s) == s[a..b]
  {
    var k := RunStart(s, 0);
    assert IsReadingChar(s[a]);
    assert k <= a;
    assert k == a;
    var e := RunEnd(s, a);
    assert e <= b;
    assert e == b;
  }

  /** Cutting away parts without reading characters on either side does
      not change the match. */
  lemma MatchInSlice(s: string, l: nat, m: nat)
    requires l <= m <= |s|
    requires forall j :: 0 <= j < l ==> !IsReadingChar(s[j])
    requires forall j :: m <= j < |s| ==> !IsReadingChar(s[j])
    ensures MatchReading(s[l..m]) == MatchReading(s)
  {
    var t := s[l..m];
    var r := MatchReading(t);
    if r != [] {
      var a := RunStart(t, 0);
      var b := a + |r|;
      assert forall j :: 0 <= j < |t| ==> t[j] == s[l + j];
      RunUnique(s, l + a, l + b);
      assert s[l + a..l + b] == r;
    }
  }

  /** Trimming before matching changes nothing: white space is never part
      of a reading. */
  lemma MatchIgnoresTrim(s: string)
    ensures MatchReading(Trim(s)) == MatchReading(s)
  {
    var l := LeadingSpaces(s);
    var m := l + |Trim(s)|;
    MatchInSlice(s, l, m);
  }

  /** `readWaterMeter`: the fixed reading without a key; otherwise the
      service's answer reduced to its first run of digits and dots, or the
      error when the call threw. */
  function ReadWaterMeter(hasApiKey: bool, reply: Option<string>): (r: Result<string>)
    ensures !hasApiKey ==> r == Ok(MockMeterReading)
    ensures hasApiKey && reply.None? ==> r == Err(MeterErrorMessage)
    ensures r.Ok? ==> forall j :: 0 <= j < |r.value| ==> IsReadingChar(r.value[j])
  {
    if !hasApiKey then Ok(MockMeterReading)
    else
      match reply
      case None => Err(MeterErrorMessage)
      case Some(text) => Ok(MatchReading(Trim(text)))
  }

  /** With a key, the reading is the first run of digits and dots in the
      answer, empty exactly when the answer has no digit and no dot. */
  lemma MeterReadingWithKey(text: string)
    ensures ReadWaterMeter(true, Some(text)) == Ok(MatchReading(text))
    ensures MatchReading(text) == [] <==> forall j :: 0 <= j < |text| ==> !IsReadingChar(text[j])
  {
    MatchIgnoresTrim(text);
  }

  /** Worked examples: the unit after a number is dropped, a lone dot is
      kept (the caller's number check rejects it), and text without digits
      gives the empty reading. */
  lemma MatchExamples()
    ensures MatchReading("7.5 m3") == "7.5"
    ensures MatchReading("a.") == "."
    ensures MatchReading("no") == ""
  {
    var s := "7.5 m3";
    assert IsReadingChar(s[0]) && IsReadingChar(s[1]) && IsReadingChar(s[2]) && !IsReadingChar(s[3]);
    RunUnique(s, 0, 3);
    assert s[0..3] == "7.5";
    var u := "a.";
    assert !IsReadingChar(u[0]) && IsReadingChar(u[1]);
    RunUnique(u, 1, 2);
    assert u[1..2] == ".";
    var w := "no";
    assert !IsReadingChar(w[0]) && !IsReadingChar(w[1]);
  }
}
