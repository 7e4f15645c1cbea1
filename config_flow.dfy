/** The configuration step's logic: checking a stop id against the
    stop-information response, parsing the line filter text, the 2-argument
    unique id and the entry title. */
module ConfigFlow {
  import opened Values
  import opened Api
  import opened Text
  import opened Sorting

  /** What `validate_stop_id` concludes: it returns, or raises one of two errors. */
  datatype Validation = StopAccepted | CannotConnect | InvalidStopId

  /** Python truthiness of a `stopID` value. */
  predicate IdTruthy(v: IdValue)
    ensures v.IdText? ==> (IdTruthy(v) <==> v.text != "")
    ensures v.IdNumber? && !IdTruthy(v) ==> IdString(v) == "0"
  {
    match v
    case IdText(t) => t != ""
    case IdNumber(n) => n != 0
  }

  /** `str(stopID)`. */
  function IdString(v: IdValue): (r: string)
    ensures v.IdText? ==> r == v.text
    ensures v.IdNumber? ==> |r| > 0 && (r[0] == '-' <==> v.number < 0)
  {
    match v
    case IdText(t) => t
    case IdNumber(n) => IntToString(n)
  }

  /** The check `validate_stop_id` makes on the stop-information response. */
  function ValidateStopId(stopId: string, resp: HttpResult<StopInfoBody>): (r: Validation)
    ensures r == CannotConnect <==> resp.ClientError? || resp.status != 200
    ensures r == StopAccepted <==>
      && resp.Response? && resp.status == 200
      && resp.body.stops.Some? && |resp.body.stops.value| > 0
      && resp.body.stops.value[0].stopId.Some?
      && IdTruthy(resp.body.stops.value[0].stopId.value)
      && IdString(resp.body.stops.value[0].stopId.value) == stopId
  {
    if resp.ClientError? then CannotConnect
    else if resp.status != 200 then CannotConnect
    else
      var stops := resp.body.stops;
      if || stops.None? || |stops.value| == 0
         || stops.value[0].IsEmpty()
         || stops.value[0].stopId.None? || !IdTruthy(stops.value[0].stopId.value)
         || IdString(stops.value[0].stopId.value) != stopId
      then InvalidStopId
      else StopAccepted
  }

  /** A stop whose upstream id is numeric is accepted for one id text only,
      and two numeric ids accepted for the same text are the same number. */
  lemma NumericStopIdDetermined(stopId: string, n: int, m: int, body1: StopInfoBody, body2: StopInfoBody)
    requires body1.stops.Some? && |body1.stops.value| > 0 && body1.stops.value[0].stopId == Some(IdNumber(n))
    requires body2.stops.Some? && |body2.stops.value| > 0 && body2.stops.value[0].stopId == Some(IdNumber(m))
    requires ValidateStopId(stopId, Response(200, body1)) == StopAccepted
    requires ValidateStopId(stopId, Response(200, body2)) == StopAccepted
    ensures n == m
  {
    IntToStringInjective(n, m);
  }

  /** The number 0 is false in Python, so a stop numbered 0 is rejected even
      when the requested id is "0". */
  lemma ZeroStopIdRejected()
    ensures ValidateStopId("0", Response(200, StopInfoBody(Some("ok"),
              Some([StopEntry(Some(IdNumber(0)), Some("Zero"), None)])))) == InvalidStopId
  {
  }

  /** The separators of the line filter text. */
  const Separators: set<char> := {',', ';'}

  /** `[p.strip() for p in parts if p.strip()]`. */
  function StrippedNonEmpty(parts: seq<string>): (r: seq<string>)
    ensures |r| <= |parts|
    ensures forall i | 0 <= i < |r| :: r[i] != "" && !IsSpace(r[i][0]) && !IsSpace(r[i][|r[i]| - 1])
    decreases |parts|
  {
    if parts == [] then []
    else
      var t := Strip(parts[0]);
      (if t == "" then [] else [t]) + StrippedNonEmpty(parts[1..])
  }

  lemma StripAvoids(s: string, cs: set<char>)
    requires Avoids(s, cs)
    ensures Avoids(Strip(s), cs)
  {
    var r, i := Strip(s), LeadingSpaces(s);
    forall k | 0 <= k < |r| ensures r[k] !in cs {
      assert r[k] == s[i + k];
    }
  }

  /** Stripping never brings in a separator. */
  lemma {:induction false} StrippedNonEmptyAvoids(parts: seq<string>, cs: set<char>)
    requires forall i | 0 <= i < |parts| :: Avoids(parts[i], cs)
    ensures forall i | 0 <= i < |StrippedNonEmpty(parts)| :: Avoids(StrippedNonEmpty(parts)[i], cs)
    decreases |parts|
  {
    if parts != [] {
      StripAvoids(parts[0], cs);
      StrippedNonEmptyAvoids(parts[1..], cs);
    }
  }

  lemma {:induction false} StrippedNonEmptyConcat(a: seq<string>, b: seq<string>)
    ensures StrippedNonEmpty(a + b) == StrippedNonEmpty(a) + StrippedNonEmpty(b)
    decreases |a|
  {
    if a == [] {
      assert a + b == b;
    } else {
      assert (a + b)[0] == a[0];
      assert (a + b)[1..] == a[1..] + b;
      StrippedNonEmptyConcat(a[1..], b);
    }
  }

  /** `parse_filter_lines`: split at `,` and `;`, strip each piece, drop the
      empty ones. A missing or empty text gives no lines. */
  function ParseFilterLines(filterLines: Option<string>): (r: seq<string>)
    ensures filterLines.None? || filterLines == Some("") ==> r == []
    ensures forall i | 0 <= i < |r| ::
      r[i] != "" && Avoids(r[i], Separators) && !IsSpace(r[i][0]) && !IsSpace(r[i][|r[i]| - 1])
  {
    if filterLines.None? || filterLines.value == "" then []
    else
      StrippedNonEmptyAvoids(SplitOn(filterLines.value, Separators), Separators);
      StrippedNonEmpty(SplitOn(filterLines.value, Separators))
  }

  /** The early return for the empty text agrees with splitting it. */
  lemma ParseText(s: string)
    ensures ParseFilterLines(Some(s)) == StrippedNonEmpty(SplitOn(s, Separators))
  {
    if s == "" {
      assert SplitOn(s, Separators) == [""];
      assert Strip("") == "";
    }
  }

  /** A text without separators gives its stripped self, if not blank. */
  lemma ParseSingle(s: string)
    requires Avoids(s, Separators)
    ensures ParseFilterLines(Some(s)) == if Strip(s) == "" then [] else [Strip(s)]
  {
    ParseText(s);
    SplitOnWhole(s, Separators);
  }

  /** The lines of the text before a separator come first, in order, then
      those of the text after it. */
  lemma ParseConcat(a: string, c: char, b: string)
    requires c in Separators
    ensures ParseFilterLines(Some(a + [c] + b)) == ParseFilterLines(Some(a)) + ParseFilterLines(Some(b))
  {
    ParseText(a + [c] + b);
    ParseText(a);
    ParseText(b);
    SplitOnConcat(a, c, b, Separators);
    StrippedNonEmptyConcat(SplitOn(a, Separators), SplitOn(b, Separators));
  }

  /** The 2-argument `generate_unique_id` of the configuration step. */
  function GenerateUniqueId(stopId: string, filterLines: seq<string>): (r: string)
    ensures |filterLines| == 0 ==> r == stopId
    ensures |filterLines| > 0 ==> stopId + "_" <= r
  {
    if |filterLines| == 0 then stopId
    else stopId + "_" + Join("-", SortLines(filterLines))
  }

  /** The id does not depend on the order in which the lines were given. */
  lemma UniqueIdPermutationInvariant(stopId: string, a: seq<string>, b: seq<string>)
    requires multiset(a) == multiset(b)
    ensures GenerateUniqueId(stopId, a) == GenerateUniqueId(stopId, b)
  {
    assert |a| == |multiset(a)| == |multiset(b)| == |b|;
    SortPermutationInvariant(a, b);
  }

  /** Lines free of `-` can be read back from the id, sorted. */
  lemma UniqueIdEncodesSortedLines(stopId: string, lines: seq<string>)
    requires |lines| > 0
    requires forall i | 0 <= i < |lines| :: Avoids(lines[i], {'-'})
    ensures GenerateUniqueId(stopId, lines) == stopId + "_" + Join("-", SortLines(lines))
    ensures SplitOn(Join("-", SortLines(lines)), {'-'}) == SortLines(lines)
  {
    var s := SortLines(lines);
    forall i | 0 <= i < |s| ensures Avoids(s[i], {'-'}) {
      assert s[i] in multiset(lines);
    }
    SplitJoin('-', s);
  }

  /** The title of the created entry: the lines appear in the order given. */
  function EntryTitle(stopId: string, filterLines: seq<string>): (r: string)
    ensures "Bus Stop " + stopId <= r
    ensures |filterLines| == 0 <==> r == "Bus Stop " + stopId
    ensures |filterLines| > 0 ==> r[|"Bus Stop " + stopId|..] == " (Lines: " + Join(", ", filterLines) + ")"
  {
    "Bus Stop " + stopId + (if |filterLines| == 0 then "" else " (Lines: " + Join(", ", filterLines) + ")")
  }

  /** What a successful configuration step records. */
  datatype EntryDraft = EntryDraft(title: string, uniqueId: string, filterLines: seq<string>)

  /** The user step on submitted input: validate the stop, parse the lines,
      derive the unique id and title; or the form error to show. */
  function UserStep(stopId: string, filterText: Option<string>, resp: HttpResult<StopInfoBody>): (r: Result<EntryDraft, string>)
    ensures r.Failure? <==> ValidateStopId(stopId, resp) != StopAccepted
    ensures r.Failure? ==> (r.error == "cannot_connect" <==> resp.ClientError? || resp.status != 200)
    ensures r.Failure? && !(resp.ClientError? || resp.status != 200) ==> r.error == "invalid_stop_id"
    ensures r.Success? ==>
      && r.value.filterLines == ParseFilterLines(filterText)
      && r.value.uniqueId == GenerateUniqueId(stopId, r.value.filterLines)
      && r.value.title == EntryTitle(stopId, r.value.filterLines)
  {
    match ValidateStopId(stopId, resp)
    case CannotConnect => Failure("cannot_connect")
    case InvalidStopId => Failure("invalid_stop_id")
    case StopAccepted =>
      var lines := if filterText.Some? && filterText.value != "" then ParseFilterLines(filterText) else [];
      Success(EntryDraft(EntryTitle(stopId, lines), GenerateUniqueId(stopId, lines), lines))
  }
}
