/** The departures sensor's projection of the coordinator's snapshot: the
    effective departure time under delay, the line and direction filter, the
    one-line headline and the bounded list of per-departure details. */
module Sensor {
  import opened Values
  import opened Api
  import opened Text
  import opened Const
  import Coordinator

  /** The sensor's settings; they do not change after creation. */
  datatype SensorConfig = SensorConfig(maxDepartures: nat, filterLines: seq<string>, direction: Direction)

  /** `_calculate_departure_time`: planned seconds shifted by whole minutes of
      delay, early departures (negative delay) included. */
  function CalculateDepartureTime(plannedTimestamp: int, delayMinutes: int): (r: int)
    ensures (r - plannedTimestamp) % 60 == 0
    ensures (r - plannedTimestamp) / 60 == delayMinutes
    ensures delayMinutes < 0 <==> r < plannedTimestamp
  {
    plannedTimestamp + delayMinutes * 60
  }

  /** `_calculate_time_until_departure` with the current instant given:
      nothing for no target, else the signed seconds from now to the target. */
  function TimeUntilDeparture(departureCalculated: Option<int>, now: int): (r: Option<int>)
    ensures r.None? <==> departureCalculated.None?
    ensures r.Some? ==> now + r.value == departureCalculated.value
    ensures r.Some? ==> (r.value < 0 <==> departureCalculated.value < now)
  {
    if departureCalculated.None? then None else Some(departureCalculated.value - now)
  }

  /** Python truthiness of an optional number: present and not 0. */
  predicate Truthy(t: Option<int>)
    ensures Truthy(t) ==> t.Some?
    ensures t == Some(0) ==> !Truthy(t)
  {
    t.Some? && t.value != 0
  }

  /** The departure's line passes the allow-list: there is no list, or the
      line is present, non-empty and listed. */
  predicate LineAllowed(d: Departure, filterLines: seq<string>)
    ensures |filterLines| == 0 ==> LineAllowed(d, filterLines)
    ensures LineAllowed(d, filterLines) && |filterLines| > 0 ==> d.line.Some? && d.line.value in filterLines
  {
    |filterLines| == 0 || (d.line.Some? && d.line.value != "" && d.line.value in filterLines)
  }

  /** `_should_include_departure`. */
  function ShouldIncludeDeparture(d: Departure, filterLines: seq<string>, direction: Direction): (r: bool)
    ensures |filterLines| > 0 && (d.line.None? || d.line.value == "" || d.line.value !in filterLines) ==> !r
    ensures direction == All ==> (r <==> LineAllowed(d, filterLines))
    ensures direction == Here ==> (r <==> LineAllowed(d, filterLines) && d.direction == Some("here"))
    ensures direction == There ==> (r <==> LineAllowed(d, filterLines) && d.direction != Some("here"))
  {
    if |filterLines| > 0 && (d.line.None? || d.line.value == "" || d.line.value !in filterLines) then false
    else if direction != All && direction == Here && d.direction != Some("here") then false
    else if direction != All && direction != Here && d.direction == Some("here") then false
    else true
  }

  /** The list comprehension over the snapshot's departures: the included
      ones, in upstream order. */
  function FilterDepartures(departures: seq<Departure>, filterLines: seq<string>, direction: Direction): (r: seq<Departure>)
    ensures |r| <= |departures|
    ensures forall i | 0 <= i < |r| :: ShouldIncludeDeparture(r[i], filterLines, direction)
    ensures forall d | d in departures :: ShouldIncludeDeparture(d, filterLines, direction) <==> d in r
    ensures forall d | d in r :: d in departures
    decreases |departures|
  {
    if departures == [] then []
    else
      (if ShouldIncludeDeparture(departures[0], filterLines, direction) then [departures[0]] else [])
        + FilterDepartures(departures[1..], filterLines, direction)
  }

  /** Filtering keeps relative order: the filtered concatenation is the
      concatenation of the filtered parts. */
  lemma {:induction false} FilterConcat(a: seq<Departure>, b: seq<Departure>, filterLines: seq<string>, direction: Direction)
    ensures FilterDepartures(a + b, filterLines, direction)
         == FilterDepartures(a, filterLines, direction) + FilterDepartures(b, filterLines, direction)
    decreases |a|
  {
    if a == [] {
      assert a + b == b;
    } else {
      assert (a + b)[0] == a[0];
      assert (a + b)[1..] == a[1..] + b;
      FilterConcat(a[1..], b, filterLines, direction);
    }
  }

  /** Filtering a filtered list changes nothing. */
  lemma {:induction false} FilterIdempotent(departures: seq<Departure>, filterLines: seq<string>, direction: Direction)
    ensures FilterDepartures(FilterDepartures(departures, filterLines, direction), filterLines, direction)
         == FilterDepartures(departures, filterLines, direction)
    decreases |departures|
  {
    if departures != [] {
      var head := if ShouldIncludeDeparture(departures[0], filterLines, direction) then [departures[0]] else [];
      var tail := FilterDepartures(departures[1..], filterLines, direction);
      FilterConcat(head, tail, filterLines, direction);
      FilterIdempotent(departures[1..], filterLines, direction);
      if head != [] {
        assert FilterDepartures(head, filterLines, direction) == head by {
          assert head[1..] == [];
        }
      }
    }
  }

  /** The line shown for a departure, `Unknown` when it has none. */
  function LineText(d: Departure): (r: string)
    ensures d.line.Some? ==> r == d.line.value
    ensures d.line.None? ==> r == "Unknown"
  {
    d.line.GetOr("Unknown")
  }

  /** The destination shown for a departure, `Unknown` when it has none. */
  function DestinationText(d: Departure): (r: string)
    ensures d.destination.Some? ==> r == d.destination.value
    ensures d.destination.None? ==> r == "Unknown"
  {
    d.destination.GetOr("Unknown")
  }

  /** The delay in minutes, 0 when the departure reports none. */
  function DelayOf(d: Departure): (r: int)
    ensures d.delayMinutes.Some? ==> r == d.delayMinutes.value
    ensures d.delayMinutes.None? ==> r == 0
  {
    d.delayMinutes.GetOr(0)
  }

  /** Python's `int(seconds / 60)`: the quotient truncated toward zero. */
  function TruncatedMinutes(seconds: int): (m: int)
    ensures seconds >= 0 ==> 0 <= m && m * 60 <= seconds < m * 60 + 60
    ensures seconds < 0 ==> m <= 0 && m * 60 - 60 < seconds <= m * 60
  {
    if seconds >= 0 then seconds / 60 else -((-seconds) / 60)
  }

  /** The headline's minute count: 0 for a departure due or past, else the
      whole minutes remaining. */
  function HeadlineMinutes(seconds: Option<int>): (m: nat)
    ensures seconds.None? || seconds.value <= 0 ==> m == 0
    ensures seconds.Some? && seconds.value > 0 ==> m * 60 <= seconds.value < m * 60 + 60
  {
    if seconds.None? || seconds.value <= 0 then 0 else TruncatedMinutes(seconds.value)
  }

  /** The seconds from now to a departure's effective time, when it has a
      (truthy) planned timestamp. */
  function SecondsUntil(d: Departure, now: int): (r: Option<int>)
    ensures r.Some? <==> Truthy(d.plannedTimestamp)
    ensures r.Some? ==> now + r.value == d.plannedTimestamp.value + DelayOf(d) * 60
    ensures r.Some? && DelayOf(d) >= 0 ==> r.value >= d.plannedTimestamp.value - now
  {
    if Truthy(d.plannedTimestamp)
    then TimeUntilDeparture(Some(CalculateDepartureTime(d.plannedTimestamp.value, DelayOf(d))), now)
    else None
  }

  /** `"{line} -> {destination}"`, with ` in {N} min` when the departure has a
      planned timestamp. */
  function Headline(d: Departure, now: int): (r: string)
    ensures LineText(d) + " -> " + DestinationText(d) <= r
    ensures !Truthy(d.plannedTimestamp) ==> r == LineText(d) + " -> " + DestinationText(d)
  {
    var route := LineText(d) + " -> " + DestinationText(d);
    if !Truthy(d.plannedTimestamp) then route
    else route + " in " + NatToString(HeadlineMinutes(SecondsUntil(d, now))) + " min"
  }

  /** A timed headline ends in a count of minutes that reads back as the
      whole minutes left, clamped to 0 once the departure is due. */
  lemma HeadlineMinutesReadable(d: Departure, now: int)
    requires Truthy(d.plannedTimestamp)
    ensures var seconds := d.plannedTimestamp.value + DelayOf(d) * 60 - now;
            exists digits: string | IsDigits(digits) ::
              && |digits| >= 1 && (|digits| > 1 ==> digits[0] != '0')
              && Headline(d, now) == LineText(d) + " -> " + DestinationText(d) + " in " + digits + " min"
              && (seconds <= 0 ==> DigitsValue(digits) == 0)
              && (seconds > 0 ==> DigitsValue(digits) * 60 <= seconds < DigitsValue(digits) * 60 + 60)
  {
    var m := HeadlineMinutes(SecondsUntil(d, now));
    NatToStringRoundTrip(m);
    var digits := NatToString(m);
    assert Headline(d, now) == LineText(d) + " -> " + DestinationText(d) + " in " + digits + " min";
  }

  /** `native_value`: nothing without data or without a departure passing
      the filter; otherwise the headline of the first one that passes. */
  function NativeValue(data: Option<Coordinator.Snapshot>, config: SensorConfig, now: int): (r: Option<string>)
    ensures r.None? <==> data.None? || FilterDepartures(data.value.departures, config.filterLines, config.direction) == []
    ensures r.Some? ==> r.value == Headline(FilterDepartures(data.value.departures, config.filterLines, config.direction)[0], now)
  {
    if data.None? then None
    else
      var filtered := FilterDepartures(data.value.departures, config.filterLines, config.direction);
      if filtered == [] then None else Some(Headline(filtered[0], now))
  }

  /** One entry of the sensor's `departures` attribute. */
  datatype DepartureDetail = DepartureDetail(
    line: string,
    plannedDeparture: Option<int>,                 // "planed_departure"
    plannedDepartureFormatted: Option<string>,     // "planed_departure_formatted"
    delay: int,
    departureCalculated: Option<int>,              // "departute_calculated"
    calculatedDepartureFormatted: Option<string>,
    secondsUntilDeparture: Option<int>,
    minutesUntilDeparture: Option<int>,
    destination: string,
    platform: Option<string>,
    direction: Option<string>)

  /** The detail entry of one departure. `localTime` renders an instant as
      local `HH:MM`. Values that cannot be computed are left unset; the
      seconds and minutes keep their sign. */
  function ProjectDeparture(d: Departure, now: int, localTime: int -> string): (r: DepartureDetail)
    ensures r.line == LineText(d) && r.destination == DestinationText(d)
    ensures r.plannedDeparture == d.plannedTimestamp && r.delay == DelayOf(d)
    ensures r.platform == d.platform && r.direction == d.direction
    ensures r.plannedDepartureFormatted.Some? <==> Truthy(d.plannedTimestamp)
    ensures r.plannedDepartureFormatted.Some? ==> r.plannedDepartureFormatted.value == localTime(d.plannedTimestamp.value)
    ensures r.departureCalculated.Some? <==> Truthy(d.plannedTimestamp)
    ensures r.departureCalculated.Some? ==>
      r.departureCalculated.value == d.plannedTimestamp.value + DelayOf(d) * 60
    ensures r.calculatedDepartureFormatted.Some? <==> Truthy(r.departureCalculated)
    ensures r.calculatedDepartureFormatted.Some? ==>
      r.calculatedDepartureFormatted.value == localTime(r.departureCalculated.value)
    ensures r.secondsUntilDeparture.Some? <==> Truthy(r.departureCalculated)
    ensures r.secondsUntilDeparture.Some? ==> r.secondsUntilDeparture.value == r.departureCalculated.value - now
    ensures r.minutesUntilDeparture.Some? <==> Truthy(r.secondsUntilDeparture)
    ensures r.minutesUntilDeparture.Some? ==>
      r.minutesUntilDeparture.value == TruncatedMinutes(r.secondsUntilDeparture.value)
  {
    var planned := d.plannedTimestamp;
    var delay := DelayOf(d);
    var calculated := if Truthy(planned) then Some(CalculateDepartureTime(planned.value, delay)) else None;
    var timeUntil := if Truthy(planned) then TimeUntilDeparture(calculated, now) else None;
    DepartureDetail(
      LineText(d),
      planned,
      if Truthy(planned) then Some(localTime(planned.value)) else None,
      delay,
      calculated,
      if Truthy(calculated) then Some(localTime(calculated.value)) else None,
      if Truthy(calculated) then timeUntil else None,
      if Truthy(calculated) && Truthy(timeUntil) then Some(TruncatedMinutes(timeUntil.value)) else None,
      DestinationText(d),
      d.platform,
      d.direction)
  }

  /** The headline and the detail entry of the same departure agree: the
      headline clamps a due or past departure to 0 minutes while the detail
      keeps the signed seconds, and for one still ahead both show the same
      minute count. */
  lemma HeadlineClampsDetailKeeps(d: Departure, now: int, localTime: int -> string)
    requires Truthy(d.plannedTimestamp)
    requires d.plannedTimestamp.value + DelayOf(d) * 60 != 0
    ensures var detail := ProjectDeparture(d, now, localTime);
            && detail.secondsUntilDeparture == SecondsUntil(d, now)
            && (detail.secondsUntilDeparture.value <= 0 ==> HeadlineMinutes(SecondsUntil(d, now)) == 0)
            && (detail.secondsUntilDeparture.value > 0 ==>
                  detail.minutesUntilDeparture == Some(HeadlineMinutes(SecondsUntil(d, now)) as int))
  {
  }

  /** The sensor's attribute bag. */
  datatype Attributes = Attributes(
    lastUpdate: string,
    departures: seq<DepartureDetail>,
    stopName: Option<string>,
    stoppingLines: seq<string>,
    maxDepartures: nat,
    filterLines: seq<string>,
    direction: Direction)

  /** `extra_state_attributes`. It reads `last_update` from the data before
      its guard, so without data it fails: the result is then `None`. With
      data, the departures are the details of the first `maxDepartures`
      departures that pass the filter, in order. */
  method ExtraStateAttributes(data: Option<Coordinator.Snapshot>, config: SensorConfig, now: int, localTime: int -> string)
    returns (r: Option<Attributes>)
    ensures r.None? <==> data.None?
    ensures r.Some? ==>
      var snapshot := data.value;
      var filtered := FilterDepartures(snapshot.departures, config.filterLines, config.direction);
      && r.value.lastUpdate == snapshot.lastUpdate
      && r.value.stopName == (if snapshot.stopName.Some? && snapshot.stopName.value != "" then snapshot.stopName else None)
      && r.value.stoppingLines == snapshot.stoppingLines
      && r.value.maxDepartures == config.maxDepartures
      && r.value.filterLines == config.filterLines
      && r.value.direction == config.direction
      && |r.value.departures| == (if config.maxDepartures < |filtered| then config.maxDepartures else |filtered|)
      && forall i | 0 <= i < |r.value.departures| ::
           r.value.departures[i] == ProjectDeparture(filtered[i], now, localTime)
  {
    if data.None? {
      return None;
    }
    var snapshot := data.value;
    var attributes := Attributes(snapshot.lastUpdate, [], None, [], config.maxDepartures, config.filterLines, config.direction);
    if snapshot.stopName.Some? && snapshot.stopName.value != "" {
      attributes := attributes.(stopName := snapshot.stopName);
    }
    if |snapshot.stoppingLines| > 0 {
      attributes := attributes.(stoppingLines := snapshot.stoppingLines);
    }
    var filtered := FilterDepartures(snapshot.departures, config.filterLines, config.direction);
    var shown := filtered[..if config.maxDepartures < |filtered| then config.maxDepartures else |filtered|];
    var details: seq<DepartureDetail> := [];
    for i := 0 to |shown|
      invariant |details| == i
      invariant forall k | 0 <= k < i :: details[k] == ProjectDeparture(shown[k], now, localTime)
    {
      details := details + [ProjectDeparture(shown[i], now, localTime)];
    }
    attributes := attributes.(departures := details);
    return Some(attributes);
  }

  /** Line 21 towards Centrum, on time, due in five minutes: the headline
      counts 5 minutes. */
  lemma HeadlineExample(now: int)
    requires now >= 0
    ensures var d := Departure(Some("21"), Some("Centrum"), None, Some(now + 300), Some(0), None);
            NativeValue(Some(Coordinator.Snapshot([d], None, [], "")), SensorConfig(DefaultMaxDepartures, [], All), now)
              == Some("21 -> Centrum in 5 min")
  {
    var d := Departure(Some("21"), Some("Centrum"), None, Some(now + 300), Some(0), None);
    assert SecondsUntil(d, now) == Some(300);
    assert HeadlineMinutes(Some(300)) == 5;
    assert NatToString(5) == "5";
    assert Headline(d, now) == "21" + " -> " + "Centrum" + " in " + "5" + " min";
    assert "21" + " -> " + "Centrum" + " in " + "5" + " min" == "21 -> Centrum in 5 min";
    FilterAllowsAll([d]);
  }

  /** A filter naming a line the stop does not see leaves no headline and
      nothing to detail. */
  lemma NoMatchExample(now: int)
    ensures var d := Departure(Some("21"), Some("Centrum"), None, Some(now + 300), Some(0), None);
            && FilterDepartures([d], ["99"], All) == []
            && NativeValue(Some(Coordinator.Snapshot([d], None, [], "")), SensorConfig(DefaultMaxDepartures, ["99"], All), now) == None
  {
    var d := Departure(Some("21"), Some("Centrum"), None, Some(now + 300), Some(0), None);
    assert "21" != "99";
  }

  /** Arrivals are tagged "here": the arrivals mode keeps only them, the
      outbound mode keeps the rest, an untagged departure included, and the
      mode for all directions keeps every one. */
  lemma DirectionExample(here: Departure, there: Departure, untagged: Departure)
    requires here.direction == Some("here") && there.direction == Some("there") && untagged.direction == None
    ensures FilterDepartures([here, there, untagged], [], Here) == [here]
    ensures FilterDepartures([here, there, untagged], [], There) == [there, untagged]
    ensures FilterDepartures([here, there, untagged], [], All) == [here, there, untagged]
  {
    var s := [here, there, untagged];
    assert "there"[0] != "here"[0];
    assert there.direction != Some("here");
    assert s[1..] == [there, untagged] && s[1..][1..] == [untagged] && s[1..][1..][1..] == [];
    assert FilterDepartures(s[1..][1..], [], Here) == [];
    assert FilterDepartures(s[1..], [], Here) == [];
    assert FilterDepartures(s[1..][1..], [], There) == [untagged];
    assert FilterDepartures(s[1..], [], There) == [there, untagged];
  }

  /** With room for two and five departures passing, the first two are
      detailed, in their order. */
  method TwoOfFive(now: int, localTime: int -> string) returns (r: Option<Attributes>)
    ensures r.Some? && |r.value.departures| == 2
    ensures r.value.departures[0].line == "1" && r.value.departures[1].line == "2"
  {
    var departures := seq(5, i requires 0 <= i < 5 => Departure(Some(["12345"[i]]), None, None, None, None, None));
    FilterAllowsAll(departures);
    r := ExtraStateAttributes(Some(Coordinator.Snapshot(departures, None, [], "")), SensorConfig(2, [], All), now, localTime);
  }

  /** Without a line filter and for all directions, every departure is kept. */
  lemma {:induction false} FilterAllowsAll(departures: seq<Departure>)
    ensures FilterDepartures(departures, [], All) == departures
    decreases |departures|
  {
    if departures != [] {
      FilterAllowsAll(departures[1..]);
      assert [departures[0]] + departures[1..] == departures;
    }
  }
}
