/** The data-update coordinator of one stop: it caches the stop's metadata,
    polls the departures board and publishes a snapshot per good cycle. */
module Coordinator {
  import opened Values
  import opened Api
  import opened Text
  import Const

  /** Why a refresh cycle fails. */
  datatype UpdateError =
    | CommunicationError     // aiohttp.ClientError, re-raised as UpdateFailed
    | BadStatus(status: int) // non-200 departures response, UpdateFailed
    | MalformedResponse      // no `departures` key: the TypeError `{[]}` raises

  /** What one good cycle returns and the host publishes as `coordinator.data`. */
  datatype Snapshot = Snapshot(
    departures: seq<Departure>,
    stopName: Option<string>,
    stoppingLines: seq<string>,
    lastUpdate: string)

  /** The local clock's renderings a cycle reads: the request date as
      `%Y-%m-%d+%H:%M`, the UTC offset as `%z`, and the update stamp as
      `%d.%m.%Y %H:%M:%S`. */
  datatype Clock = Clock(requestDateTime: string, requestOffset: string, updateStamp: string)

  /** The date and time part of the request's `date` field: every `:`
      escaped as `%3A`, so that a form decoder reads the original back. */
  function EncodeDateTime(dateTime: string): (r: string)
    ensures ':' !in r
    ensures |r| >= |dateTime|
    ensures '%' !in dateTime ==> Unreplace(r, ':', "%3A") == dateTime
  {
    ReplaceCharRemoves(dateTime, ':', "%3A");
    var r := ReplaceChar(dateTime, ':', "%3A");
    if '%' in dateTime then r else UnreplaceInverts(dateTime, ':', "%3A"); r
  }

  /** The offset part: `:` removed and `+` escaped as `%2B`. */
  function EncodeOffset(offset: string): (r: string)
    ensures ':' !in r && '+' !in r
    ensures ':' !in offset && '+' !in offset ==> r == offset
    ensures ':' !in offset && '%' !in offset ==> Unreplace(r, '+', "%2B") == offset
  {
    ReplaceCharRemoves(offset, ':', "");
    ReplaceCharRemoves(ReplaceChar(offset, ':', ""), '+', "%2B");
    ReplaceCharKeepsOut(ReplaceChar(offset, ':', ""), '+', "%2B", ':');
    ReplaceCharAbsent(offset, ':', "");
    ReplaceCharAbsent(offset, '+', "%2B");
    var r := ReplaceChar(ReplaceChar(offset, ':', ""), '+', "%2B");
    if ':' in offset || '%' in offset then r else UnreplaceInverts(offset, '+', "%2B"); r
  }

  /** The request's `date` field: the escaped date and time followed by the
      escaped offset; no `:` is left in it. */
  function EncodeRequestDate(dateTime: string, offset: string): (r: string)
    ensures ':' !in r
    ensures r == EncodeDateTime(dateTime) + EncodeOffset(offset)
  {
    EncodeDateTime(dateTime) + EncodeOffset(offset)
  }

  /** The clock's `%Y-%m-%d+%H:%M` has one colon, between hours and minutes:
      exactly that colon is escaped. */
  lemma {:induction false} EncodeDateTimeOneColon(date: string, time: string)
    requires ':' !in date && ':' !in time
    ensures EncodeDateTime(date + ":" + time) == date + "%3A" + time
  {
    ReplaceCharConcat(date + ":", time, ':', "%3A");
    ReplaceCharConcat(date, ":", ':', "%3A");
    ReplaceCharSingle(':', ':', "%3A");
    ReplaceCharAbsent(date, ':', "%3A");
    ReplaceCharAbsent(time, ':', "%3A");
  }

  /** The clock's `%z` of an eastern zone is `+HHMM`: the sign is escaped. */
  lemma {:induction false} EncodeOffsetEastern(zone: string)
    requires ':' !in zone && '+' !in zone
    ensures EncodeOffset("+" + zone) == "%2B" + zone
  {
    assert ':' !in "+" + zone;
    ReplaceCharAbsent("+" + zone, ':', "");
    ReplaceCharConcat("+", zone, '+', "%2B");
    ReplaceCharSingle('+', '+', "%2B");
    ReplaceCharAbsent(zone, '+', "%2B");
  }

  /** A date as the clock renders it, `{date}+{HH}:{MM}` and `+{HHMM}`,
      escaped: the `+` between date and time stays (a form decoder reads it
      as a space), the colon and the offset's `+` do not. */
  lemma EncodeClockRendering(date: string, time: string, zone: string)
    requires ':' !in date && ':' !in time && ':' !in zone && '+' !in zone
    ensures EncodeRequestDate(date + ":" + time, "+" + zone) == date + "%3A" + time + "%2B" + zone
  {
    EncodeDateTimeOneColon(date, time);
    EncodeOffsetEastern(zone);
  }

  /** `"&".join(f"{k}={v}" ...)` over the request's fields, in order. */
  function FormFields(stopId: string, date: string): (r: seq<string>)
    ensures |r| == 4
    ensures Avoids(stopId, {'&'}) && Avoids(date, {'&'}) ==> forall i | 0 <= i < |r| :: Avoids(r[i], {'&'})
  {
    assert Avoids(stopId, {'&'}) ==> Avoids("stopID=" + stopId, {'&'}) by {
      assert forall k | 7 <= k < |"stopID=" + stopId| :: ("stopID=" + stopId)[k] == stopId[k - 7];
    }
    assert Avoids(date, {'&'}) ==> Avoids("date=" + date, {'&'}) by {
      assert forall k | 5 <= k < |"date=" + date| :: ("date=" + date)[k] == date[k - 5];
    }
    ["stopID=" + stopId, "date=" + date, "filter=" + Const.DefaultFilter, "cityID=" + Const.DefaultCityId]
  }

  /** The form-encoded body `_fetch_departures` posts. */
  function DeparturesPayload(stopId: string, date: string): (r: string)
    ensures "stopID=" + stopId <= r
  {
    Join("&", FormFields(stopId, date))
  }

  /** The payload spelled out: stopID, date, filter, cityID. */
  lemma PayloadLayout(stopId: string, date: string)
    ensures DeparturesPayload(stopId, date)
         == "stopID=" + stopId + "&" + "date=" + date + "&" + "filter=urban" + "&" + "cityID=-1"
  {
    var f := FormFields(stopId, date);
    assert f[3..] == [f[3]];
    assert Join("&", f[3..]) == f[3];
    assert f[2..] == [f[2]] + f[3..];
    assert Join("&", f[2..]) == f[2] + "&" + f[3];
    assert f[1..] == [f[1]] + f[2..];
    assert Join("&", f[1..]) == f[1] + "&" + (f[2] + "&" + f[3]);
    assert f[2] == "filter=urban" && f[3] == "cityID=-1";
  }

  /** When neither the stop id nor the date contains `&`, the fields can be
      read back from the payload in their order. */
  lemma PayloadFieldsRecoverable(stopId: string, date: string)
    requires Avoids(stopId, {'&'}) && Avoids(date, {'&'})
    ensures SplitOn(DeparturesPayload(stopId, date), {'&'}) == FormFields(stopId, date)
  {
    SplitJoin('&', FormFields(stopId, date));
  }

  /** A stop-information response the coordinator takes: status 200, body
      status "ok" and a non-empty stop list. */
  predicate StopInfoUsable(resp: HttpResult<StopInfoBody>)
    ensures StopInfoUsable(resp) ==> resp.Response? && resp.body.stops.Some? && |resp.body.stops.value| >= 1
    ensures resp.ClientError? ==> !StopInfoUsable(resp)
  {
    && resp.Response? && resp.status == 200
    && resp.body.status == Some("ok")
    && resp.body.stops.Some? && |resp.body.stops.value| > 0
  }

  /** What `_fetch_departures` returns or raises for a response, apart from
      the request it sends and the stamp it records. */
  function DeparturesOutcome(resp: HttpResult<DeparturesBody>): (r: Result<seq<Departure>, UpdateError>)
    ensures r.Success? <==> resp.Response? && resp.status == 200 && resp.body.departures.Some?
    ensures r.Success? ==> r.value == resp.body.departures.value
    ensures resp.ClientError? ==> r == Failure(CommunicationError)
    ensures resp.Response? && resp.status != 200 ==> r == Failure(BadStatus(resp.status))
    ensures resp.Response? && resp.status == 200 && resp.body.departures.None? ==> r == Failure(MalformedResponse)
  {
    match resp
    case ClientError => Failure(CommunicationError)
    case Response(status, body) =>
      if status != 200 then Failure(BadStatus(status))
      else if body.departures.None? then Failure(MalformedResponse)
      else Success(body.departures.value)
  }

  class UpdateCoordinator {
    const stopId: string
    var stopName: Option<string>
    var stoppingLines: seq<string>
    var lastUpdate: string

    /** Held by the host's coordinator base class: the last published
        snapshot and whether the last cycle succeeded. */
    var data: Option<Snapshot>
    var lastUpdateSuccess: bool

    constructor (stopId: string)
      ensures this.stopId == stopId
      ensures stopName == None && stoppingLines == [] && lastUpdate == ""
      ensures data == None && lastUpdateSuccess
    {
      this.stopId := stopId;
      stopName := None;
      stoppingLines := [];
      lastUpdate := "";
      data := None;
      lastUpdateSuccess := true;
    }

    /** `_fetch_stop_info`: on a usable response, cache the first stop's name
        and lines (no lines when the key is missing); otherwise log and keep
        the cache as it was. It never fails. */
    method FetchStopInfo(resp: HttpResult<StopInfoBody>)
      modifies this`stopName, this`stoppingLines
      ensures StopInfoUsable(resp) ==>
        && stopName == resp.body.stops.value[0].stopName
        && stoppingLines == resp.body.stops.value[0].ezLines.GetOr([])
      ensures !StopInfoUsable(resp) ==> stopName == old(stopName) && stoppingLines == old(stoppingLines)
    {
      if resp.ClientError? {
        return;
      }
      if resp.status != 200 {
        return;
      }
      var body := resp.body;
      if body.status != Some("ok") || body.stops.None? || |body.stops.value| == 0 {
        return;
      }
      var stopData := body.stops.value[0];
      stopName := stopData.stopName;
      stoppingLines := stopData.ezLines.GetOr([]);
    }

    /** `_fetch_departures`: the payload it posts, and the departures
        verbatim; on success it records the update stamp, on failure it
        leaves the stamp alone. */
    method FetchDepartures(clock: Clock, resp: HttpResult<DeparturesBody>)
      returns (payload: string, r: Result<seq<Departure>, UpdateError>)
      modifies this`lastUpdate
      ensures payload == DeparturesPayload(stopId, EncodeRequestDate(clock.requestDateTime, clock.requestOffset))
      ensures r == DeparturesOutcome(resp)
      ensures lastUpdate == if r.Success? then clock.updateStamp else old(lastUpdate)
    {
      var formattedDate := EncodeRequestDate(clock.requestDateTime, clock.requestOffset);
      payload := DeparturesPayload(stopId, formattedDate);
      if resp.ClientError? {
        return payload, Failure(CommunicationError);
      }
      if resp.status != 200 {
        return payload, Failure(BadStatus(resp.status));
      }
      if resp.body.departures.None? {
        return payload, Failure(MalformedResponse);
      }
      lastUpdate := clock.updateStamp;
      r := Success(resp.body.departures.value);
    }

    /** `_async_update_data`: fetch the stop information while no name is
        cached (the response is not consulted otherwise), then the departures;
        on success return them with the cached metadata and the new stamp. */
    method UpdateData(stopResp: HttpResult<StopInfoBody>, clock: Clock, depResp: HttpResult<DeparturesBody>)
      returns (payload: string, r: Result<Snapshot, UpdateError>)
      modifies this`stopName, this`stoppingLines, this`lastUpdate
      ensures old(stopName).Some? ==> stopName == old(stopName) && stoppingLines == old(stoppingLines)
      ensures old(stopName).None? && StopInfoUsable(stopResp) ==>
        && stopName == stopResp.body.stops.value[0].stopName
        && stoppingLines == stopResp.body.stops.value[0].ezLines.GetOr([])
      ensures old(stopName).None? && !StopInfoUsable(stopResp) ==>
        stopName == old(stopName) && stoppingLines == old(stoppingLines)
      ensures payload == DeparturesPayload(stopId, EncodeRequestDate(clock.requestDateTime, clock.requestOffset))
      ensures r.Success? <==> DeparturesOutcome(depResp).Success?
      ensures r.Failure? ==> r.error == DeparturesOutcome(depResp).error && lastUpdate == old(lastUpdate)
      ensures r.Success? ==>
        && lastUpdate == clock.updateStamp
        && r.value == Snapshot(DeparturesOutcome(depResp).value, stopName, stoppingLines, lastUpdate)
    {
      if stopName.None? {
        FetchStopInfo(stopResp);
      }
      var departures;
      payload, departures := FetchDepartures(clock, depResp);
      if departures.Failure? {
        return payload, Failure(departures.error);
      }
      r := Success(Snapshot(departures.value, stopName, stoppingLines, lastUpdate));
    }

    /** One refresh as the host's coordinator base class runs it: publish the
        snapshot of a good cycle; after a failed one keep the last good
        snapshot and flag the failure. */
    method Refresh(stopResp: HttpResult<StopInfoBody>, clock: Clock, depResp: HttpResult<DeparturesBody>)
      modifies this`stopName, this`stoppingLines, this`lastUpdate, this`data, this`lastUpdateSuccess
      ensures lastUpdateSuccess <==> DeparturesOutcome(depResp).Success?
      ensures !lastUpdateSuccess ==> data == old(data) && lastUpdate == old(lastUpdate)
      ensures lastUpdateSuccess ==>
        data == Some(Snapshot(depResp.body.departures.value, stopName, stoppingLines, clock.updateStamp))
      ensures lastUpdateSuccess ==> lastUpdate == clock.updateStamp
      ensures old(stopName).Some? ==> stopName == old(stopName) && stoppingLines == old(stoppingLines)
      ensures old(stopName).None? && StopInfoUsable(stopResp) ==>
        && stopName == stopResp.body.stops.value[0].stopName
        && stoppingLines == stopResp.body.stops.value[0].ezLines.GetOr([])
      ensures old(stopName).None? && !StopInfoUsable(stopResp) ==>
        stopName == old(stopName) && stoppingLines == old(stoppingLines)
    {
      var payload, r := UpdateData(stopResp, clock, depResp);
      if r.Success? {
        data := Some(r.value);
        lastUpdateSuccess := true;
      } else {
        lastUpdateSuccess := false;
      }
    }
  }

  /** Once a name is cached, any number of cycles neither change it nor
      depend on the stop-information responses: every cycle skips the fetch. */
  method CachedNameSurvivesCycles(c: UpdateCoordinator, stopResps: seq<HttpResult<StopInfoBody>>,
                                  clocks: seq<Clock>, depResps: seq<HttpResult<DeparturesBody>>)
    requires c.stopName.Some?
    requires |stopResps| == |clocks| == |depResps|
    modifies c
    ensures c.stopName == old(c.stopName) && c.stoppingLines == old(c.stoppingLines)
  {
    for i := 0 to |clocks|
      invariant c.stopName == old(c.stopName) && c.stoppingLines == old(c.stoppingLines)
    {
      c.Refresh(stopResps[i], clocks[i], depResps[i]);
    }
  }
}
