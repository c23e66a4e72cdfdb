/** The service-area map: the facility's circles, edited by clicking the map
    (a new circle) or by moving or resizing a circle, each edit reported to
    the parent and saved as the whole list with a POST to
    `/api/service-areas`, with a save status that steps through saving,
    saved or error, and back to idle. */
module AreaMap {
  import opened Wrappers
  import Text
  import ServiceAreasApi

  /** A circle as the map keeps it: radius in miles. */
  datatype Circle = Circle(id: string, lat: real, lng: real, radiusMiles: real)

  /** `"idle" | "saving" | "saved" | "error"`. */
  datatype SaveStatus = Idle | Saving | Saved | Failed

  /** How a save's request ended: a response that is ok, one that is not,
      or an exception from `fetch`. */
  datatype Outcome = Ok | NotOk | Threw

  /** The radius of a circle added by a click, in miles. */
  const NewCircleRadiusMiles: real := 10.0

  /** Meters in a mile, as the map converts them. */
  const MetersPerMile: real := 1609.34

  /** A circle as the POST body carries it: the route reads no city or
      state from it. */
  function Submitted(c: Circle): (a: ServiceAreasApi.AreaInput)
    ensures a.id == Some(c.id) && a.lat == Some(c.lat) && a.lng == Some(c.lng)
    ensures a.radiusMiles == Some(c.radiusMiles) && a.city.None? && a.state.None?
  {
    ServiceAreasApi.AreaInput(Some(c.id), Some(c.lat), Some(c.lng), Some(c.radiusMiles), None, None)
  }

  /** `JSON.stringify({ facilityId, areas })` as the route parses it. */
  function Body(facilityId: string, areas: seq<Circle>): (b: ServiceAreasApi.PostBody)
    ensures b.Body? && b.facilityId == Some(facilityId) && b.areas.Some? && |b.areas.value| == |areas|
    ensures forall i :: 0 <= i < |areas| ==> b.areas.value[i] == Some(Submitted(areas[i]))
  {
    ServiceAreasApi.Body(Some(facilityId), Some(seq(|areas|, i requires 0 <= i < |areas| => Some(Submitted(areas[i])))))
  }

  /** The circle fields of a stored row, when it has them all. The source
      has no such conversion; this projection only lets contracts compare
      stored rows with circles. */
  function FromRow(r: ServiceAreasApi.AreaRow): (c: Option<Circle>)
    ensures c.Some? <==> r.id.Some? && r.lat.Some? && r.lng.Some? && r.radiusMiles.Some?
    ensures c.Some? ==> Submitted(c.value) == ServiceAreasApi.AsInput(r).(city := None, state := None)
  {
    if r.id.Some? && r.lat.Some? && r.lng.Some? && r.radiusMiles.Some? then
      Some(Circle(r.id.value, r.lat.value, r.lng.value, r.radiusMiles.value))
    else None
  }

  /** Every save the map sends is one the route accepts as well formed, with
      no null entry, and the areas it inserts are the circles' fields. */
  lemma BodyIsWellFormed(facilityId: string, areas: seq<Circle>)
    requires ServiceAreasApi.Given(Some(facilityId))
    ensures ServiceAreasApi.WellFormed(Body(facilityId, areas))
    ensures ServiceAreasApi.NoNullEntry(Body(facilityId, areas).areas.value)
    ensures forall i :: 0 <= i < |areas| ==>
      ServiceAreasApi.Unwrap(Body(facilityId, areas).areas.value)[i] == Submitted(areas[i])
  {
  }

  /** After a save goes through, the facility's stored rows are one per
      saved circle and carry its id, center and radius, and nothing else;
      the model's table keeps them in the order they were inserted. */
  lemma {:induction false} SavedCirclesReadBack(rows: seq<ServiceAreasApi.AreaRow>, facilityId: string, areas: seq<Circle>)
    requires ServiceAreasApi.Given(Some(facilityId))
    ensures var b := Body(facilityId, areas);
      var got := ServiceAreasApi.ForFacility(ServiceAreasApi.Replaced(rows, facilityId, ServiceAreasApi.Unwrap(b.areas.value)), facilityId);
      |got| == |areas| && forall i :: 0 <= i < |areas| ==> FromRow(got[i]) == Some(areas[i])
  {
    var b := Body(facilityId, areas);
    BodyIsWellFormed(facilityId, areas);
    var inputs := ServiceAreasApi.Unwrap(b.areas.value);
    ServiceAreasApi.ReplacedForFacility(rows, facilityId, inputs);
    var got := ServiceAreasApi.ToRows(facilityId, inputs);
    assert forall i :: 0 <= i < |areas| ==> ServiceAreasApi.AsInput(got[i]) == Submitted(areas[i]);
  }

  /** The map component's state: its props (`const`), its circles, its save
      status, and the lists it has handed to `onAreaChange` and posted. */
  class ServiceAreaMap {
    const isEditable: bool
    const facilityId: Option<string>
    /** Whether an `onAreaChange` callback was given. */
    const hasListener: bool
    var circles: seq<Circle>
    var saveStatus: SaveStatus
    var reported: seq<seq<Circle>>
    var posts: seq<ServiceAreasApi.PostBody>

    constructor (serviceAreas: seq<Circle>, facilityId0: Option<string>, hasListener0: bool, isEditable0: bool)
      ensures circles == serviceAreas && saveStatus == Idle && reported == [] && posts == []
      ensures facilityId == facilityId0 && hasListener == hasListener0 && isEditable == isEditable0
    {
      isEditable := isEditable0;
      facilityId := facilityId0;
      hasListener := hasListener0;
      circles := serviceAreas;
      saveStatus := Idle;
      reported := [];
      posts := [];
    }

    /** `saveAreas`: without a facility nothing happens; otherwise the status
        becomes saving and the whole list is posted. The response arrives
        later, as `SaveFinished`. */
    method SaveAreas(areas: seq<Circle>)
      modifies this
      ensures !ServiceAreasApi.Given(facilityId) ==> saveStatus == old(saveStatus) && posts == old(posts)
      ensures ServiceAreasApi.Given(facilityId) ==>
        saveStatus == Saving && posts == old(posts) + [Body(facilityId.value, areas)]
      ensures circles == old(circles) && reported == old(reported)
    {
      if !ServiceAreasApi.Given(facilityId) {
        return;
      }
      saveStatus := Saving;
      posts := posts + [Body(facilityId.value, areas)];
    }

    /** The end of a save's request: saved on an ok response, error on any
        other response or on an exception. */
    method SaveFinished(outcome: Outcome)
      modifies this
      ensures saveStatus == if outcome == Ok then Saved else Failed
      ensures circles == old(circles) && reported == old(reported) && posts == old(posts)
    {
      if outcome == Ok {
        saveStatus := Saved;
      } else {
        saveStatus := Failed;
      }
    }

    /** The timer a successful save starts: back to idle, whatever the
        status is by then. */
    method TimerFired()
      modifies this
      ensures saveStatus == Idle
      ensures circles == old(circles) && reported == old(reported) && posts == old(posts)
    {
      saveStatus := Idle;
    }

    /** The list after an edit goes to `onAreaChange`, if given, and is
        saved. */
    method Publish()
      modifies this
      ensures reported == if hasListener then old(reported) + [circles] else old(reported)
      ensures !ServiceAreasApi.Given(facilityId) ==> saveStatus == old(saveStatus) && posts == old(posts)
      ensures ServiceAreasApi.Given(facilityId) ==>
        saveStatus == Saving && posts == old(posts) + [Body(facilityId.value, circles)]
      ensures circles == old(circles)
    {
      if hasListener {
        reported := reported + [circles];
      }
      SaveAreas(circles);
    }

    /** A click on an editable map adds one circle of ten miles at the
        clicked point, with the click time as its id; a click on a map that
        is not editable, or with no position, does nothing. */
    method HandleMapClick(latLng: Option<(real, real)>, now: nat)
      modifies this
      ensures !isEditable || latLng.None? ==>
        circles == old(circles) && saveStatus == old(saveStatus) && reported == old(reported) && posts == old(posts)
      ensures isEditable && latLng.Some? ==>
        circles == old(circles) + [Circle(Text.NatToString(now), latLng.value.0, latLng.value.1, NewCircleRadiusMiles)]
      ensures isEditable && latLng.Some? ==>
        (reported == if hasListener then old(reported) + [circles] else old(reported)) &&
        (!ServiceAreasApi.Given(facilityId) ==> saveStatus == old(saveStatus) && posts == old(posts)) &&
        (ServiceAreasApi.Given(facilityId) ==> saveStatus == Saving && posts == old(posts) + [Body(facilityId.value, circles)])
    {
      if !isEditable || latLng.None? {
        return;
      }
      var (lat, lng) := latLng.value;
      circles := circles + [Circle(Text.NatToString(now), lat, lng, NewCircleRadiusMiles)];
      Publish();
    }

    /** Moving circle `index` changes its center and nothing else. */
    method HandleCircleCenterChange(index: int, lat: real, lng: real)
      requires 0 <= index < |circles|
      modifies this
      ensures |circles| == |old(circles)|
      ensures circles[index] == old(circles)[index].(lat := lat, lng := lng)
      ensures forall j :: 0 <= j < |circles| && j != index ==> circles[j] == old(circles)[j]
      ensures reported == if hasListener then old(reported) + [circles] else old(reported)
      ensures !ServiceAreasApi.Given(facilityId) ==> saveStatus == old(saveStatus) && posts == old(posts)
      ensures ServiceAreasApi.Given(facilityId) ==>
        saveStatus == Saving && posts == old(posts) + [Body(facilityId.value, circles)]
    {
      circles := circles[index := circles[index].(lat := lat, lng := lng)];
      Publish();
    }

    /** Resizing circle `index` to `radius` meters changes its radius, in
        miles, and nothing else. The map reports the radius the circle
        already has, so the list posted is the one already held. */
    method HandleCircleRadiusChange(index: int, radius: real)
      requires 0 <= index < |circles|
      modifies this
      ensures |circles| == |old(circles)|
      ensures circles[index] == old(circles)[index].(radiusMiles := radius / MetersPerMile)
      ensures forall j :: 0 <= j < |circles| && j != index ==> circles[j] == old(circles)[j]
      ensures radius == old(circles)[index].radiusMiles * MetersPerMile ==> circles == old(circles)
      ensures reported == if hasListener then old(reported) + [circles] else old(reported)
      ensures !ServiceAreasApi.Given(facilityId) ==> saveStatus == old(saveStatus) && posts == old(posts)
      ensures ServiceAreasApi.Given(facilityId) ==>
        saveStatus == Saving && posts == old(posts) + [Body(facilityId.value, circles)]
    {
      circles := circles[index := circles[index].(radiusMiles := radius / MetersPerMile)];
      Publish();
    }
  }
}
