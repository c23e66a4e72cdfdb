/** The `/api/service-areas` route: GET lists the service areas of one
    facility, POST replaces all of a facility's service areas with the
    submitted list, by deleting the facility's rows and then inserting the
    new ones. */
module ServiceAreasApi {
  import opened Wrappers
  import Rbac

  /** A row of the `service_areas` table. An `id` of `None` is one the store
      assigns on insert; a `None` column is null. */
  datatype AreaRow = AreaRow(
    id: Option<string>,
    facilityId: string,
    lat: Option<real>,
    lng: Option<real>,
    radiusMiles: Option<real>,
    city: Option<string>,
    state: Option<string>)

  /** One submitted area; a field the client left out or sent as null is
      `None`. An entry that is a number or a string reads as an area with
      every field left out. */
  datatype AreaInput = AreaInput(
    id: Option<string>,
    lat: Option<real>,
    lng: Option<real>,
    radiusMiles: Option<real>,
    city: Option<string>,
    state: Option<string>)

  /** The POST body: not JSON at all, or a JSON value whose `facilityId` is a
      string or not (`None`), and whose `areas` is an array or not (`None`).
      An array entry is `None` when it is null. A null body reads as
      `Body(None, None)`. */
  datatype PostBody =
    | Unparsable
    | Body(facilityId: Option<string>, areas: Option<seq<Option<AreaInput>>>)

  /** The route's answer. `InternalError` is an exception the handler does not
      catch, which the framework turns into a 500 response. */
  datatype Reply =
    | Areas(areas: seq<AreaRow>)
    | Error(status: int, message: string)
    | Saved
    | InternalError

  const MissingQueryParam := "facilityId query param required"
  const MissingBodyFields := "facilityId and areas are required"

  /** A query or body value the route treats as given: present and not "". */
  predicate Given(v: Option<string>) {
    v.Some? && v.value != ""
  }

  /** `.eq('facility_id', fid)`: the rows of the facility, kept in the
      order the table holds them. */
  function ForFacility(rows: seq<AreaRow>, fid: string): (r: seq<AreaRow>)
    ensures forall x :: x in r <==> x in rows && x.facilityId == fid
    ensures |r| <= |rows|
  {
    if rows == [] then []
    else (if rows[0].facilityId == fid then [rows[0]] else []) + ForFacility(rows[1..], fid)
  }

  /** The table after `.delete().eq('facility_id', fid)`: the rows of every
      other facility, in table order. */
  function Others(rows: seq<AreaRow>, fid: string): (r: seq<AreaRow>)
    ensures forall x :: x in r <==> x in rows && x.facilityId != fid
    ensures |r| <= |rows|
  {
    if rows == [] then []
    else (if rows[0].facilityId != fid then [rows[0]] else []) + Others(rows[1..], fid)
  }

  /** The row inserted for one submitted area: `radiusMiles` goes to
      `radius_miles`, and the facility is the one of the request. */
  function ToRow(fid: string, a: AreaInput): (r: AreaRow)
    ensures r.facilityId == fid
    ensures AsInput(r) == a
  {
    AreaRow(a.id, fid, a.lat, a.lng, a.radiusMiles, a.city, a.state)
  }

  /** The submitted fields a row holds. */
  function AsInput(r: AreaRow): AreaInput {
    AreaInput(r.id, r.lat, r.lng, r.radiusMiles, r.city, r.state)
  }

  /** `areas.map(...)`: one row per submitted area, in the submitted order. */
  function ToRows(fid: string, areas: seq<AreaInput>): (r: seq<AreaRow>)
    ensures |r| == |areas|
    ensures forall i :: 0 <= i < |r| ==> r[i].facilityId == fid && AsInput(r[i]) == areas[i]
  {
    if areas == [] then [] else [ToRow(fid, areas[0])] + ToRows(fid, areas[1..])
  }

  /** No entry of the submitted array is null. */
  predicate NoNullEntry(entries: seq<Option<AreaInput>>) {
    forall i :: 0 <= i < |entries| ==> entries[i].Some?
  }

  function Unwrap(entries: seq<Option<AreaInput>>): (r: seq<AreaInput>)
    requires NoNullEntry(entries)
    ensures |r| == |entries|
    ensures forall i :: 0 <= i < |r| ==> Some(r[i]) == entries[i]
  {
    if entries == [] then [] else [entries[0].value] + Unwrap(entries[1..])
  }

  /** The table after a complete replace-all of facility `fid`. */
  function Replaced(rows: seq<AreaRow>, fid: string, areas: seq<AreaInput>): seq<AreaRow> {
    Others(rows, fid) + ToRows(fid, areas)
  }

  /** The POST's role check: a user row is found and its role is neither
      `ADMIN` nor `OWNER` (a null role is in neither). When no single user
      row is found the check is skipped. */
  predicate Forbidden(users: Rbac.Store, uid: string)
    ensures Forbidden(users, uid) <==>
      Rbac.LookupUser(users, uid).Some? && !Rbac.RoleIn(Rbac.LookupUser(users, uid).value.role, ["ADMIN", "OWNER"])
  {
    var u := Rbac.SelectSingle(users, "users", [Rbac.Eq("id", uid)]);
    u.Some? && Rbac.Col(u.value, "role") != Some("ADMIN") && Rbac.Col(u.value, "role") != Some("OWNER")
  }

  /** The body names a facility and carries an array of areas. */
  predicate WellFormed(body: PostBody) {
    body.Body? && Given(body.facilityId) && body.areas.Some?
  }

  lemma {:induction false} ForFacilityAppend(xs: seq<AreaRow>, ys: seq<AreaRow>, fid: string)
    ensures ForFacility(xs + ys, fid) == ForFacility(xs, fid) + ForFacility(ys, fid)
  {
    if xs == [] {
      assert xs + ys == ys;
    } else {
      assert (xs + ys)[1..] == xs[1..] + ys;
      ForFacilityAppend(xs[1..], ys, fid);
    }
  }

  lemma {:induction false} OthersAppend(xs: seq<AreaRow>, ys: seq<AreaRow>, fid: string)
    ensures Others(xs + ys, fid) == Others(xs, fid) + Others(ys, fid)
  {
    if xs == [] {
      assert xs + ys == ys;
    } else {
      assert (xs + ys)[1..] == xs[1..] + ys;
      OthersAppend(xs[1..], ys, fid);
    }
  }

  /** Every inserted row belongs to the facility of the request. */
  lemma {:induction false} ToRowsForFacility(fid: string, areas: seq<AreaInput>, g: string)
    ensures ForFacility(ToRows(fid, areas), g) == if g == fid then ToRows(fid, areas) else []
  {
    if areas != [] {
      ToRowsForFacility(fid, areas[1..], g);
    }
  }

  /** Deleting a facility's rows removes every inserted row of it. */
  lemma {:induction false} OthersOfToRows(fid: string, areas: seq<AreaInput>)
    ensures Others(ToRows(fid, areas), fid) == []
  {
    if areas != [] {
      OthersOfToRows(fid, areas[1..]);
    }
  }

  /** Listing a facility after deleting another one's rows. */
  lemma {:induction false} ForFacilityOfOthers(rows: seq<AreaRow>, fid: string, g: string)
    ensures ForFacility(Others(rows, fid), g) == if g == fid then [] else ForFacility(rows, g)
  {
    if rows != [] {
      var head := if rows[0].facilityId != fid then [rows[0]] else [];
      assert Others(rows, fid) == head + Others(rows[1..], fid);
      ForFacilityAppend(head, Others(rows[1..], fid), g);
      assert ForFacility(rows, g) == ForFacility([rows[0]], g) + ForFacility(rows[1..], g) by {
        assert rows == [rows[0]] + rows[1..];
        ForFacilityAppend([rows[0]], rows[1..], g);
      }
      ForFacilityOfOthers(rows[1..], fid, g);
    }
  }

  /** Deleting a facility's rows twice is deleting them once. */
  lemma {:induction false} OthersIdempotent(rows: seq<AreaRow>, fid: string)
    ensures Others(Others(rows, fid), fid) == Others(rows, fid)
  {
    if rows != [] {
      var head := if rows[0].facilityId != fid then [rows[0]] else [];
      assert Others(rows, fid) == head + Others(rows[1..], fid);
      OthersAppend(head, Others(rows[1..], fid), fid);
      OthersIdempotent(rows[1..], fid);
    }
  }

  /** After a replace-all, GET lists exactly the submitted areas, in the
      submitted order. */
  lemma ReplacedForFacility(rows: seq<AreaRow>, fid: string, areas: seq<AreaInput>)
    ensures ForFacility(Replaced(rows, fid, areas), fid) == ToRows(fid, areas)
  {
    ForFacilityAppend(Others(rows, fid), ToRows(fid, areas), fid);
    ForFacilityOfOthers(rows, fid, fid);
    ToRowsForFacility(fid, areas, fid);
  }

  /** A replace-all of one facility leaves every other facility's rows as
      they were, in the same order. */
  lemma ReplacedKeepsOthers(rows: seq<AreaRow>, fid: string, areas: seq<AreaInput>, g: string)
    requires g != fid
    ensures ForFacility(Replaced(rows, fid, areas), g) == ForFacility(rows, g)
  {
    ForFacilityAppend(Others(rows, fid), ToRows(fid, areas), g);
    ForFacilityOfOthers(rows, fid, g);
    ToRowsForFacility(fid, areas, g);
  }

  /** Replacing twice is the same as replacing once with the second list. */
  lemma ReplaceTwice(rows: seq<AreaRow>, fid: string, first: seq<AreaInput>, second: seq<AreaInput>)
    ensures Replaced(Replaced(rows, fid, first), fid, second) == Replaced(rows, fid, second)
  {
    var kept := Others(rows, fid);
    var added := ToRows(fid, first);
    OthersAppend(kept, added, fid);
    OthersIdempotent(rows, fid);
    OthersOfToRows(fid, first);
    assert Others(kept + added, fid) == kept by {
      assert kept + [] == kept;
    }
  }

  /** The role check here is not that of `canManageServiceAreas`: an
      `admin` user is refused. */
  lemma AdminIsForbidden(users: Rbac.Store, uid: string)
    requires Rbac.LookupUser(users, uid).Some?
    requires Rbac.LookupUser(users, uid).value.role == Some(Rbac.Admin)
    ensures Forbidden(users, uid)
    ensures Rbac.CanManageServiceAreas(users, Some(uid), None).Allowed?
  {
  }

  /** ... and a signed-in user with no user row is let through, where
      `checkAccess` answers 401. */
  lemma MissingUserRowIsNotForbidden(users: Rbac.Store, uid: string)
    requires Rbac.LookupUser(users, uid).None?
    ensures !Forbidden(users, uid)
    ensures Rbac.CheckAccess(users, Some(uid), None) == Rbac.Unauthorized
  {
  }

  /** The `service_areas` table, changed in place by POST. */
  class ServiceAreasTable {
    var rows: seq<AreaRow>

    constructor (initial: seq<AreaRow>)
      ensures rows == initial
    {
      rows := initial;
    }

    /** GET `?facilityId=...`; `readError` is the store's error message, if
        the read fails. No authentication is done here. */
    method Get(facilityId: Option<string>, readError: Option<string>) returns (res: Reply)
      ensures !Given(facilityId) ==> res == Error(400, MissingQueryParam)
      ensures Given(facilityId) && readError.Some? ==> res == Error(500, readError.value)
      ensures Given(facilityId) && readError.None? ==>
        res.Areas? && (forall x :: x in res.areas <==> x in rows && x.facilityId == facilityId.value)
      ensures Given(facilityId) && readError.None? ==> res == Areas(ForFacility(rows, facilityId.value))
    {
      if !Given(facilityId) {
        return Error(400, MissingQueryParam);
      }
      if readError.Some? {
        return Error(500, readError.value);
      }
      return Areas(ForFacility(rows, facilityId.value));
    }

    /** POST: the session, the user rows for the role check, the body, and the
        store's error messages for the delete and the insert, if they fail.
        The delete and the insert are two separate writes: a failure or an
        exception between them leaves the facility with no areas. */
    method Post(users: Rbac.Store, session: Option<string>, body: PostBody,
                deleteError: Option<string>, insertError: Option<string>) returns (res: Reply)
      modifies this
      ensures session.None? ==> res == Error(401, "Unauthorized") && rows == old(rows)
      ensures session.Some? && Forbidden(users, session.value) ==>
        res == Error(403, "Forbidden") && rows == old(rows)
      ensures session.Some? && !Forbidden(users, session.value) && body.Unparsable? ==>
        res == InternalError && rows == old(rows)
      ensures session.Some? && !Forbidden(users, session.value) && body.Body? && !WellFormed(body) ==>
        res == Error(400, MissingBodyFields) && rows == old(rows)
      ensures session.Some? && !Forbidden(users, session.value) && WellFormed(body) && deleteError.Some? ==>
        res == Error(500, deleteError.value) && rows == old(rows)
      ensures session.Some? && !Forbidden(users, session.value) && WellFormed(body) && deleteError.None? ==>
        var fid := body.facilityId.value;
        var entries := body.areas.value;
        if !NoNullEntry(entries) then
          res == InternalError && rows == Others(old(rows), fid)
        else if insertError.Some? then
          res == Error(500, insertError.value) && rows == Others(old(rows), fid)
        else
          res == Saved && rows == Replaced(old(rows), fid, Unwrap(entries))
      ensures res == Saved <==>
        session.Some? && !Forbidden(users, session.value) && WellFormed(body) &&
        deleteError.None? && NoNullEntry(body.areas.value) && insertError.None?
    {
      if session.None? {
        return Error(401, "Unauthorized");
      }
      if Forbidden(users, session.value) {
        return Error(403, "Forbidden");
      }
      if body.Unparsable? {
        return InternalError;
      }
      if !Given(body.facilityId) || body.areas.None? {
        return Error(400, MissingBodyFields);
      }
      var fid := body.facilityId.value;
      var entries := body.areas.value;
      if deleteError.Some? {
        return Error(500, deleteError.value);
      }
      rows := Others(rows, fid);
      if !NoNullEntry(entries) {
        return InternalError;
      }
      var toInsert := ToRows(fid, Unwrap(entries));
      if insertError.Some? {
        return Error(500, insertError.value);
      }
      rows := rows + toInsert;
      return Saved;
    }
  }
}
