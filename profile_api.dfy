/** The `/api/profile` route: GET reads the signed-in user's facility
    profile, PUT validates the submitted images, bio, insurances and services
    and writes them to that facility's row. */
module ProfileApi {
  import opened Wrappers
  import Text

  /** A JSON value. */
  datatype Json =
    | JNull
    | JBool(b: bool)
    | JNum(n: real)
    | JStr(s: string)
    | JArr(items: seq<Json>)
    | JObj(fields: map<string, Json>)

  /** JavaScript truthiness of a parsed JSON value. */
  predicate Truthy(v: Json) {
    match v
    case JNull => false
    case JBool(b) => b
    case JNum(n) => n != 0.0
    case JStr(s) => s != ""
    case _ => true
  }

  /** The PUT body's fields; `None` is a field the body does not have
      (`undefined`). */
  datatype PutBody = PutBody(images: Option<Json>, insurances: Option<Json>, services: Option<Json>, bio: Option<Json>)

  /** A row of `facilities`: column name to value; a missing column is null. */
  type Row = map<string, Json>

  datatype Reply = Profile(row: Row) | Error(status: int, message: string)

  const ImagesError := "Images must be an array with max 3 items"
  const BioError := "Bio must be 300 characters or less"
  const InsurancesError := "Insurances must be an array"
  const ServicesError := "Services must be an array"
  const FetchError := "Failed to fetch profile"
  const UpdateError := "Failed to update profile"
  const InternalError := "Internal server error"
  const MaxImages := 3
  const MaxBio := 300

  /** `images && (!Array.isArray(images) || images.length > 3)`. */
  predicate BadImages(v: Option<Json>) {
    v.Some? && Truthy(v.value) && (!v.value.JArr? || |v.value.items| > MaxImages)
  }

  /** `bio && typeof bio === "string" && bio.length > 300`, with the length
      in UTF-16 code units. */
  predicate LongBio(v: Option<Json>) {
    v.Some? && v.value.JStr? && Text.JsLength(v.value.s) > MaxBio
  }

  /** `x && !Array.isArray(x)`. */
  predicate NotArray(v: Option<Json>) {
    v.Some? && Truthy(v.value) && !v.value.JArr?
  }

  /** The validation chain: the message of the first check that fails, in the
      order images, bio, insurances, services; `None` when all pass. */
  function Validate(b: PutBody): (r: Option<string>)
    ensures r == Some(ImagesError) <==> BadImages(b.images)
    ensures r == Some(BioError) <==> !BadImages(b.images) && LongBio(b.bio)
    ensures r == Some(InsurancesError) <==> !BadImages(b.images) && !LongBio(b.bio) && NotArray(b.insurances)
    ensures r == Some(ServicesError) <==>
      !BadImages(b.images) && !LongBio(b.bio) && !NotArray(b.insurances) && NotArray(b.services)
    ensures r.None? <==> !BadImages(b.images) && !LongBio(b.bio) && !NotArray(b.insurances) && !NotArray(b.services)
  {
    if BadImages(b.images) then Some(ImagesError)
    else if LongBio(b.bio) then Some(BioError)
    else if NotArray(b.insurances) then Some(InsurancesError)
    else if NotArray(b.services) then Some(ServicesError)
    else None
  }

  /** What an accepted body may hold: each list absent, falsy or an array
      (at most three images), and no string bio over 300 code units. */
  lemma AcceptedShapes(b: PutBody)
    requires Validate(b).None?
    ensures b.images.None? || !Truthy(b.images.value) || (b.images.value.JArr? && |b.images.value.items| <= 3)
    ensures b.insurances.None? || !Truthy(b.insurances.value) || b.insurances.value.JArr?
    ensures b.services.None? || !Truthy(b.services.value) || b.services.value.JArr?
    ensures b.bio.Some? && b.bio.value.JStr? ==> Text.JsLength(b.bio.value.s) <= 300
  {
  }

  /** A bio of exactly 300 code units, with three images and array lists, is
      accepted. */
  lemma BioAtLimitAccepted(images: seq<Json>, insurances: seq<Json>, services: seq<Json>, bio: string)
    requires |images| <= 3 && Text.JsLength(bio) == 300
    ensures Validate(PutBody(Some(JArr(images)), Some(JArr(insurances)), Some(JArr(services)), Some(JStr(bio)))).None?
  {
  }

  /** The columns the PUT writes. */
  predicate Written(column: string) {
    column in {"images", "insurances", "services", "bio", "updated_at"}
  }

  /** The columns `.update(...)` writes and their new values: `updated_at`
      always, and each field the body has (JSON serialisation drops an
      `undefined` field, so a field the body lacks is not written). */
  function Updates(b: PutBody, now: string): (u: map<string, Json>)
    ensures forall c :: c in u ==> Written(c)
    ensures "updated_at" in u && u["updated_at"] == JStr(now)
    ensures ("images" in u <==> b.images.Some?) && (b.images.Some? ==> u["images"] == b.images.value)
    ensures ("insurances" in u <==> b.insurances.Some?) && (b.insurances.Some? ==> u["insurances"] == b.insurances.value)
    ensures ("services" in u <==> b.services.Some?) && (b.services.Some? ==> u["services"] == b.services.value)
    ensures ("bio" in u <==> b.bio.Some?) && (b.bio.Some? ==> u["bio"] == b.bio.value)
  {
    var u := map["updated_at" := JStr(now)];
    var u := if b.images.Some? then u["images" := b.images.value] else u;
    var u := if b.insurances.Some? then u["insurances" := b.insurances.value] else u;
    var u := if b.services.Some? then u["services" := b.services.value] else u;
    if b.bio.Some? then u["bio" := b.bio.value] else u
  }

  /** The row after the update: the written columns take their new values,
      every other column is kept. */
  function Patch(row: Row, b: PutBody, now: string): (r: Row)
    ensures forall c :: c in Updates(b, now) ==> c in r && r[c] == Updates(b, now)[c]
    ensures forall c :: c !in Updates(b, now) ==> (c in r <==> c in row) && (c in row ==> r[c] == row[c])
  {
    row + Updates(b, now)
  }

  /** The row belongs to the user's organisation: `organization_id = uid`. */
  predicate OwnedBy(row: Row, uid: string) {
    "organization_id" in row && row["organization_id"] == JStr(uid)
  }

  /** The positions of the user's facility rows. */
  function Owned(rows: seq<Row>, uid: string): set<nat> {
    set i: nat | i < |rows| && OwnedBy(rows[i], uid)
  }

  /** A PUT never moves a row to another organisation. */
  lemma PatchKeepsOwner(row: Row, b: PutBody, now: string, uid: string)
    ensures OwnedBy(Patch(row, b, now), uid) <==> OwnedBy(row, uid)
  {
    assert !Written("organization_id");
  }

  /** So a patched facility is still the user's one, and the only one. */
  lemma OwnedAfterPatch(rows: seq<Row>, i: nat, b: PutBody, now: string, uid: string)
    requires i < |rows|
    ensures Owned(rows[i := Patch(rows[i], b, now)], uid) == Owned(rows, uid)
  {
    var after := rows[i := Patch(rows[i], b, now)];
    forall j: nat | j < |rows|
      ensures OwnedBy(after[j], uid) <==> OwnedBy(rows[j], uid)
    {
      if j == i {
        PatchKeepsOwner(rows[i], b, now, uid);
      }
    }
  }

  /** The `facilities` table, updated in place by PUT. */
  class ProfileTable {
    var rows: seq<Row>

    constructor (initial: seq<Row>)
      ensures rows == initial
    {
      rows := initial;
    }

    /** GET: the signed-in user's facility row; `readError` says whether the
        store fails. `.single()` fails unless exactly one row matches. */
    method Get(session: Option<string>, readError: bool) returns (res: Reply)
      ensures session.None? ==> res == Error(401, "Unauthorized")
      ensures session.Some? && (readError || |Owned(rows, session.value)| != 1) ==> res == Error(500, FetchError)
      ensures session.Some? && !readError && |Owned(rows, session.value)| == 1 ==>
        forall i :: i in Owned(rows, session.value) ==> res == Profile(rows[i])
      ensures res.Profile? ==> OwnedBy(res.row, session.value) && res.row in rows
    {
      if session.None? {
        return Error(401, "Unauthorized");
      }
      var owned := Owned(rows, session.value);
      if readError || |owned| != 1 {
        return Error(500, FetchError);
      }
      var i :| i in owned;
      OneElement(owned, i);
      return Profile(rows[i]);
    }

    /** PUT: `body` is `None` when it is null or not JSON (destructuring it
        throws); `now` is the clock; `updateError` says whether the store
        fails. The update with `.single()` is taken to change nothing unless
        exactly one row matches. */
    method Put(session: Option<string>, body: Option<PutBody>, now: string, updateError: bool) returns (res: Reply)
      modifies this
      ensures session.None? ==> res == Error(401, "Unauthorized") && rows == old(rows)
      ensures session.Some? && body.None? ==> res == Error(500, InternalError) && rows == old(rows)
      ensures session.Some? && body.Some? && Validate(body.value).Some? ==>
        res == Error(400, Validate(body.value).value) && rows == old(rows)
      ensures (session.Some? && body.Some? && Validate(body.value).None? &&
               (updateError || |Owned(old(rows), session.value)| != 1)) ==>
        res == Error(500, UpdateError) && rows == old(rows)
      ensures (session.Some? && body.Some? && Validate(body.value).None? &&
               !updateError && |Owned(old(rows), session.value)| == 1) ==>
        forall i :: i in Owned(old(rows), session.value) ==>
          rows == old(rows)[i := Patch(old(rows)[i], body.value, now)] && res == Profile(rows[i])
      ensures res.Profile? ==> Owned(rows, session.value) == Owned(old(rows), session.value)
    {
      if session.None? {
        return Error(401, "Unauthorized");
      }
      if body.None? {
        return Error(500, InternalError);
      }
      var invalid := Validate(body.value);
      if invalid.Some? {
        return Error(400, invalid.value);
      }
      var owned := Owned(rows, session.value);
      if updateError || |owned| != 1 {
        return Error(500, UpdateError);
      }
      var i :| i in owned;
      OneElement(owned, i);
      OwnedAfterPatch(rows, i, body.value, now, session.value);
      rows := rows[i := Patch(rows[i], body.value, now)];
      return Profile(rows[i]);
    }
  }

  /** A set of one element holds nothing else. */
  lemma OneElement(s: set<nat>, i: nat)
    requires |s| == 1 && i in s
    ensures s == {i}
  {
    var t := s - {i};
    assert s == {i} + t;
    assert |t| == 0;
    assert t == {};
  }
}
