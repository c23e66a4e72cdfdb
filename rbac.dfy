/** The role-based access checks of the API routes: authentication, then
    role, then resource ownership, then same organisation, each failing with
    its own response. The database is a snapshot of rows read by equality
    filters; the session is the id of the signed-in user, if any. */
module Rbac {
  import opened Wrappers

  /** A row: column name to value. A column the row lacks holds SQL null. */
  type Row = map<string, string>

  /** The database read by the checks: table name to rows. */
  type Store = map<string, seq<Row>>

  /** An equality filter `.eq(column, value)`. */
  datatype Eq = Eq(column: string, value: string)

  /** `row` passes every filter; a null column equals nothing. */
  predicate Matches(row: Row, filters: seq<Eq>) {
    forall i :: 0 <= i < |filters| ==> filters[i].column in row && row[filters[i].column] == filters[i].value
  }

  /** The rows that pass the filters, in table order. */
  function Where(rows: seq<Row>, filters: seq<Eq>): (r: seq<Row>)
    ensures forall x :: x in r <==> x in rows && Matches(x, filters)
    ensures |r| <= |rows|
  {
    if rows == [] then []
    else (if Matches(rows[0], filters) then [rows[0]] else []) + Where(rows[1..], filters)
  }

  /** `.from(table).select(...).eq(...)...single()`: the store returns the
      row only when exactly one row passes the filters; otherwise there is no
      data (and an error). A table that does not exist yields an error too. */
  function SelectSingle(store: Store, table: string, filters: seq<Eq>): (r: Option<Row>)
    ensures r.Some? ==> table in store && r.value in store[table] && Matches(r.value, filters)
    ensures r.Some? <==> table in store && |Where(store[table], filters)| == 1
    ensures table in store && (forall x :: x in store[table] ==> !Matches(x, filters)) ==> r.None?
  {
    if table !in store then None
    else
      var m := Where(store[table], filters);
      if |m| == 1 then
        assert m[0] in m;
        Some(m[0])
      else
        assert |m| > 0 ==> m[0] in m;
        None
  }

  /** The value of a column, `None` for null. */
  function Col(row: Row, column: string): (v: Option<string>)
    ensures v.Some? <==> column in row
    ensures v.Some? ==> v.value == row[column]
  {
    if column in row then Some(row[column]) else None
  }

  // Role names of lib/rbac.ts.
  const Admin := "admin"
  const OrgAdmin := "org_admin"
  const PlainUser := "user"

  /** The user row the checks work with: `select("id, role, org_id")`. */
  datatype User = User(id: string, role: Option<string>, orgId: Option<string>)

  /** The users-table row of the signed-in user, when exactly one exists. */
  function LookupUser(store: Store, sessionUser: string): (u: Option<User>)
    ensures u.Some? <==> SelectSingle(store, "users", [Eq("id", sessionUser)]).Some?
    ensures u.Some? ==> u.value.id == sessionUser
    ensures u.Some? ==>
      var row := SelectSingle(store, "users", [Eq("id", sessionUser)]).value;
      u.value.role == Col(row, "role") && u.value.orgId == Col(row, "org_id")
  {
    match SelectSingle(store, "users", [Eq("id", sessionUser)])
    case None => None
    case Some(row) => Some(User(sessionUser, Col(row, "role"), Col(row, "org_id")))
  }

  datatype OwnsResource = OwnsResource(table: string, field: string, value: string)
  datatype InOrg = InOrg(table: string, id: string)

  /** What a route asks of the signed-in user; every part is optional. */
  datatype AccessCheck = AccessCheck(hasRole: Option<seq<string>>, ownsResource: Option<OwnsResource>, inOrg: Option<InOrg>)

  /** The outcome of a check: the user, or the JSON error response. */
  datatype Access = Allowed(user: User) | Denied(status: int, message: string)

  const Unauthorized := Denied(401, "Unauthorized")
  const InsufficientPermissions := Denied(403, "Insufficient permissions")
  const ResourceDenied := Denied(403, "Resource not found or access denied")
  const FacilityDenied := Denied(403, "Facility not found or access denied")

  /** `roles.includes(role)`; a null role is in no list. */
  predicate RoleIn(role: Option<string>, roles: seq<string>) {
    role.Some? && role.value in roles
  }

  /** Exactly one row of `o.table` has `o.field = o.value` and is owned by the user. */
  predicate Owns(store: Store, user: User, o: OwnsResource)
    ensures Owns(store, user, o) ==>
      o.table in store &&
      exists x :: x in store[o.table] && Col(x, o.field) == Some(o.value) && Col(x, "owner_id") == Some(user.id)
    ensures (o.table in store &&
      forall x :: x in store[o.table] ==> Col(x, o.field) != Some(o.value) || Col(x, "owner_id") != Some(user.id)) ==>
      !Owns(store, user, o)
  {
    var fs := [Eq(o.field, o.value), Eq("owner_id", user.id)];
    var res := SelectSingle(store, o.table, fs);
    if res.Some? then
      assert fs[0] == Eq(o.field, o.value) && fs[1] == Eq("owner_id", user.id);
      true
    else false
  }

  /** The row `o.id` of `o.table` exists and its `org_id` equals the user's;
      two nulls are equal here, since the code compares with `!==`. */
  predicate SameOrg(store: Store, user: User, o: InOrg)
    ensures SameOrg(store, user, o) ==>
      o.table in store && exists x :: x in store[o.table] && Col(x, "id") == Some(o.id) && Col(x, "org_id") == user.orgId
    ensures (o.table !in store || forall x :: x in store[o.table] ==> Col(x, "id") != Some(o.id)) ==>
      !SameOrg(store, user, o)
  {
    var fs := [Eq("id", o.id)];
    var res := SelectSingle(store, o.table, fs);
    res.Some? && (assert fs[0] == Eq("id", o.id); Col(res.value, "org_id") == user.orgId)
  }

  /** Every part of the check that is given is met. */
  predicate Passes(store: Store, user: User, c: AccessCheck) {
    (c.hasRole.Some? ==> RoleIn(user.role, c.hasRole.value)) &&
    (c.ownsResource.Some? ==> Owns(store, user, c.ownsResource.value)) &&
    (c.inOrg.Some? ==> SameOrg(store, user, c.inOrg.value))
  }

  /** `checkAccess`: the signed-in user when every given check passes. A
      missing session or user row is 401; otherwise the first failing check
      (role, then ownership, then organisation) decides the 403 message. */
  function CheckAccess(store: Store, session: Option<string>, check: Option<AccessCheck>): (r: Access)
    ensures session.None? ==> r == Unauthorized
    ensures session.Some? && LookupUser(store, session.value).None? ==> r == Unauthorized
    ensures r.Allowed? <==>
      session.Some? && LookupUser(store, session.value).Some? &&
      (check.None? || Passes(store, LookupUser(store, session.value).value, check.value))
    ensures r.Allowed? ==> LookupUser(store, session.value) == Some(r.user)
    ensures r.Denied? ==> r in {Unauthorized, InsufficientPermissions, ResourceDenied}
    ensures r == Unauthorized <==> session.None? || LookupUser(store, session.value).None?
    ensures r == InsufficientPermissions <==>
      session.Some? && LookupUser(store, session.value).Some? && check.Some? &&
      check.value.hasRole.Some? && !RoleIn(LookupUser(store, session.value).value.role, check.value.hasRole.value)
  {
    if session.None? then Unauthorized
    else match LookupUser(store, session.value)
      case None => Unauthorized
      case Some(user) =>
        if check.None? then Allowed(user)
        else
          var c := check.value;
          if c.hasRole.Some? && !RoleIn(user.role, c.hasRole.value) then InsufficientPermissions
          else if c.ownsResource.Some? && !Owns(store, user, c.ownsResource.value) then ResourceDenied
          else if c.inOrg.Some? && !SameOrg(store, user, c.inOrg.value) then ResourceDenied
          else Allowed(user)
  }

  /** A check with no parts behaves as no check at all. */
  lemma EmptyCheckIsNoCheck(store: Store, session: Option<string>)
    ensures CheckAccess(store, session, Some(AccessCheck(None, None, None))) == CheckAccess(store, session, None)
  {
  }

  /** Adding a part to a check can only turn an allowed request into a
      denied one, never the other way round. */
  lemma StricterCheck(store: Store, session: Option<string>, c: AccessCheck, d: AccessCheck)
    requires c.hasRole.None? || d.hasRole == c.hasRole
    requires c.ownsResource.None? || d.ownsResource == c.ownsResource
    requires c.inOrg.None? || d.inOrg == c.inOrg
    ensures CheckAccess(store, session, Some(d)).Allowed? ==> CheckAccess(store, session, Some(c)) == CheckAccess(store, session, Some(d))
  {
  }

  /** The facility `facilityId` exists and shares the user's organisation. */
  predicate FacilityInOrg(store: Store, user: User, facilityId: string)
    ensures FacilityInOrg(store, user, facilityId) <==> SameOrg(store, user, InOrg("facilities", facilityId))
    ensures FacilityInOrg(store, user, facilityId) ==>
      exists x :: x in store["facilities"] && Col(x, "id") == Some(facilityId) && Col(x, "org_id") == user.orgId
  {
    var f := SelectSingle(store, "facilities", [Eq("id", facilityId)]);
    f.Some? && Col(f.value, "org_id") == user.orgId
  }

  /** `canManageServiceAreas`: only `admin` and `org_admin`; with a facility
      id (a non-empty string), the facility must also exist in the user's
      organisation, else 403 "Facility not found or access denied". */
  function CanManageServiceAreas(store: Store, session: Option<string>, facilityId: Option<string>): (r: Access)
    ensures r.Allowed? <==>
      CheckAccess(store, session, None).Allowed? &&
      RoleIn(CheckAccess(store, session, None).user.role, [Admin, OrgAdmin]) &&
      (facilityId.Some? && facilityId.value != "" ==> FacilityInOrg(store, CheckAccess(store, session, None).user, facilityId.value))
    ensures r.Allowed? ==> r == CheckAccess(store, session, None)
    ensures r.Denied? ==> r in {Unauthorized, InsufficientPermissions, FacilityDenied}
    ensures r == Unauthorized <==> CheckAccess(store, session, None) == Unauthorized
    ensures r == InsufficientPermissions <==>
      CheckAccess(store, session, None).Allowed? &&
      !RoleIn(CheckAccess(store, session, None).user.role, [Admin, OrgAdmin])
    ensures r == FacilityDenied <==>
      CheckAccess(store, session, None).Allowed? &&
      RoleIn(CheckAccess(store, session, None).user.role, [Admin, OrgAdmin]) &&
      facilityId.Some? && facilityId.value != "" &&
      !FacilityInOrg(store, CheckAccess(store, session, None).user, facilityId.value)
  {
    var r := CheckAccess(store, session, Some(AccessCheck(Some([Admin, OrgAdmin]), None, None)));
    if r.Denied? then r
    else if facilityId.Some? && facilityId.value != "" && !FacilityInOrg(store, r.user, facilityId.value) then FacilityDenied
    else r
  }

  /** `canViewServiceAreas`: any signed-in user, provided the facility exists
      in the user's organisation. */
  function CanViewServiceAreas(store: Store, session: Option<string>, facilityId: string): (r: Access)
    ensures r.Allowed? <==>
      CheckAccess(store, session, None).Allowed? &&
      FacilityInOrg(store, CheckAccess(store, session, None).user, facilityId)
    ensures r.Allowed? ==> r == CheckAccess(store, session, None)
    ensures r.Denied? ==> r in {Unauthorized, FacilityDenied}
    ensures r == Unauthorized <==> CheckAccess(store, session, None) == Unauthorized
  {
    var r := CheckAccess(store, session, None);
    if r.Denied? then r
    else if !FacilityInOrg(store, r.user, facilityId) then FacilityDenied
    else r
  }

  /** Whoever may manage a facility's service areas may also view them. */
  lemma ManageImpliesView(store: Store, session: Option<string>, facilityId: string)
    requires facilityId != ""
    requires CanManageServiceAreas(store, session, Some(facilityId)).Allowed?
    ensures CanViewServiceAreas(store, session, facilityId) == CanManageServiceAreas(store, session, Some(facilityId))
  {
  }

  /** A manager of another organisation's facility is refused: no role
      exempts the organisation check when a facility id is given. */
  lemma ManageIsOrgScoped(store: Store, session: Option<string>, facilityId: string)
    requires facilityId != ""
    requires CanManageServiceAreas(store, session, Some(facilityId)).Allowed?
    ensures var u := CanManageServiceAreas(store, session, Some(facilityId)).user;
      var f := SelectSingle(store, "facilities", [Eq("id", facilityId)]);
      f.Some? && Col(f.value, "org_id") == u.orgId
  {
  }

  /** A plain `user` can never manage service areas, whatever the facility. */
  lemma PlainUserCannotManage(store: Store, session: Option<string>, facilityId: Option<string>)
    requires session.Some? && LookupUser(store, session.value).Some?
    requires LookupUser(store, session.value).value.role == Some(PlainUser)
    ensures CanManageServiceAreas(store, session, facilityId) == InsufficientPermissions
  {
  }
}
