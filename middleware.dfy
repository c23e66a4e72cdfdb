/** The request gate that runs before every page and API route: it refuses
    to serve when the database is not configured, demands a signed-in user
    with a user row for `/api` paths, sends signed-out visitors of `/app`
    pages to the sign-in page, and on success sets the user's id, role and
    organisation as response headers. */
module Middleware {
  import opened Wrappers
  import Rbac

  /** The environment variables the gate reads. */
  datatype Env = Env(
    supabaseUrl: Option<string>,   // NEXT_PUBLIC_SUPABASE_URL
    anonKey: Option<string>,       // NEXT_PUBLIC_SUPABASE_ANON_KEY
    nodeEnv: Option<string>,       // NODE_ENV
    devPreview: Option<string>)    // DEV_PREVIEW

  /** What the gate does with a request. */
  datatype Response =
    | Next(headers: map<string, string>)    // pass on, with these response headers set
    | Json(status: int, error: string)      // answer with a JSON error
    | Redirect(location: string)

  const NotConfiguredError := "Supabase not configured or invalid credentials. Set valid NEXT_PUBLIC_SUPABASE_URL and NEXT_PUBLIC_SUPABASE_ANON_KEY in .env.local."
  const MisconfiguredError := "Server misconfiguration: Supabase environment variables missing"
  const SignIn := "/auth/signin"

  predicate StartsWith(s: string, prefix: string) {
    |prefix| <= |s| && s[..|prefix|] == prefix
  }

  /** The URL matches `^https?://` and the key contains a dot. */
  predicate IsConfigured(env: Env)
    ensures IsConfigured(env) ==>
      env.supabaseUrl.Some? && |env.supabaseUrl.value| >= 7 && env.supabaseUrl.value[..4] == "http"
    ensures IsConfigured(env) ==>
      env.anonKey.Some? && exists i :: 0 <= i < |env.anonKey.value| && env.anonKey.value[i] == '.'
    ensures env.supabaseUrl.Some? && |env.supabaseUrl.value| > 0 && env.supabaseUrl.value[0] != 'h' ==> !IsConfigured(env)
    ensures (env.supabaseUrl.Some? && |env.supabaseUrl.value| >= 8 && env.supabaseUrl.value[..8] == "https://" &&
      env.anonKey.Some? && '.' in env.anonKey.value) ==> IsConfigured(env)
  {
    env.supabaseUrl.Some? && (StartsWith(env.supabaseUrl.value, "http://") || StartsWith(env.supabaseUrl.value, "https://")) &&
    env.anonKey.Some? && '.' in env.anonKey.value
  }

  predicate IsProduction(env: Env) {
    env.nodeEnv == Some("production")
  }

  /** Preview of `/app` pages without a session: outside production, and
      only when DEV_PREVIEW is exactly "true". */
  predicate DevPreview(env: Env)
    ensures IsProduction(env) ==> !DevPreview(env)
    ensures env.devPreview != Some("true") ==> !DevPreview(env)
    ensures !IsProduction(env) && env.devPreview == Some("true") ==> DevPreview(env)
  {
    !IsProduction(env) && env.devPreview == Some("true")
  }

  /** `headers.set(name, value)` stores `String(value)`: a null role becomes "null". */
  function HeaderValue(v: Option<string>): string {
    v.GetOr("null")
  }

  /** The `/api` headers: `x-user-id`, `x-user-role`, and `x-user-org` when
      the organisation is a non-empty string. */
  function ApiHeaders(user: Rbac.User): (h: map<string, string>)
    ensures h.Keys <= {"x-user-id", "x-user-role", "x-user-org"}
    ensures "x-user-id" in h && h["x-user-id"] == user.id
    ensures "x-user-role" in h && h["x-user-role"] == HeaderValue(user.role)
    ensures "x-user-org" in h <==> user.orgId.Some? && user.orgId.value != ""
    ensures "x-user-org" in h ==> h["x-user-org"] == user.orgId.value
  {
    var h := map["x-user-id" := user.id, "x-user-role" := HeaderValue(user.role)];
    if user.orgId.Some? && user.orgId.value != "" then h["x-user-org" := user.orgId.value] else h
  }

  /** `middleware(request)`, with the session and user rows as a store
      snapshot. */
  method Handle(env: Env, path: string, store: Rbac.Store, session: Option<string>) returns (res: Response)
    // not configured
    ensures !IsConfigured(env) && !IsProduction(env) ==>
      res == if StartsWith(path, "/api") then Json(503, NotConfiguredError) else Next(map[])
    ensures !IsConfigured(env) && IsProduction(env) ==> res == Json(500, MisconfiguredError)
    // configured, /api
    ensures IsConfigured(env) && StartsWith(path, "/api") ==>
      match Rbac.CheckAccess(store, session, None)
      case Denied(status, error) => res == Json(status, error)
      case Allowed(user) => res == Next(ApiHeaders(user))
    ensures IsConfigured(env) && StartsWith(path, "/api") && session.None? ==> res == Json(401, "Unauthorized")
    // configured, /app
    ensures IsConfigured(env) && !StartsWith(path, "/api") && StartsWith(path, "/app") ==>
      if session.None? then
        res == if DevPreview(env) then Next(map[]) else Redirect(SignIn)
      else
        var row := Rbac.SelectSingle(store, "users", [Rbac.Eq("id", session.value)]);
        res == if row.None? then Redirect(SignIn) else Next(map["x-user-role" := HeaderValue(Rbac.Col(row.value, "role"))])
    // configured, any other path
    ensures IsConfigured(env) && !StartsWith(path, "/api") && !StartsWith(path, "/app") ==> res == Next(map[])
    // only a pass carries headers, and only an authenticated pass carries user headers
    ensures res.Next? && res.headers != map[] ==> IsConfigured(env) && session.Some?
  {
    var headers: map<string, string> := map[];
    if !IsConfigured(env) {
      if !IsProduction(env) {
        if StartsWith(path, "/api") {
          return Json(503, NotConfiguredError);
        }
        return Next(headers);
      }
      return Json(500, MisconfiguredError);
    }

    if StartsWith(path, "/api") {
      if session.None? {
        return Json(401, "Unauthorized");
      }
      var user := Rbac.LookupUser(store, session.value);
      if user.None? {
        return Json(401, "Unauthorized");
      }
      headers := headers["x-user-id" := user.value.id];
      headers := headers["x-user-role" := HeaderValue(user.value.role)];
      if user.value.orgId.Some? && user.value.orgId.value != "" {
        headers := headers["x-user-org" := user.value.orgId.value];
      }
      return Next(headers);
    }

    if StartsWith(path, "/app") {
      if session.None? && !DevPreview(env) {
        return Redirect(SignIn);
      }
      if session.Some? {
        var row := Rbac.SelectSingle(store, "users", [Rbac.Eq("id", session.value)]);
        if row.None? {
          return Redirect(SignIn);
        }
        headers := headers["x-user-role" := HeaderValue(Rbac.Col(row.value, "role"))];
      }
    }
    return Next(headers);
  }
}
