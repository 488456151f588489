/** The web entry point's routing decision: the admin view is rendered
    only for a non-empty `admin` query parameter equal to the
    `ADMIN_TOKEN` environment variable; every other request gets the chat
    view. */
module App {
  import opened Results

  const ADMIN_QUERY_KEY := "admin"
  const ADMIN_TOKEN_VAR := "ADMIN_TOKEN"

  /** The query string as the UI library exposes it: the current API maps
      each key to one value; the legacy API maps each key to a list. */
  datatype QueryParams =
    | Current(values: map<string, string>)
    | Legacy(lists: map<string, seq<string>>)

  datatype View = AdminView | ChatView

  /** The `admin` parameter, or `None` when there is none. */
  function AdminParam(qp: QueryParams): (r: Option<string>)
    ensures qp.Current? ==> (r.Some? <==> ADMIN_QUERY_KEY in qp.values)
    ensures qp.Current? && r.Some? ==> r.value == qp.values[ADMIN_QUERY_KEY]
    ensures qp.Legacy? ==> (r.None? <==> ADMIN_QUERY_KEY !in qp.lists || qp.lists[ADMIN_QUERY_KEY] == [])
    ensures qp.Legacy? && r.Some? ==> r.value == qp.lists[ADMIN_QUERY_KEY][0]
  {
    match qp
    case Current(values) =>
      if ADMIN_QUERY_KEY in values then Some(values[ADMIN_QUERY_KEY]) else None
    case Legacy(lists) =>
      // `(params.get(key, [None]) or [None])[0]`
      var l: seq<Option<string>> :=
        if ADMIN_QUERY_KEY in lists then seq(|lists[ADMIN_QUERY_KEY]|, k requires 0 <= k < |lists[ADMIN_QUERY_KEY]| => Some(lists[ADMIN_QUERY_KEY][k]))
        else [None];
      var l' := if l == [] then [None] else l;
      l'[0]
  }

  /** `main`: which view one request renders. */
  function Route(qp: QueryParams, env: map<string, string>): (r: View)
    ensures r == AdminView <==>
      && AdminParam(qp).Some?
      && AdminParam(qp).value != ""
      && ADMIN_TOKEN_VAR in env
      && env[ADMIN_TOKEN_VAR] == AdminParam(qp).value
  {
    match AdminParam(qp)
    case Some(p) =>
      if p != "" && ADMIN_TOKEN_VAR in env && p == env[ADMIN_TOKEN_VAR] then AdminView else ChatView
    case None => ChatView
  }

  /** Without a non-empty token no request reaches the admin view. */
  lemma NoTokenNoAdmin(qp: QueryParams, env: map<string, string>)
    requires ADMIN_TOKEN_VAR !in env || env[ADMIN_TOKEN_VAR] == ""
    ensures Route(qp, env) == ChatView
  {
  }

  /** The legacy path routes like the current one on the first value of
      the `admin` list, and like an absent parameter on an empty list. */
  lemma LegacyAgreesWithCurrent(lists: map<string, seq<string>>, values: map<string, string>, env: map<string, string>)
    requires ADMIN_QUERY_KEY in lists && |lists[ADMIN_QUERY_KEY]| > 0 ==>
      ADMIN_QUERY_KEY in values && values[ADMIN_QUERY_KEY] == lists[ADMIN_QUERY_KEY][0]
    requires (ADMIN_QUERY_KEY !in lists || lists[ADMIN_QUERY_KEY] == []) ==> ADMIN_QUERY_KEY !in values
    ensures Route(Legacy(lists), env) == Route(Current(values), env)
  {
  }
}
