/** The routes and policies tables: what one SQL statement does to them, and
    what the two reading statements of a reload may return. */
module ConfigTables {
  import opened Strings
  import opened Models
  import RouteMatcher

  /** `routes` is keyed by id; `policies` by route id, which is UNIQUE. */
  datatype Tables = Tables(routes: map<string, Route>, policies: map<string, Policy>)

  const EMPTY := Tables(map[], map[])

  datatype Write =
    | InsertRoute(route: Route)
    | UpdateRoute(route: Route)
    | DeleteRoute(routeId: string)
    | UpsertPolicy(policy: Policy)
    | DeletePolicy(policyId: string)

  /** The statement succeeds and affects a row; the handler goes on to bump. */
  predicate Accepted(t: Tables, w: Write) {
    match w
    case InsertRoute(r) => r.id !in t.routes && NameFree(t, r) && Fits(r)
    case UpdateRoute(r) => r.id in t.routes && NameFree(t, r) && Fits(r)
    case DeleteRoute(id) => id in t.routes
    case UpsertPolicy(p) => p.routeId in t.routes && (p.routeId in t.policies || !HasPolicy(t, p.id))
    case DeletePolicy(id) => HasPolicy(t, id)
  }

  predicate NameFree(t: Tables, r: Route) {
    forall k :: k in t.routes && k != r.id ==> t.routes[k].name != r.name
  }

  predicate HasPolicy(t: Tables, id: string) {
    exists k :: k in t.policies && t.policies[k].id == id
  }

  /** The VARCHAR(255) columns of the routes table. */
  predicate Fits(r: Route) {
    |r.name| <= 255 && |r.pathPrefix| <= 255 && |r.upstreamHost| <= 255
  }

  /** Deleting a route cascades to its policy; an upsert keeps the row's id. */
  function Effect(t: Tables, w: Write): Tables {
    match w
    case InsertRoute(r) => t.(routes := t.routes[r.id := r])
    case UpdateRoute(r) => t.(routes := t.routes[r.id := r])
    case DeleteRoute(id) => Tables(t.routes - {id}, t.policies - {id})
    case UpsertPolicy(p) =>
      var row := if p.routeId in t.policies then p.(id := t.policies[p.routeId].id) else p;
      t.(policies := t.policies[p.routeId := row])
    case DeletePolicy(id) =>
      t.(policies := map k | k in t.policies && t.policies[k].id != id :: t.policies[k])
  }

  /** The tables after a log of accepted writes. */
  function Replay(log: seq<Write>): Tables {
    if log == [] then EMPTY else Effect(Replay(log[..|log| - 1]), log[|log| - 1])
  }

  /** Rows sit under their own keys, route names and policy ids are unique and
      every policy belongs to a route. */
  ghost predicate Consistent(t: Tables) {
    && (forall k :: k in t.routes ==> t.routes[k].id == k)
    && (forall k :: k in t.policies ==> t.policies[k].routeId == k && k in t.routes)
    && (forall j, k :: j in t.routes && k in t.routes && j != k ==> t.routes[j].name != t.routes[k].name)
    && (forall j, k :: j in t.policies && k in t.policies && j != k ==> t.policies[j].id != t.policies[k].id)
  }

  lemma EffectKeepsConsistent(t: Tables, w: Write)
    requires Consistent(t) && Accepted(t, w)
    ensures Consistent(Effect(t, w))
  {
  }

  /** `WHERE enabled = true ORDER BY LENGTH(path_prefix) DESC`: each enabled row
      once, longest prefix first, ties in any order. */
  ghost predicate EnabledListing(rows: seq<Route>, table: map<string, Route>) {
    && RouteMatcher.LongestFirst(rows)
    && (forall i, j :: 0 <= i < j < |rows| ==> rows[i].id != rows[j].id)
    && (forall r :: r in rows <==> r.id in table && table[r.id] == r && r.enabled)
  }

  /** `SELECT * FROM policies`: each row once. */
  ghost predicate PolicyListing(rows: seq<Policy>, table: map<string, Policy>) {
    && (forall i, j :: 0 <= i < j < |rows| ==> rows[i].routeId != rows[j].routeId)
    && (forall p :: p in rows <==> p.routeId in table && table[p.routeId] == p)
  }

  /** The map the reload builds from the rows, later rows winning. */
  function PolicyMap(rows: seq<Policy>): map<string, Policy> {
    if rows == [] then map[]
    else PolicyMap(rows[..|rows| - 1])[rows[|rows| - 1].routeId := rows[|rows| - 1]]
  }

  /** The map holds the rows, each under its own route id. */
  ghost predicate MapOfRows(m: map<string, Policy>, rows: seq<Policy>) {
    && (forall p :: p in rows <==> p.routeId in m && m[p.routeId] == p)
    && (forall k :: k in m ==> m[k].routeId == k)
  }

  lemma PutRow(m: map<string, Policy>, rows: seq<Policy>, last: Policy)
    requires MapOfRows(m, rows)
    requires forall p :: p in rows ==> p.routeId != last.routeId
    ensures MapOfRows(m[last.routeId := last], rows + [last])
  {
    forall p
      ensures p in rows + [last] <==> p in rows || p == last
    {
    }
  }

  lemma {:induction false} PolicyMapHolds(rows: seq<Policy>)
    requires forall i, j :: 0 <= i < j < |rows| ==> rows[i].routeId != rows[j].routeId
    ensures MapOfRows(PolicyMap(rows), rows)
  {
    hide MapOfRows;
    if rows == [] {
      assert MapOfRows(map[], []) by { NoRows(); }
    } else {
      var init, last := rows[..|rows| - 1], rows[|rows| - 1];
      PolicyMapHolds(init);
      assert rows == init + [last];
      PutRow(PolicyMap(init), init, last);
    }
  }

  lemma NoRows()
    ensures MapOfRows(map[], [])
  {
  }

  /** In whatever order the rows come, the map is the table. */
  lemma PolicyMapIsTable(rows: seq<Policy>, t: Tables)
    requires Consistent(t) && PolicyListing(rows, t.policies)
    ensures PolicyMap(rows) == t.policies
  {
    PolicyMapHolds(rows);
    var m := PolicyMap(rows);
    forall k | k in t.policies
      ensures k in m && m[k] == t.policies[k]
    {
      assert t.policies[k] in rows;
    }
    forall k | k in m
      ensures k in t.policies
    {
      assert m[k].routeId in m && m[m[k].routeId] == m[k];
      assert m[k] in rows;
    }
  }
}
