/** The same code run statement by statement on its mutable state: the tables,
    the version repository, the admin handlers and one gateway's cache. Each
    method's effect is a run of the interleaved protocol. */
module ConfigCache {
  import opened Strings
  import opened Models
  import opened ConfigTables
  import opened ConfigProtocol
  import opened ConfigInvariants
  import RouteMatcher

  class ConfigDatabase {
    var tables: Tables
    var versions: seq<nat>
    ghost var log: seq<Write>
    ghost var bumped: map<nat, nat>

    ghost predicate Valid()
      reads this
    {
      tables == Replay(log) && Consistent(tables)
    }

    constructor ()
      ensures Valid() && tables == EMPTY && versions == [] && log == [] && bumped == map[]
    {
      tables, versions, log, bumped := EMPTY, [], [], map[];
    }

    /** `getLatest`: the greatest row, null for an empty table. */
    method GetLatest() returns (latest: Option<nat>)
      ensures latest.None? <==> versions == []
      ensures latest.Some? ==> latest.value in versions && forall v :: v in versions ==> v <= latest.value
    {
      if versions == [] {
        return None;
      }
      MaxVersionIsMaximum(versions, MaxVersion(versions));
      latest := Some(MaxVersion(versions));
    }

    /** `bump`: read the latest version, insert the next one. */
    method Bump() returns (v: nat)
      modifies this`versions
      ensures v == MaxVersion(old(versions)) + 1 && versions == old(versions) + [v]
      ensures MaxVersion(versions) == v
    {
      var latest := GetLatest();
      v := (if latest.Some? then latest.value else 0) + 1;
      MaxVersionIsMaximum(versions, v - 1);
      MaxAppend(versions, v);
      versions := versions + [v];
    }

    /** One write statement; a violated constraint or a missing row changes nothing. */
    method Execute(w: Write) returns (ok: bool)
      requires Valid()
      modifies this`tables, this`log
      ensures Valid() && ok == Accepted(old(tables), w)
      ensures ok ==> tables == Effect(old(tables), w) && log == old(log) + [w]
      ensures !ok ==> tables == old(tables) && log == old(log)
    {
      ok := Accepted(tables, w);
      if ok {
        EffectKeepsConsistent(tables, w);
        ReplayAppend(log, w);
        tables := Effect(tables, w);
        log := log + [w];
      }
    }

    /** `findEnabled`: the enabled rows, longest prefix first. */
    method FindEnabled() returns (rows: seq<Route>)
      requires Valid()
      ensures EnabledListing(rows, tables.routes)
    {
      rows := [];
      var todo := tables.routes.Keys;
      while todo != {}
        invariant todo <= tables.routes.Keys
        invariant RouteMatcher.LongestFirst(rows)
        invariant forall i, j :: 0 <= i < j < |rows| ==> rows[i].id != rows[j].id
        invariant forall r :: r in rows <==>
                    r.id in tables.routes && r.id !in todo && tables.routes[r.id] == r && r.enabled
        decreases |todo|
      {
        var k :| k in todo;
        todo := todo - {k};
        if tables.routes[k].enabled {
          rows := Place(tables.routes[k], rows);
        }
      }
    }

    /** The policies, each once. */
    method FindAllPolicies() returns (rows: seq<Policy>)
      requires Valid()
      ensures PolicyListing(rows, tables.policies)
    {
      rows := [];
      var todo := tables.policies.Keys;
      while todo != {}
        invariant todo <= tables.policies.Keys
        invariant ListedExcept(rows, tables.policies, todo)
        decreases |todo|
      {
        var k :| k in todo;
        ListOneMore(rows, tables.policies, todo, k);
        todo := todo - {k};
        rows := rows + [tables.policies[k]];
      }
    }
  }

  ghost predicate ListedExcept(rows: seq<Policy>, table: map<string, Policy>, todo: set<string>) {
    && (forall i, j :: 0 <= i < j < |rows| ==> rows[i].routeId != rows[j].routeId)
    && (forall p :: p in rows <==> p.routeId in table && p.routeId !in todo && table[p.routeId] == p)
  }

  lemma ListOneMore(rows: seq<Policy>, table: map<string, Policy>, todo: set<string>, k: string)
    requires ListedExcept(rows, table, todo) && k in todo && k in table && table[k].routeId == k
    ensures ListedExcept(rows + [table[k]], table, todo - {k})
  {
    var more := rows + [table[k]];
    forall i, j | 0 <= i < j < |more|
      ensures more[i].routeId != more[j].routeId
    {
      assert rows[i] in rows;
    }
    forall p
      ensures p in more <==> p.routeId in table && p.routeId !in todo - {k} && table[p.routeId] == p
    {
      assert p in more <==> p in rows || p == table[k];
    }
  }

  /** A row put at its place in a listing ordered longest prefix first. */
  method Place(r: Route, rows: seq<Route>) returns (placed: seq<Route>)
    requires RouteMatcher.LongestFirst(rows)
    requires forall q :: q in rows ==> q.id != r.id
    requires forall i, j :: 0 <= i < j < |rows| ==> rows[i].id != rows[j].id
    ensures RouteMatcher.LongestFirst(placed)
    ensures forall i, j :: 0 <= i < j < |placed| ==> placed[i].id != placed[j].id
    ensures forall q :: q in placed <==> q == r || q in rows
  {
    var n := 0;
    while n < |rows| && |rows[n].pathPrefix| >= |r.pathPrefix|
      invariant 0 <= n <= |rows|
      invariant forall k :: 0 <= k < n ==> |rows[k].pathPrefix| >= |r.pathPrefix|
    {
      n := n + 1;
    }
    placed := rows[..n] + [r] + rows[n..];
    PlacedOrder(r, rows, n);
    PlacedRows(r, rows, n);
  }

  lemma PlacedOrder(r: Route, rows: seq<Route>, n: nat)
    requires n <= |rows| && RouteMatcher.LongestFirst(rows)
    requires forall k :: 0 <= k < n ==> |rows[k].pathPrefix| >= |r.pathPrefix|
    requires n < |rows| ==> |rows[n].pathPrefix| < |r.pathPrefix|
    ensures RouteMatcher.LongestFirst(rows[..n] + [r] + rows[n..])
  {
    var placed := rows[..n] + [r] + rows[n..];
    forall i, j | 0 <= i < j < |placed|
      ensures |placed[i].pathPrefix| >= |placed[j].pathPrefix|
    {
      assert placed[i] == if i < n then rows[i] else if i == n then r else rows[i - 1];
      assert placed[j] == if j < n then rows[j] else if j == n then r else rows[j - 1];
    }
  }

  lemma PlacedRows(r: Route, rows: seq<Route>, n: nat)
    requires n <= |rows|
    requires forall q :: q in rows ==> q.id != r.id
    requires forall i, j :: 0 <= i < j < |rows| ==> rows[i].id != rows[j].id
    ensures var placed := rows[..n] + [r] + rows[n..];
            && (forall i, j :: 0 <= i < j < |placed| ==> placed[i].id != placed[j].id)
            && (forall q :: q in placed <==> q == r || q in rows)
  {
    var placed := rows[..n] + [r] + rows[n..];
    assert rows == rows[..n] + rows[n..];
    forall i, j | 0 <= i < j < |placed|
      ensures placed[i].id != placed[j].id
    {
      assert placed[i] == if i < n then rows[i] else if i == n then r else rows[i - 1];
      assert placed[j] == if j < n then rows[j] else if j == n then r else rows[j - 1];
    }
  }

  /** The outcome of an admin handler. */
  datatype Reply = BadRequest | NotFound | Conflict | Failed | Done

  datatype Address = Address(host: string, port: int)

  /** The body of a route request, without the keys its schema does not list,
      canary among them. */
  datatype RouteBody = RouteBody(
    name: Option<string>,
    pathPrefix: Option<string>,
    upstream: Option<Address>,
    stripPath: Option<bool>,
    connectMs: Option<int>,
    requestMs: Option<int>,
    retries: Option<int>,
    enabled: Option<bool>)

  function Or<T>(o: Option<T>, otherwise: T): T {
    if o.Some? then o.value else otherwise
  }

  /** The defaults that validation writes into a body, for updates as well. */
  function Filled(body: RouteBody): RouteBody {
    body.(stripPath := Some(Or(body.stripPath, false)), retries := Some(Or(body.retries, 0)))
  }

  /** Every key that is present holds what the schema allows. */
  predicate ValidFields(body: RouteBody) {
    && (body.name.Some? ==> ValidName(body.name.value) && |body.name.value| <= 255)
    && (body.pathPrefix.Some? ==> "/" <= body.pathPrefix.value)
    && (body.upstream.Some? ==> body.upstream.value.host != "" && 1 <= body.upstream.value.port <= 65535)
    && (body.connectMs.Some? ==> 1 <= body.connectMs.value <= 30000)
    && (body.requestMs.Some? ==> 1 <= body.requestMs.value <= 60000)
    && (body.retries.Some? ==> 0 <= body.retries.value <= 10)
  }

  predicate ValidNew(body: RouteBody) {
    ValidFields(body) && body.name.Some? && body.pathPrefix.Some? && body.upstream.Some?
  }

  /** The row of a new route: enabled, and without canary. */
  function NewRow(id: string, body: RouteBody): Route
    requires ValidNew(body)
  {
    Route(id, body.name.value, body.pathPrefix.value, body.upstream.value.host, body.upstream.value.port,
          Or(body.stripPath, false), Or(body.connectMs, 200), Or(body.requestMs, 2000), Or(body.retries, 2),
          true, None, None, None)
  }

  /** What creating a route stores, field by field. */
  lemma CreatedRow(id: string, body: RouteBody)
    requires ValidNew(body)
    ensures ValidNew(Filled(body))
    ensures var row := NewRow(id, Filled(body));
      && row.enabled && row.id == id
      && row.name == body.name.value && row.pathPrefix == body.pathPrefix.value
      && row.upstreamHost == body.upstream.value.host && row.upstreamPort == body.upstream.value.port
      && row.stripPath == (body.stripPath == Some(true))
      && row.retries == (if body.retries.Some? then body.retries.value else 0)
      && row.connectTimeoutMs == (if body.connectMs.Some? then body.connectMs.value else 200)
      && row.requestTimeoutMs == (if body.requestMs.Some? then body.requestMs.value else 2000)
      && row.canaryHost.None? && row.canaryPort.None? && row.canaryWeight.None?
  {
  }

  /** The bounds of a valid body, key by key. */
  lemma BodyBounds(body: RouteBody)
    ensures ValidFields(body) <==>
      && (body.name.Some? ==>
            && 1 <= |body.name.value| <= 255
            && forall c :: c in body.name.value ==> 'a' <= c <= 'z' || '0' <= c <= '9' || c == '-' || c == '_')
      && (body.pathPrefix.Some? ==> |body.pathPrefix.value| >= 1 && body.pathPrefix.value[0] == '/')
      && (body.upstream.Some? ==> |body.upstream.value.host| >= 1 && 1 <= body.upstream.value.port < 65536)
      && (body.connectMs.Some? ==> 1 <= body.connectMs.value <= 30000)
      && (body.requestMs.Some? ==> 1 <= body.requestMs.value <= 60000)
      && (body.retries.Some? ==> 0 <= body.retries.value <= 10)
  {
  }

  /** An enabled row is in every listing of its table. */
  lemma EnabledIsListed(rows: seq<Route>, table: map<string, Route>, k: string)
    requires EnabledListing(rows, table) && k in table && table[k].id == k && table[k].enabled
    ensures table[k] in rows
  {
  }

  /** The row with the keys of the body in place of its own. */
  function Merged(row: Route, body: RouteBody): Route
    requires ValidFields(body)
  {
    row.(name := Or(body.name, row.name),
         pathPrefix := Or(body.pathPrefix, row.pathPrefix),
         upstreamHost := if body.upstream.Some? then body.upstream.value.host else row.upstreamHost,
         upstreamPort := if body.upstream.Some? then body.upstream.value.port else row.upstreamPort,
         stripPath := Or(body.stripPath, row.stripPath),
         connectTimeoutMs := Or(body.connectMs, row.connectTimeoutMs),
         requestTimeoutMs := Or(body.requestMs, row.requestTimeoutMs),
         retries := Or(body.retries, row.retries),
         enabled := Or(body.enabled, row.enabled))
  }

  /** `u` has the body's value for every key the body has. */
  predicate TakesNamed(u: Route, body: RouteBody) {
    && (body.name.Some? ==> u.name == body.name.value)
    && (body.pathPrefix.Some? ==> u.pathPrefix == body.pathPrefix.value)
    && (body.upstream.Some? ==> Address(u.upstreamHost, u.upstreamPort) == body.upstream.value)
    && (body.stripPath.Some? ==> u.stripPath == body.stripPath.value)
    && (body.connectMs.Some? ==> u.connectTimeoutMs == body.connectMs.value)
    && (body.requestMs.Some? ==> u.requestTimeoutMs == body.requestMs.value)
    && (body.retries.Some? ==> u.retries == body.retries.value)
    && (body.enabled.Some? ==> u.enabled == body.enabled.value)
  }

  /** `u` is `row` in everything the body does not name. */
  predicate KeepsUnnamed(row: Route, u: Route, body: RouteBody) {
    && u.id == row.id
    && (body.name.None? ==> u.name == row.name)
    && (body.pathPrefix.None? ==> u.pathPrefix == row.pathPrefix)
    && (body.upstream.None? ==> u.upstreamHost == row.upstreamHost && u.upstreamPort == row.upstreamPort)
    && (body.stripPath.None? ==> u.stripPath == row.stripPath)
    && (body.connectMs.None? ==> u.connectTimeoutMs == row.connectTimeoutMs)
    && (body.requestMs.None? ==> u.requestTimeoutMs == row.requestTimeoutMs)
    && (body.retries.None? ==> u.retries == row.retries)
    && (body.enabled.None? ==> u.enabled == row.enabled)
    && u.canaryHost == row.canaryHost && u.canaryPort == row.canaryPort && u.canaryWeight == row.canaryWeight
  }

  /** A partial update changes what the body names; it changes nothing else
      exactly when the body names strip_path and retries or the row has their
      defaults already. Otherwise it resets them. */
  lemma PartialUpdate(row: Route, body: RouteBody)
    requires ValidFields(body)
    ensures ValidFields(Filled(body)) && TakesNamed(Merged(row, Filled(body)), body)
    ensures KeepsUnnamed(row, Merged(row, Filled(body)), body) <==>
              (body.stripPath.Some? || !row.stripPath) && (body.retries.Some? || row.retries == 0)
  {
    assert Filled(body).stripPath.Some? && Filled(body).retries.Some?;
  }

  predicate HexDigit(c: char) { '0' <= c <= '9' || 'a' <= c <= 'f' || 'A' <= c <= 'F' }

  /** The `uuid` format the `:id` parameter must have. */
  predicate IsUuid(id: string) {
    |id| == 36 && forall i :: 0 <= i < 36 ==> if i in {8, 13, 18, 23} then id[i] == '-' else HexDigit(id[i])
  }

  /** The column's own spelling of a uuid, which is lower case. */
  function Canonical(id: string): string {
    seq(|id|, i requires 0 <= i < |id| => if 'A' <= id[i] <= 'F' then id[i] - 'A' + 'a' else id[i])
  }

  predicate Hex(s: string) { forall c :: c in s ==> HexDigit(c) }

  /** A uuid is five groups of 8, 4, 4, 4 and 12 hexadecimal digits with dashes
      between; its canonical spelling is one too, has no capitals, and is the
      same for exactly the spellings that differ in letter case only. */
  lemma UuidGroups(id: string)
    ensures IsUuid(id) <==>
      && |id| == 36 && id[8] == '-' && id[13] == '-' && id[18] == '-' && id[23] == '-'
      && Hex(id[..8]) && Hex(id[9..13]) && Hex(id[14..18]) && Hex(id[19..23]) && Hex(id[24..])
    ensures IsUuid(id) ==> IsUuid(Canonical(id)) && forall c :: c in Canonical(id) ==> !('A' <= c <= 'Z')
  {
    if |id| == 36 && Hex(id[..8]) && Hex(id[9..13]) && Hex(id[14..18]) && Hex(id[19..23]) && Hex(id[24..]) {
      forall i | 0 <= i < 36 && i !in {8, 13, 18, 23}
        ensures HexDigit(id[i])
      {
        assert id[i] == if i < 8 then id[..8][i] else if i < 13 then id[9..13][i - 9]
                        else if i < 18 then id[14..18][i - 14] else if i < 23 then id[19..23][i - 19]
                        else id[24..][i - 24];
      }
    }
  }

  lemma CanonicalSpelling(a: string, b: string)
    requires IsUuid(a) && IsUuid(b)
    ensures Canonical(a) == Canonical(b) <==>
              forall i :: 0 <= i < 36 ==>
                a[i] == b[i] || a[i] as int - b[i] as int == 32 || b[i] as int - a[i] as int == 32
    ensures (forall c :: c in a ==> !('A' <= c <= 'F')) ==> Canonical(a) == a
  {
    hide IsUuid;
    assert |a| == 36 && |b| == 36 && forall i :: 0 <= i < 36 ==> UuidChar(a[i]) && UuidChar(b[i]) by {
      UuidChars(a);
      UuidChars(b);
    }
    if forall c :: c in a ==> !('A' <= c <= 'F') {
      assert forall i :: 0 <= i < 36 ==> a[i] in a;
    }
    if Canonical(a) == Canonical(b) {
      forall i | 0 <= i < 36
        ensures a[i] == b[i] || a[i] as int - b[i] as int == 32 || b[i] as int - a[i] as int == 32
      {
        assert Canonical(a)[i] == Canonical(b)[i];
      }
    }
  }

  predicate UuidChar(c: char) { HexDigit(c) || c == '-' }

  lemma UuidChars(id: string)
    requires IsUuid(id)
    ensures |id| == 36 && forall i :: 0 <= i < 36 ==> UuidChar(id[i])
  {
  }

  /** The request schema of a policy: a rate limit has both numbers, at least 1. */
  predicate ValidPolicy(routeName: string, body: Policy) {
    && routeName != ""
    && (body.rateLimitRps.Some? <==> body.rateLimitBurst.Some?)
    && (body.rateLimitRps.Some? ==> body.rateLimitRps.value >= 1 && body.rateLimitBurst.value >= 1)
  }

  predicate HasName(t: Tables, name: string) {
    exists k :: k in t.routes && t.routes[k].name == name
  }

  /** Deleting by id deletes one policy. */
  lemma OnePolicyGoes(t: Tables, k: string)
    requires Consistent(t) && k in t.policies
    ensures Effect(t, ConfigTables.DeletePolicy(t.policies[k].id)).policies == t.policies - {k}
  {
  }

  /** From `t` to `u` the policy of route `k` took over the body, but not its id
      if it had one, and no other policy changed. */
  ghost predicate PolicyPutAt(t: Tables, u: Tables, k: string, body: Policy) {
    && k in u.policies && u.policies - {k} == t.policies - {k}
    && u.policies[k] == body.(id := if k in t.policies then t.policies[k].id else body.id,
                              routeId := k, cacheTtlSeconds := None)
  }

  ghost predicate PolicyPut(t: Tables, u: Tables, name: string, body: Policy) {
    exists k :: k in t.routes && t.routes[k].name == name && PolicyPutAt(t, u, k, body)
  }

  lemma UpdateMeans(t: Tables, k: string, row: Route)
    requires k in t.routes && row.id == k
    ensures Fits(row) <==> |row.name| <= 255 && |row.pathPrefix| <= 255 && |row.upstreamHost| <= 255
    ensures Accepted(t, ConfigTables.UpdateRoute(row)) <==>
              Fits(row) && !exists j :: j in t.routes && j != k && t.routes[j].name == row.name
    ensures Effect(t, ConfigTables.UpdateRoute(row)) == t.(routes := t.routes[k := row])
  {
  }

  lemma MergedKeepsId(t: Tables, k: string, body: RouteBody)
    requires Consistent(t) && k in t.routes && ValidFields(body)
    ensures Merged(t.routes[k], body).id == k
  {
  }

  class AdminApi {
    const db: ConfigDatabase

    constructor (db: ConfigDatabase)
      ensures this.db == db
    {
      this.db := db;
    }

    /** The database as a state of the protocol with nothing in flight. */
    ghost function Protocol(): State
      reads this, db
    {
      State(db.log, db.versions, db.bumped, map[], map[], map[])
    }

    /** A mutation: write, then bump, unless the write did nothing. */
    method Mutate(w: Write) returns (ok: bool, ghost steps: seq<Step>)
      requires db.Valid()
      modifies db
      ensures db.Valid() && ok == Accepted(old(db.tables), w)
      ensures ok ==> db.tables == Effect(old(db.tables), w)
                     && db.versions == old(db.versions) + [MaxVersion(old(db.versions)) + 1]
      ensures !ok ==> db.tables == old(db.tables) && db.versions == old(db.versions) && db.log == old(db.log)
      ensures RunsFrom(old(Protocol()), steps) && After(old(Protocol()), steps) == Protocol()
    {
      hide Replay, Effect, Accepted, EnabledListing, PolicyListing, MaxVersion, Consistent;
      ghost var s0 := Protocol();
      ok := db.Execute(w);
      if !ok {
        return false, [];
      }
      var v := db.Bump();
      db.bumped := db.bumped[|s0.log| := v];
      ghost var s1 := s0.(log := s0.log + [w], admins := map[0 := Wrote(|s0.log|)]);
      Extend(s0, [], WriteRow(0, w));
      assert [] + [WriteRow(0, w)] == [WriteRow(0, w)];
      ghost var s2 := s1.(admins := map[0 := ReadLatest(|s0.log|, v - 1)]);
      Extend(s0, [WriteRow(0, w)], ReadMax(0));
      assert s1.admins[0 := ReadLatest(|s0.log|, v - 1)] == s2.admins;
      assert s2.admins - {0} == map[];
      Extend(s0, [WriteRow(0, w)] + [ReadMax(0)], InsertVersion(0));
      steps := [WriteRow(0, w)] + [ReadMax(0)] + [InsertVersion(0)];
    }

    /** POST /admin/routes; `id` is the one the database generates. The new row is
        enabled, so that every listing of the table has it. */
    method CreateRoute(id: string, body: RouteBody) returns (reply: Reply)
      requires db.Valid() && id !in db.tables.routes
      modifies db
      ensures db.Valid()
      ensures reply == if !ValidNew(body) then BadRequest
                       else if HasName(old(db.tables), body.name.value) then Conflict
                       else if !Fits(NewRow(id, Filled(body))) then Failed else Done
      ensures reply.BadRequest? <==>
                !ValidFields(body) || body.name.None? || body.pathPrefix.None? || body.upstream.None?
      ensures reply.Conflict? ==>
                exists k :: k in old(db.tables).routes && old(db.tables).routes[k].name == body.name.value
      ensures !reply.BadRequest? && !reply.Conflict? ==>
                && (forall k :: k in old(db.tables).routes ==> old(db.tables).routes[k].name != body.name.value)
                && (reply.Failed? <==> |body.pathPrefix.value| > 255 || |body.upstream.value.host| > 255)
      ensures reply.Done? ==>
                && id in db.tables.routes && db.tables.routes - {id} == old(db.tables).routes
                && db.tables.policies == old(db.tables).policies
                && db.versions == old(db.versions) + [MaxVersion(old(db.versions)) + 1]
      ensures reply.Done? ==>
                var row := db.tables.routes[id];
                && row.enabled && row.id == id
                && Some(row.name) == body.name && Some(row.pathPrefix) == body.pathPrefix
                && Some(Address(row.upstreamHost, row.upstreamPort)) == body.upstream
                && row.stripPath == (body.stripPath == Some(true))
                && row.retries == (if body.retries.Some? then body.retries.value else 0)
                && row.connectTimeoutMs == (if body.connectMs.Some? then body.connectMs.value else 200)
                && row.requestTimeoutMs == (if body.requestMs.Some? then body.requestMs.value else 2000)
                && row.canaryHost.None? && row.canaryPort.None? && row.canaryWeight.None?
                && forall rows :: EnabledListing(rows, db.tables.routes) ==> row in rows
      ensures !reply.Done? ==> db.tables == old(db.tables) && db.versions == old(db.versions)
    {
      hide MaxVersion, Consistent, EnabledListing, NewRow, Filled, ValidFields;
      if !ValidNew(body) {
        return BadRequest;
      }
      if HasName(db.tables, body.name.value) {
        return Conflict;
      }
      CreatedRow(id, body);
      BodyBounds(body);
      var ok, _ := Mutate(InsertRoute(NewRow(id, Filled(body))));
      if !ok {
        return Failed;
      }
      forall rows | EnabledListing(rows, db.tables.routes)
        ensures db.tables.routes[id] in rows
      {
        EnabledIsListed(rows, db.tables.routes, id);
      }
      reply := Done;
    }

    /** PUT /admin/routes/:id. A name that is taken is a conflict, text too long
        for its column an error of the statement. */
    method UpdateRoute(id: string, body: RouteBody) returns (reply: Reply)
      requires db.Valid()
      modifies db
      ensures db.Valid()
      ensures var key := Canonical(id);
              reply == if !IsUuid(id) || !ValidFields(body) then BadRequest
                       else if key !in old(db.tables).routes then NotFound
                       else
                         var row := Merged(old(db.tables).routes[key], Filled(body));
                         if |row.name| > 255 || |row.pathPrefix| > 255 || |row.upstreamHost| > 255 then Failed
                         else if exists k :: k in old(db.tables).routes && k != row.id
                                             && old(db.tables).routes[k].name == row.name then Conflict
                         else Done
      ensures reply.Done? ==>
                var key := Canonical(id);
                && key in old(db.tables).routes && ValidFields(body)
                && db.tables == old(db.tables).(routes :=
                     old(db.tables).routes[key := Merged(old(db.tables).routes[key], Filled(body))])
                && TakesNamed(db.tables.routes[key], body) && db.tables.routes[key].id == key
                && db.versions == old(db.versions) + [MaxVersion(old(db.versions)) + 1]
      ensures !reply.Done? ==> db.tables == old(db.tables) && db.versions == old(db.versions)
    {
      hide MaxVersion, IsUuid, Canonical, TakesNamed, KeepsUnnamed, Filled, ValidFields, Merged;
      hide Accepted, Effect, Fits, Consistent;
      if !IsUuid(id) || !ValidFields(body) {
        return BadRequest;
      }
      var key := Canonical(id);
      if key !in db.tables.routes {
        return NotFound;
      }
      PartialUpdate(db.tables.routes[key], body);
      MergedKeepsId(db.tables, key, Filled(body));
      var row := Merged(db.tables.routes[key], Filled(body));
      UpdateMeans(db.tables, key, row);
      if !Fits(row) {
        return Failed;
      }
      var ok, _ := Mutate(ConfigTables.UpdateRoute(row));
      reply := if ok then Done else Conflict;
    }

    /** DELETE /admin/routes/:id; the route's policy goes with it. */
    method DeleteRoute(id: string) returns (reply: Reply)
      requires db.Valid()
      modifies db
      ensures db.Valid()
      ensures reply == if !IsUuid(id) then BadRequest
                       else if Canonical(id) in old(db.tables).routes then Done else NotFound
      ensures reply.Done? ==> var key := Canonical(id);
                              && key !in db.tables.routes && key !in db.tables.policies
                              && db.tables.routes == old(db.tables).routes - {key}
                              && db.tables.policies == old(db.tables).policies - {key}
                              && db.versions == old(db.versions) + [MaxVersion(old(db.versions)) + 1]
      ensures !reply.Done? ==> db.tables == old(db.tables) && db.versions == old(db.versions)
    {
      hide MaxVersion, Consistent, IsUuid, Canonical;
      if !IsUuid(id) {
        return BadRequest;
      }
      var ok, _ := Mutate(ConfigTables.DeleteRoute(Canonical(id)));
      reply := if ok then Done else NotFound;
    }

    /** POST /admin/policies; the schema has no cache TTL, so the row gets none.
        An existing policy of the route keeps its id; a new one gets `body.id`,
        which is the one the database generates. */
    method CreatePolicy(routeName: string, body: Policy) returns (reply: Reply)
      requires db.Valid() && !HasPolicy(db.tables, body.id)
      modifies db
      ensures db.Valid() && db.tables.routes == old(db.tables).routes
      ensures reply.BadRequest? <==>
                || routeName == ""
                || body.rateLimitRps.Some? != body.rateLimitBurst.Some?
                || (body.rateLimitRps.Some? && (body.rateLimitRps.value < 1 || body.rateLimitBurst.value < 1))
      ensures reply.Done? || reply.NotFound? || reply.BadRequest?
      ensures !reply.BadRequest? ==>
                (reply.Done? <==>
                   exists k :: k in old(db.tables).routes && old(db.tables).routes[k].name == routeName)
      ensures reply.Done? ==>
                && PolicyPut(old(db.tables), db.tables, routeName, body)
                && db.versions == old(db.versions) + [MaxVersion(old(db.versions)) + 1]
      ensures !reply.Done? ==> db.tables == old(db.tables) && db.versions == old(db.versions)
    {
      hide MaxVersion, Consistent;
      if !ValidPolicy(routeName, body) {
        return BadRequest;
      }
      if !HasName(db.tables, routeName) {
        return NotFound;
      }
      var k :| k in db.tables.routes && db.tables.routes[k].name == routeName;
      var ok, _ := Mutate(UpsertPolicy(body.(routeId := k, cacheTtlSeconds := None)));
      assert PolicyPutAt(old(db.tables), db.tables, k, body);
      reply := Done;
    }

    /** DELETE /admin/policies/:id. */
    method DeletePolicy(id: string) returns (reply: Reply)
      requires db.Valid()
      modifies db
      ensures db.Valid()
      ensures reply == if !IsUuid(id) then BadRequest
                       else if exists k :: k in old(db.tables).policies
                                           && old(db.tables).policies[k].id == Canonical(id) then Done
                       else NotFound
      ensures reply.Done? ==>
                && db.tables.routes == old(db.tables).routes
                && (exists k :: k in old(db.tables).policies && old(db.tables).policies[k].id == Canonical(id)
                                && db.tables.policies == old(db.tables).policies - {k})
                && db.versions == old(db.versions) + [MaxVersion(old(db.versions)) + 1]
      ensures !reply.Done? ==> db.tables == old(db.tables) && db.versions == old(db.versions)
    {
      hide MaxVersion, Consistent, IsUuid, Canonical;
      if !IsUuid(id) {
        return BadRequest;
      }
      var ok, _ := Mutate(ConfigTables.DeletePolicy(Canonical(id)));
      if !ok {
        return NotFound;
      }
      ghost var k :| k in old(db.tables).policies && old(db.tables).policies[k].id == Canonical(id);
      OnePolicyGoes(old(db.tables), k);
      reply := Done;
    }
  }

  /** The loop that indexes the policies by route id: whatever order the rows
      come in, the map is the table they list. */
  method BuildPolicyMap(ps: seq<Policy>) returns (policyMap: map<string, Policy>)
    ensures policyMap == PolicyMap(ps)
  {
    policyMap := map[];
    var i := 0;
    while i < |ps|
      invariant 0 <= i <= |ps|
      invariant policyMap == PolicyMap(ps[..i])
    {
      policyMap := policyMap[ps[i].routeId := ps[i]];
      assert ps[..i + 1][..i] == ps[..i];
      i := i + 1;
    }
    assert ps[..|ps|] == ps;
  }

  class Gateway {
    const db: ConfigDatabase
    var routes: seq<Route>
    var policies: map<string, Policy>
    var version: nat
    ghost var snapshot: Cached

    ghost predicate Valid()
      reads this, db
    {
      && db.Valid()
      && snapshot.routes == routes && snapshot.policies == policies && snapshot.version == version
    }

    /** This gateway and its database as a state of the protocol. */
    ghost function Protocol(): State
      reads this, db
    {
      State(db.log, db.versions, db.bumped, map[], map[], map[0 := snapshot])
    }

    constructor (db: ConfigDatabase)
      requires db.Valid()
      ensures Valid() && this.db == db && snapshot == INITIAL_CACHE
      ensures routes == [] && policies == map[] && version == 0
    {
      this.db := db;
      routes, policies, version, snapshot := [], map[], 0, INITIAL_CACHE;
    }

    /** `loadConfig`: three reads, the policy map, one assignment of the cache. */
    method LoadConfig()
      requires Valid()
      modifies this
      ensures Valid() && version == MaxVersion(db.versions)
      ensures EnabledListing(routes, db.tables.routes) && policies == db.tables.policies
      ensures snapshot.routesAt == snapshot.policiesAt == snapshot.versionAt == |db.log|
      ensures exists ps :: PolicyListing(ps, db.tables.policies) && PolicyMap(ps) == policies
    {
      hide Replay, EnabledListing, PolicyListing, PolicyMap;
      var rs := db.FindEnabled();
      var ps := db.FindAllPolicies();
      var latest := db.GetLatest();
      MaxVersionIsMaximum(db.versions, if latest.Some? then latest.value else 0);
      var policyMap := BuildPolicyMap(ps);
      PolicyMapIsTable(ps, db.tables);
      routes, policies := rs, policyMap;
      version := if latest.Some? then latest.value else 0;
      snapshot := Cached(routes, policies, version, |db.log|, |db.log|, |db.log|);
    }

    /** `checkAndReload`: reload when the stored maximum is above the cached
        version, else leave the cache alone. Run without interruption it makes
        the cache the database's, and running it again changes nothing. */
    method CheckAndReload() returns (ghost steps: seq<Step>)
      requires Valid()
      modifies this
      ensures Valid()
      ensures MaxVersion(db.versions) > old(version) ==>
                && version == MaxVersion(db.versions)
                && EnabledListing(routes, db.tables.routes) && policies == db.tables.policies
      ensures MaxVersion(db.versions) <= old(version) ==>
                routes == old(routes) && policies == old(policies) && version == old(version)
      ensures MaxVersion(db.versions) <= version
      ensures RunsFrom(old(Protocol()), steps) && After(old(Protocol()), steps) == Protocol()
    {
      ghost var s0 := Protocol();
      var latest := db.GetLatest();
      var latestVersion := if latest.Some? then latest.value else 0;
      MaxVersionIsMaximum(db.versions, latestVersion);
      if latestVersion > version {
        LoadConfig();
        steps := ReloadRun(s0, Protocol());
      } else {
        steps := IdlePollRun(s0);
      }
    }
  }

  lemma IdlePollRun(s0: State) returns (steps: seq<Step>)
    requires s0.reloads == map[] && MaxVersion(s0.versions) <= CacheOf(s0, 0).version
    ensures RunsFrom(s0, steps) && After(s0, steps) == s0
  {
    var s1 := s0.(reloads := map[0 := Polled(0, MaxVersion(s0.versions))]);
    Extend(s0, [], Poll(0, 0));
    assert [] + [Poll(0, 0)] == [Poll(0, 0)];
    Extend(s0, [Poll(0, 0)], Compare(0));
    assert s1.reloads - {0} == map[];
    steps := [Poll(0, 0)] + [Compare(0)];
  }

  /** A poll that reads, compares, fetches and installs is a run of the protocol. */
  lemma ReloadRun(s0: State, s': State) returns (steps: seq<Step>)
    requires s0.reloads == map[] && 0 in s0.caches && s0.caches.Keys == {0}
    requires MaxVersion(s0.versions) > s0.caches[0].version
    requires exists ps :: PolicyListing(ps, Replay(s0.log).policies) && PolicyMap(ps) == CacheOf(s', 0).policies
    requires EnabledListing(CacheOf(s', 0).routes, Replay(s0.log).routes)
    requires CacheOf(s', 0).version == MaxVersion(s0.versions)
    requires CacheOf(s', 0).routesAt == CacheOf(s', 0).policiesAt == CacheOf(s', 0).versionAt == |s0.log|
    requires s' == s0.(caches := map[0 := CacheOf(s', 0)])
    ensures RunsFrom(s0, steps) && After(s0, steps) == s'
  {
    hide Replay, Effect, Accepted, EnabledListing, PolicyListing, MaxVersion, Consistent;
    var c := CacheOf(s', 0);
    var ps :| PolicyListing(ps, Replay(s0.log).policies) && PolicyMap(ps) == c.policies;
    var max, at := MaxVersion(s0.versions), |s0.log|;
    steps := FetchRun(s0, c.routes, ps);
    var r := Loading(0, max, Some(Answer(c.routes, at)), Some(Answer(ps, at)), Some(Answer(max, at)));
    assert map[0 := r] - {0} == map[];
    assert s0.caches[0 := c] == map[0 := c];
    steps := Then(s0, steps, Install(0), s');
  }

  lemma FetchRun(s0: State, rows: seq<Route>, ps: seq<Policy>) returns (steps: seq<Step>)
    requires s0.reloads == map[] && MaxVersion(s0.versions) > CacheOf(s0, 0).version
    requires EnabledListing(rows, Replay(s0.log).routes) && PolicyListing(ps, Replay(s0.log).policies)
    ensures RunsFrom(s0, steps)
    ensures After(s0, steps) == s0.(reloads := map[0 :=
              Loading(0, MaxVersion(s0.versions), Some(Answer(rows, |s0.log|)), Some(Answer(ps, |s0.log|)),
                      Some(Answer(MaxVersion(s0.versions), |s0.log|)))])
  {
    hide Replay, Effect, Accepted, EnabledListing, PolicyListing, MaxVersion, Consistent;
    steps := BeginReload(s0, [], 0, 0);
    var s1 := After(s0, steps);
    var r := Loading(0, MaxVersion(s0.versions), Some(Answer(rows, |s0.log|)), None, None);
    assert s1.reloads[0 := r] == map[0 := r];
    steps := Then(s0, steps, FetchRoutes(0, rows), s0.(reloads := map[0 := r]));
    steps := FinishReads(s0, steps, 0, ps);
  }
}
