/**
 * The request handlers of the requisition application: login and logout
 * on the session, the submission, listing and deletion of requisitions,
 * and the period listing.  The application holds the session and the
 * `solicitudes` table as fields; the reference tables (periods, users with
 * their zone and department, materials) are fixed.  Whether the database
 * driver has a connection is a flag: without one every handler that opens
 * a cursor raises AttributeError.
 */
module Consad {
  import opened Common
  import opened Text
  import opened Utils
  import opened Periods
  import opened Rows
  import opened Requisitions

  /** A row of the login query: the user joined with their zone and department. */
  datatype UserRow = UserRow(token: string, id: int, nombre: string, zonaId: int, zona: string,
                             deptoId: int, depto: string)

  /** What a handler answers. */
  datatype Response =
    | Redirect(endpoint: string)
    | Json(success: bool)
    | RequisitionList(headings: seq<string>, rows: seq<seq<string>>)
    | PeriodList(headings: seq<string>, periodRows: seq<seq<PeriodCell>>)
    | Raised(exc: Exception)

  /** The session keys login sets and logout pops. */
  const SESSION_KEYS: set<string> := {"userid", "username", "zonaid", "zonaname", "deptoid", "deptoname"}

  /** The order in which logout pops them. */
  const LOGOUT_ORDER: seq<string> := ["username", "userid", "zonaname", "zonaid", "deptoname", "deptoid"]

  const REQUISITION_HEADINGS: seq<string> := ["Id", "A\U{00F1}o", "Material", "Cantidad", "Unidad", "Precio Unitario"]

  const PERIOD_HEADINGS: seq<string> := ["Id", "Nombre", "Inicio", "Fin", "Activo", "Editable"]

  /** The first row of the login query for a token, in table order. */
  function FirstMatch(users: seq<UserRow>, token: string): (r: Option<UserRow>)
    ensures r.None? <==> forall i :: 0 <= i < |users| ==> users[i].token != token
    ensures r.Some? ==> exists i :: 0 <= i < |users| && users[i] == r.value && users[i].token == token
                                   && forall j :: 0 <= j < i ==> users[j].token != token
  {
    if |users| == 0 then None
    else if users[0].token == token then Some(users[0])
    else
      var r := FirstMatch(users[1..], token);
      if r.Some? then
        var i :| 0 <= i < |users[1..]| && users[1..][i] == r.value && users[1..][i].token == token
                 && forall j :: 0 <= j < i ==> users[1..][j].token != token;
        assert users[i + 1] == r.value;
        r
      else r
  }

  /** The six entries login writes, from the columns of the row in order. */
  function SessionFor(u: UserRow): (s: map<string, Val>)
    ensures s.Keys == SESSION_KEYS
    ensures IsLoggedIn(s) && s["zonaid"] == VInt(u.zonaId) && s["deptoid"] == VInt(u.deptoId)
  {
    map["userid" := VInt(u.id), "username" := VStr(u.nombre), "zonaid" := VInt(u.zonaId),
        "zonaname" := VStr(u.zona), "deptoid" := VInt(u.deptoId), "deptoname" := VStr(u.depto)]
  }

  /** Login's six writes, one after the other, add the user's session entries. */
  lemma SessionWrites(s: map<string, Val>, u: UserRow)
    ensures s["userid" := VInt(u.id)]["username" := VStr(u.nombre)]["zonaid" := VInt(u.zonaId)]
             ["zonaname" := VStr(u.zona)]["deptoid" := VInt(u.deptoId)]["deptoname" := VStr(u.depto)]
            == s + SessionFor(u)
  {
    var written := s["userid" := VInt(u.id)]["username" := VStr(u.nombre)]["zonaid" := VInt(u.zonaId)]
                    ["zonaname" := VStr(u.zona)]["deptoid" := VInt(u.deptoId)]["deptoname" := VStr(u.depto)];
    var added := s + SessionFor(u);
    assert written.Keys == added.Keys;
    forall k | k in written ensures written[k] == added[k] {
    }
  }

  /**
   * The keys logout pops: it goes through the keys in order and stops, by
   * raising KeyError, at the first one the session lacks.
   */
  function PoppedKeys(s: map<string, Val>, order: seq<string>): set<string>
  {
    if |order| == 0 || order[0] !in s then {} else {order[0]} + PoppedKeys(s, order[1..])
  }

  /** The keys logout pops, case by case: every prefix of the order up to the first missing key. */
  lemma LogoutPops(s: map<string, Val>)
    ensures PoppedKeys(s, LOGOUT_ORDER) ==
      if "username" !in s then {}
      else if "userid" !in s then {"username"}
      else if "zonaname" !in s then {"username", "userid"}
      else if "zonaid" !in s then {"username", "userid", "zonaname"}
      else if "deptoname" !in s then {"username", "userid", "zonaname", "zonaid"}
      else if "deptoid" !in s then {"username", "userid", "zonaname", "zonaid", "deptoname"}
      else SESSION_KEYS
  {
    var o1 := LOGOUT_ORDER[1..];
    var o2 := o1[1..];
    var o3 := o2[1..];
    var o4 := o3[1..];
    var o5 := o4[1..];
    assert o1 == ["userid", "zonaname", "zonaid", "deptoname", "deptoid"];
    assert o2 == ["zonaname", "zonaid", "deptoname", "deptoid"];
    assert o3 == ["zonaid", "deptoname", "deptoid"];
    assert o4 == ["deptoname", "deptoid"];
    assert o5 == ["deptoid"];
    assert PoppedKeys(s, o5[1..]) == {};
    assert PoppedKeys(s, o5) == if "deptoid" !in s then {} else {"deptoid"};
    assert PoppedKeys(s, o4) == if "deptoname" !in s then {} else {"deptoname"} + PoppedKeys(s, o5);
    assert PoppedKeys(s, o3) == if "zonaid" !in s then {} else {"zonaid"} + PoppedKeys(s, o4);
    assert PoppedKeys(s, o2) == if "zonaname" !in s then {} else {"zonaname"} + PoppedKeys(s, o3);
    assert PoppedKeys(s, o1) == if "userid" !in s then {} else {"userid"} + PoppedKeys(s, o2);
    assert PoppedKeys(s, LOGOUT_ORDER) == if "username" !in s then {} else {"username"} + PoppedKeys(s, o1);
  }

  /** A session that holds the six keys loses all of them; one without a user id loses at most the user name. */
  lemma LogoutOutcomes(s: map<string, Val>)
    ensures SESSION_KEYS <= s.Keys ==> PoppedKeys(s, LOGOUT_ORDER) == SESSION_KEYS
    ensures "userid" !in s ==> PoppedKeys(s, LOGOUT_ORDER) <= {"username"}
  {
    LogoutPops(s);
  }

  /** Logging in and then out leaves the session the login started from, without the six keys. */
  lemma LoginThenLogout(s: map<string, Val>, u: UserRow)
    ensures var after := s + SessionFor(u);
      && IsLoggedIn(after)
      && after - PoppedKeys(after, LOGOUT_ORDER) == s - SESSION_KEYS
      && !IsLoggedIn(after - PoppedKeys(after, LOGOUT_ORDER))
  {
    var after := s + SessionFor(u);
    LogoutOutcomes(after);
  }

  /** A logged-in session holds all six keys, with integer zone and department ids. */
  predicate ValidSession(s: map<string, Val>)
  {
    IsLoggedIn(s) ==> SESSION_KEYS <= s.Keys && s["zonaid"].VInt? && s["deptoid"].VInt?
  }

  /**
   * Logout step by step: pop the first key of the order and go on, or stop
   * with KeyError at the first key the session lacks.  The result is the
   * final session and the response.
   */
  function LogoutRun(s: map<string, Val>, order: seq<string>): (r: (map<string, Val>, Response))
    ensures r.1 == Redirect("home") || r.1 == Raised(KeyError)
    // popping only removes keys, and never one outside the order
    ensures r.0.Keys <= s.Keys
    ensures forall k :: k in s && k !in order ==> k in r.0 && r.0[k] == s[k]
  {
    if |order| == 0 then (s, Redirect("home"))
    else if order[0] !in s then (s, Raised(KeyError))
    else LogoutRun(s - {order[0]}, order[1..])
  }

  /** Two sessions that agree on the keys of the order pop the same keys. */
  lemma {:induction false} PoppedSame(s: map<string, Val>, t: map<string, Val>, order: seq<string>)
    requires forall i :: 0 <= i < |order| ==> (order[i] in s <==> order[i] in t)
    ensures PoppedKeys(s, order) == PoppedKeys(t, order)
  {
    if |order| > 0 {
      PoppedSame(s, t, order[1..]);
    }
  }

  /**
   * For an order of distinct keys, running logout removes exactly the keys
   * `PoppedKeys` names, and it redirects exactly when every key is present.
   */
  lemma {:induction false} LogoutRunPops(s: map<string, Val>, order: seq<string>)
    requires forall i, j :: 0 <= i < j < |order| ==> order[i] != order[j]
    ensures LogoutRun(s, order).0 == s - PoppedKeys(s, order)
    ensures LogoutRun(s, order).1 == Redirect("home") || LogoutRun(s, order).1 == Raised(KeyError)
    ensures LogoutRun(s, order).1 == Redirect("home") <==> forall i :: 0 <= i < |order| ==> order[i] in s
  {
    if |order| == 0 {
      assert s - {} == s;
    } else if order[0] in s {
      var k, rest := order[0], order[1..];
      LogoutRunPops(s - {k}, rest);
      PoppedSame(s, s - {k}, rest);
      assert (s - {k}) - PoppedKeys(s, rest) == s - ({k} + PoppedKeys(s, rest));
      AllPresentAfterPop(s, order);
    } else {
      assert s - {} == s;
    }
  }

  /** Once the first key is popped, the rest of the order is all present exactly when the whole order was. */
  lemma AllPresentAfterPop(s: map<string, Val>, order: seq<string>)
    requires |order| > 0 && order[0] in s
    requires forall i, j :: 0 <= i < j < |order| ==> order[i] != order[j]
    ensures (forall i :: 0 <= i < |order[1..]| ==> order[1..][i] in s - {order[0]})
            <==> (forall i :: 0 <= i < |order| ==> order[i] in s)
  {
    var k, rest := order[0], order[1..];
    if forall i :: 0 <= i < |rest| ==> rest[i] in s - {k} {
      forall i | 0 <= i < |order| ensures order[i] in s {
        if i > 0 {
          assert order[i] == rest[i - 1];
        }
      }
    }
  }

  /** Logout pops six different keys, and they are the session keys. */
  lemma LogoutOrderKeys()
    ensures forall i, j :: 0 <= i < j < |LOGOUT_ORDER| ==> LOGOUT_ORDER[i] != LOGOUT_ORDER[j]
    ensures forall s: map<string, Val> ::
      (forall i :: 0 <= i < |LOGOUT_ORDER| ==> LOGOUT_ORDER[i] in s) <==> SESSION_KEYS <= s.Keys
  {
    forall s: map<string, Val> | forall i :: 0 <= i < |LOGOUT_ORDER| ==> LOGOUT_ORDER[i] in s
      ensures SESSION_KEYS <= s.Keys
    {
      assert LOGOUT_ORDER[0] in s && LOGOUT_ORDER[1] in s && LOGOUT_ORDER[2] in s;
      assert LOGOUT_ORDER[3] in s && LOGOUT_ORDER[4] in s && LOGOUT_ORDER[5] in s;
    }
  }

  /** What logout leaves: the popped keys gone, a valid session, and a logged-out one after a redirect. */
  lemma LogoutFacts(s: map<string, Val>)
    requires ValidSession(s)
    ensures var (t, resp) := LogoutRun(s, LOGOUT_ORDER);
      && t == s - PoppedKeys(s, LOGOUT_ORDER)
      && (resp == Redirect("home") || resp == Raised(KeyError))
      && (resp == Redirect("home") <==> SESSION_KEYS <= s.Keys)
      && ValidSession(t)
      && (resp == Redirect("home") ==> !IsLoggedIn(t))
  {
    LogoutOrderKeys();
    LogoutRunPops(s, LOGOUT_ORDER);
    LogoutPops(s);
  }

  /** The row the listing query returns for a stored key whose material exists. */
  function ListedRow(t: Table, materials: map<string, Material>, k: Key): seq<SqlValue>
    requires k in t && k.material in materials
  {
    RequisitionRow(k, t[k], materials[k.material])
  }

  /** The cursor of the listing query: one row per listed key, in no particular order. */
  method FetchRequisitions(t: Table, materials: map<string, Material>, listed: set<Key>)
    returns (fetched: seq<seq<SqlValue>>)
    requires forall k :: k in listed ==> k in t && k.material in materials
    ensures |fetched| == |listed|
    ensures forall i :: 0 <= i < |fetched| ==> exists k :: k in listed && fetched[i] == ListedRow(t, materials, k)
    ensures forall k :: k in listed ==> ListedRow(t, materials, k) in fetched
  {
    var keys := EnumerateKeys(listed);
    fetched := seq(|keys|, i requires 0 <= i < |keys| => ListedRow(t, materials, keys[i]));
    forall i | 0 <= i < |fetched| ensures exists k :: k in listed && fetched[i] == ListedRow(t, materials, k) {
      assert keys[i] in listed;
    }
    forall k | k in listed ensures ListedRow(t, materials, k) in fetched {
      var i :| 0 <= i < |keys| && keys[i] == k;
      assert fetched[i] == ListedRow(t, materials, k);
    }
  }

  /** The keys of a set, each once, in the order the loop happens to take them. */
  method EnumerateKeys(listed: set<Key>) returns (keys: seq<Key>)
    ensures |keys| == |listed|
    ensures forall k :: k in keys <==> k in listed
  {
    var remaining := listed;
    keys := [];
    while remaining != {}
      invariant remaining <= listed
      invariant forall k :: k in keys <==> k in listed && k !in remaining
      invariant |keys| == |listed - remaining|
      decreases |remaining|
    {
      var k :| k in remaining;
      assert listed - (remaining - {k}) == (listed - remaining) + {k};
      keys := keys + [k];
      remaining := remaining - {k};
    }
    assert listed - remaining == listed;
  }

  class App {
    var session: map<string, Val>
    var table: Table
    const connected: bool
    /** Whether the database returns timestamps as text (SQLite) rather than as datetime objects. */
    const timestampsAsText: bool
    const periods: seq<Period>
    const users: seq<UserRow>
    const materials: map<string, Material>

    /**
     * A logged-in session holds all six keys, with integer zone and
     * department ids; period ids are unique, as the primary key of `periodo`.
     */
    predicate Valid()
      reads this
    {
      ValidSession(session) && UniqueIds(periods)
    }

    constructor (connected: bool, timestampsAsText: bool, periods: seq<Period>, users: seq<UserRow>,
                 materials: map<string, Material>, table: Table)
      requires UniqueIds(periods)
      ensures Valid()
      ensures this.session == map[] && this.table == table && this.connected == connected
      ensures this.timestampsAsText == timestampsAsText
      ensures this.periods == periods && this.users == users && this.materials == materials
    {
      this.session := map[];
      this.table := table;
      this.connected := connected;
      this.timestampsAsText := timestampsAsText;
      this.periods := periods;
      this.users := users;
      this.materials := materials;
    }

    /** `login`: the form's token selects the first matching user, whose columns fill the session. */
    method Login(form: map<string, string>) returns (resp: Response)
      requires Valid()
      modifies this`session
      ensures Valid()
      ensures !connected ==> resp == Raised(AttributeError) && session == old(session)
      ensures connected && "token" !in form ==> resp == Raised(KeyError) && session == old(session)
      ensures connected && "token" in form && FirstMatch(users, form["token"]).None? ==>
                resp == Redirect("home") && session == old(session)
      ensures connected && "token" in form && FirstMatch(users, form["token"]).Some? ==>
                && resp == Redirect("captura_solicitud")
                && session == old(session) + SessionFor(FirstMatch(users, form["token"]).value)
                && IsLoggedIn(session)
    {
      if !connected {
        return Raised(AttributeError);
      }
      if "token" !in form {
        return Raised(KeyError);
      }
      var row := FirstMatch(users, form["token"]);
      if row.None? {
        return Redirect("home");
      }
      var u := row.value;
      SessionWrites(session, u);
      session := session["userid" := VInt(u.id)];
      session := session["username" := VStr(u.nombre)];
      session := session["zonaid" := VInt(u.zonaId)];
      session := session["zonaname" := VStr(u.zona)];
      session := session["deptoid" := VInt(u.deptoId)];
      session := session["deptoname" := VStr(u.depto)];
      return Redirect("captura_solicitud");
    }

    /** `logout`: pops the six keys in order; a missing key raises KeyError after the earlier pops. */
    method Logout() returns (resp: Response)
      requires Valid()
      modifies this`session
      ensures Valid()
      ensures (session, resp) == LogoutRun(old(session), LOGOUT_ORDER)
      ensures resp == Redirect("home") <==> SESSION_KEYS <= old(session).Keys
      ensures resp == Redirect("home") || resp == Raised(KeyError)
      ensures session == old(session) - PoppedKeys(old(session), LOGOUT_ORDER)
      ensures resp == Redirect("home") ==> !IsLoggedIn(session)
    {
      ghost var s := session;
      ghost var todo := LOGOUT_ORDER;
      LogoutFacts(s);
      // each pop keeps `LogoutRun(session, todo) == LogoutRun(s, LOGOUT_ORDER)`
      if "username" !in session {
        return Raised(KeyError);
      }
      assert todo[0] == "username";
      session, todo := session - {"username"}, todo[1..];
      assert LogoutRun(session, todo) == LogoutRun(s, LOGOUT_ORDER);
      if "userid" !in session {
        return Raised(KeyError);
      }
      assert todo[0] == "userid";
      session, todo := session - {"userid"}, todo[1..];
      assert LogoutRun(session, todo) == LogoutRun(s, LOGOUT_ORDER);
      if "zonaname" !in session {
        return Raised(KeyError);
      }
      assert todo[0] == "zonaname";
      session, todo := session - {"zonaname"}, todo[1..];
      assert LogoutRun(session, todo) == LogoutRun(s, LOGOUT_ORDER);
      if "zonaid" !in session {
        return Raised(KeyError);
      }
      assert todo[0] == "zonaid";
      session, todo := session - {"zonaid"}, todo[1..];
      assert LogoutRun(session, todo) == LogoutRun(s, LOGOUT_ORDER);
      if "deptoname" !in session {
        return Raised(KeyError);
      }
      assert todo[0] == "deptoname";
      session, todo := session - {"deptoname"}, todo[1..];
      assert LogoutRun(session, todo) == LogoutRun(s, LOGOUT_ORDER);
      if "deptoid" !in session {
        return Raised(KeyError);
      }
      assert todo[0] == "deptoid";
      session, todo := session - {"deptoid"}, todo[1..];
      assert LogoutRun(session, todo) == LogoutRun(s, LOGOUT_ORDER);
      return Redirect("home");
    }

    /** The key a submission writes: the form's material and period, the session's zone and department. */
    function SubmitKey(form: map<string, string>, periodo: int): Key
      reads this
      requires Valid() && IsLoggedIn(session) && "material" in form
    {
      Key(form["material"], session["zonaid"].i, session["deptoid"].i, periodo)
    }

    /**
     * `solicitudes/post`: validation, the period gate, then the existence
     * check and the insert or update on one key.  `dbNow` is the database
     * clock.
     */
    method Submit(form: map<string, string>, dbNow: int) returns (resp: Response)
      requires Valid()
      modifies this`table
      ensures Valid()
      ensures resp != Json(true) ==> table == old(table)
      ensures !IsLoggedIn(session) ==> resp == Json(false)
      ensures IsLoggedIn(session) && !("cantidad" in form && "material" in form && "periodo" in form) ==>
                resp == Json(false)
      ensures IsLoggedIn(session) && "cantidad" in form && "material" in form && "periodo" in form ==>
        var q := ParseInt(form["cantidad"]);
        var p := ParseInt(form["periodo"]);
        && (q.None? ==> resp == Raised(ValueError))
        && (q.Some? && q.value < 1 ==> resp == Json(false))
        && (q.Some? && q.value >= 1 && !connected ==> resp == Raised(AttributeError))
        && (q.Some? && q.value >= 1 && connected && !(p.Some? && PeriodOpen(periods, p.value, dbNow)) ==>
              resp == Json(false))
        && (q.Some? && q.value >= 1 && connected && p.Some? && PeriodOpen(periods, p.value, dbNow) ==>
              var k := SubmitKey(form, p.value);
              var found := Found(old(table), materials, periods, k);
              && (!found && k in old(table) ==> resp == Raised(IntegrityError))
              && (found || k !in old(table) ==>
                    resp == Json(true) && table == Upsert(old(table), k, q.value * 100, dbNow, found)))
    {
      if !IsLoggedIn(session) {
        return Json(false);
      }
      if !("cantidad" in form && "material" in form && "periodo" in form) {
        return Json(false);
      }
      var q := ParseInt(form["cantidad"]);
      if q.None? {
        return Raised(ValueError);
      }
      if q.value < 1 {
        return Json(false);
      }
      if !connected {
        return Raised(AttributeError);
      }
      var p := ParseInt(form["periodo"]);
      if !(p.Some? && PeriodOpen(periods, p.value, dbNow)) {
        return Json(false);
      }
      var k := Key(form["material"], session["zonaid"].i, session["deptoid"].i, p.value);
      var found := k in table && k.material in materials && PeriodExists(periods, k.periodo);
      if !found && k in table {
        return Raised(IntegrityError);
      }
      table := Upsert(table, k, q.value * 100, dbNow, found);
      return Json(true);
    }

    /** `solicitudes/delete`: removes the body's material for the session's zone and department, in every period. */
    method Delete(body: Val) returns (resp: Response)
      requires Valid()
      modifies this`table
      ensures Valid()
      ensures resp != Json(true) ==> table == old(table)
      ensures !IsLoggedIn(session) ==> resp == Redirect("home")
      ensures IsLoggedIn(session) && !connected ==> resp == Raised(AttributeError)
      ensures IsLoggedIn(session) && connected && !body.VDict? ==> resp == Raised(TypeError)
      ensures IsLoggedIn(session) && connected && body.VDict? && "id_material" !in body.d ==> resp == Raised(KeyError)
      ensures IsLoggedIn(session) && connected && body.VDict? && "id_material" in body.d ==>
        var m := TextParam(body.d["id_material"]);
        && (m.Raise? ==> resp == Raised(m.exc))
        && (m.Ok? ==> resp == Json(true))
        && (m.Ok? && m.value.None? ==> table == old(table))
        && (m.Ok? && m.value.Some? ==>
              table == RemoveMatching(old(table), session["zonaid"].i, session["deptoid"].i, m.value.value))
    {
      if !IsLoggedIn(session) {
        return Redirect("home");
      }
      if !connected {
        return Raised(AttributeError);
      }
      if !body.VDict? {
        return Raised(TypeError);
      }
      if "id_material" !in body.d {
        return Raised(KeyError);
      }
      var m := TextParam(body.d["id_material"]);
      if m.Raise? {
        return Raised(m.exc);
      }
      if m.value.Some? {
        table := RemoveMatching(table, session["zonaid"].i, session["deptoid"].i, m.value.value);
      }
      return Json(true);
    }

    /** The row the listing query returns for a listed key. */
    function RowOf(k: Key): seq<SqlValue>
      reads this
      requires k in table && k.material in materials
    {
      ListedRow(table, materials, k)
    }

    /**
     * The answer of `solicitudes/get` for the keys its query lists: failure
     * when there are none, otherwise the headings and one formatted row per
     * key.
     */
    method ListRequisitions(listed: set<Key>) returns (resp: Response)
      requires forall k :: k in listed ==> k in table && k.material in materials
      ensures resp == Json(false) <==> listed == {}
      ensures resp.Json? || resp.RequisitionList?
      ensures resp.RequisitionList? ==>
        && resp.headings == REQUISITION_HEADINGS
        && |resp.rows| == |listed|
        && (forall i :: 0 <= i < |resp.rows| ==> exists k :: k in listed && resp.rows[i] == FormatRow(RowOf(k)))
        && (forall k :: k in listed ==> FormatRow(RowOf(k)) in resp.rows)
    {
      var k := FetchRequisitions(table, materials, listed);
      if |k| == 0 {
        return Json(false);
      }
      var data := FormatRows(k);
      forall i | 0 <= i < |data|
        ensures exists key :: key in listed && data[i] == FormatRow(RowOf(key))
      {
        var key :| key in listed && k[i] == RowOf(key);
      }
      forall key | key in listed
        ensures FormatRow(RowOf(key)) in data
      {
        var i :| 0 <= i < |k| && k[i] == RowOf(key);
        assert data[i] == FormatRow(RowOf(key));
      }
      return RequisitionList(REQUISITION_HEADINGS, data);
    }

    /** Whether a body names the zone, department and period `solicitudes/get` filters on. */
    predicate NamesFilters(body: Val)
    {
      body.VDict? && "id_zona" in body.d && "id_departamento" in body.d && "id_periodo" in body.d
    }

    /**
     * `solicitudes/get`: the requisitions of the zone, department and period
     * the body names (any of them, not only the session's), each row
     * formatted; no row answers failure.
     */
    method SolicitudesData(body: Val) returns (resp: Response)
      ensures !IsLoggedIn(session) ==> resp == Redirect("home")
      ensures IsLoggedIn(session) && !connected ==> resp == Raised(AttributeError)
      ensures IsLoggedIn(session) && connected && !body.VDict? ==> resp == Raised(TypeError)
      ensures IsLoggedIn(session) && connected && body.VDict? && !NamesFilters(body) ==> resp == Raised(KeyError)
      ensures resp == Raised(ProgrammingError) <==>
        IsLoggedIn(session) && connected && NamesFilters(body)
        && (IntParam(body.d["id_zona"]).Raise? || IntParam(body.d["id_departamento"]).Raise?
            || IntParam(body.d["id_periodo"]).Raise?)
      // the main path: bindable filters always answer with the listing or with failure
      ensures (&& IsLoggedIn(session) && connected && NamesFilters(body)
               && IntParam(body.d["id_zona"]).Ok? && IntParam(body.d["id_departamento"]).Ok?
               && IntParam(body.d["id_periodo"]).Ok?)
              ==> resp.RequisitionList? || resp.Json?
      ensures resp.RequisitionList? || resp.Json? ==>
        && IsLoggedIn(session) && connected && NamesFilters(body)
        && IntParam(body.d["id_zona"]).Ok? && IntParam(body.d["id_departamento"]).Ok?
        && IntParam(body.d["id_periodo"]).Ok?
        && var listed := ListedKeys(table, materials, periods, IntParam(body.d["id_zona"]).value,
                                    IntParam(body.d["id_departamento"]).value, IntParam(body.d["id_periodo"]).value);
           && (resp == Json(false) <==> listed == {})
           && (resp.RequisitionList? ==>
                 && resp.headings == REQUISITION_HEADINGS
                 && |resp.rows| == |listed|
                 && (forall i :: 0 <= i < |resp.rows| ==>
                       exists k :: k in listed && resp.rows[i] == FormatRow(RowOf(k)))
                 && (forall k :: k in listed ==> FormatRow(RowOf(k)) in resp.rows))
    {
      if !IsLoggedIn(session) {
        return Redirect("home");
      }
      if !connected {
        return Raised(AttributeError);
      }
      if !body.VDict? {
        return Raised(TypeError);
      }
      if !NamesFilters(body) {
        return Raised(KeyError);
      }
      var z := IntParam(body.d["id_zona"]);
      var d := IntParam(body.d["id_departamento"]);
      var p := IntParam(body.d["id_periodo"]);
      if z.Raise? || d.Raise? || p.Raise? {
        return Raised(ProgrammingError);
      }
      resp := ListRequisitions(ListedKeys(table, materials, periods, z.value, d.value, p.value));
    }

    /**
     * The answer of `periodo/get` once the filter is known: failure when the
     * query selects nothing, otherwise the headings and one row per
     * selected period, latest start first.
     */
    method ListPeriods(editable: Val, dbNow: int, appNow: int) returns (resp: Response)
      ensures resp == Json(false) <==> Selection(periods, editable, dbNow) == {}
      ensures resp.Json? || resp.PeriodList?
      ensures resp.PeriodList? ==>
        && resp.headings == PERIOD_HEADINGS
        && ListsSelection(resp.periodRows, Selection(periods, editable, dbNow), timestampsAsText, appNow)
    {
      var fetched := FetchPeriods(periods, editable, dbNow);
      ghost var selection := Selection(periods, editable, dbNow);
      DistinctEnumeration(fetched, selection);
      if |fetched| == 0 {
        return Json(false);
      }
      var data := PeriodRows(fetched, timestampsAsText, appNow);
      FetchedRowsListSelection(fetched, data, selection, timestampsAsText, appNow);
      return PeriodList(PERIOD_HEADINGS, data);
    }

    /**
     * `periodo/get`: the active periods, filtered by the body's `editable`
     * against the database clock, latest start first, each row ending with
     * the editable flag computed against the application clock.
     */
    method PeriodoGet(body: Val, dbNow: int, appNow: int) returns (resp: Response)
      requires Valid()
      ensures !IsLoggedIn(session) ==> resp == Redirect("home")
      ensures IsLoggedIn(session) && !connected ==> resp == Raised(AttributeError)
      ensures IsLoggedIn(session) && connected && !body.VDict? ==> resp == Raised(AttributeError)
      ensures IsLoggedIn(session) && connected && body.VDict? ==>
        var editable := Get(body.d, "editable");
        && (resp == Json(false) <==> Selection(periods, editable, dbNow) == {})
        && (editable == VBool(true) ==> resp == Json(false))
        && (resp.Json? || resp.PeriodList?)
        && (resp.PeriodList? ==>
              && resp.headings == PERIOD_HEADINGS
              && ListsSelection(resp.periodRows, Selection(periods, editable, dbNow), timestampsAsText, appNow)
              // with `editable` given, no listed period takes submissions at the query's instant
              && (editable != VNone ==> ClosedIds(resp.periodRows, periods, dbNow))
              // with `editable` given and one clock, no listed period is editable
              && (editable != VNone && dbNow == appNow ==> NoneEditable(resp.periodRows)))
    {
      if !IsLoggedIn(session) {
        return Redirect("home");
      }
      if !connected {
        return Raised(AttributeError);
      }
      if !body.VDict? {
        return Raised(AttributeError);
      }
      var editable := Get(body.d, "editable");
      if editable == VBool(true) {
        EditableTrueSelectsNothing(periods, dbNow);
      }
      resp := ListPeriods(editable, dbNow, appNow);
      if resp.PeriodList? && editable != VNone {
        SelectedRowsClosed(resp.periodRows, periods, editable, timestampsAsText, dbNow, appNow);
        if dbNow == appNow {
          SelectedRowsNotEditable(resp.periodRows, periods, editable, timestampsAsText, dbNow);
        }
      }
    }
  }
}
