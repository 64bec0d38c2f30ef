/**
 * The helpers of utils.py that hold logic: the logged-in test on the
 * session and the default configuration skeleton written by the
 * `user create` command.
 */
module Utils {
  import opened Common

  /**
   * `is_logged_in(session)`: the session holds a user id that is not None.
   * The ensures is the definition itself, stated over the session map.
   */
  predicate IsLoggedIn(session: map<string, Val>): (r: bool)
    ensures r <==> "userid" in session && session["userid"] != VNone
  {
    Get(session, "userid") != VNone
  }

  /**
   * `prepare_config`: one `engine` dictionary is filled for SQLite, copied,
   * then extended for MariaDB and copied again.  Dictionaries are values
   * here, so a copy is the value at the time it is taken.
   */
  method PrepareConfig() returns (r: Val)
    ensures r.VDict? && r.d.Keys == {"config", "secret_key", "sqlite", "mariadb"}
    ensures r.d["config"] == VStr("sqlite") && r.d["secret_key"] == VStr("")
    // the SQLite copy was taken before the MariaDB keys were added
    ensures r.d["sqlite"] == VDict(map["driver" := VStr("SQLITE"), "database" := VStr("database.db")])
    ensures r.d["mariadb"].VDict?
    ensures r.d["mariadb"].d.Keys == {"driver", "database", "server", "username", "password", "port"}
    ensures r.d["mariadb"].d["driver"] == VStr("MARIADB") && r.d["mariadb"].d["port"] == VInt(3306)
    ensures forall k :: k in {"database", "server", "username", "password"} ==> r.d["mariadb"].d[k] == VStr("")
  {
    var json: map<string, Val> := map[];
    json := json["config" := VStr("sqlite")];
    json := json["secret_key" := VStr("")];

    var engine: map<string, Val> := map[];
    engine := engine["driver" := VStr("SQLITE")];
    engine := engine["database" := VStr("database.db")];
    json := json["sqlite" := VDict(engine)];

    engine := engine["driver" := VStr("MARIADB")];
    engine := engine["database" := VStr("")];
    engine := engine["server" := VStr("")];
    engine := engine["username" := VStr("")];
    engine := engine["password" := VStr("")];
    engine := engine["port" := VInt(3306)];
    json := json["mariadb" := VDict(engine)];
    r := VDict(json);
  }
}
