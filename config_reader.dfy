/**
 * Shaping of the configuration: choosing the sub-configuration named by the
 * top-level "config" key of the loaded JSON, mapping its driver name onto
 * `DatabaseType`, and projecting it onto the keys Flask reads.  Reading and
 * parsing the JSON file itself is not part of this model: `ConfigureApp`
 * starts from the loaded value.
 */
module ConfigReader {
  import opened Common

  /** `obj_json.get(config_type)`: JSON object keys are strings, so any other key finds nothing. */
  function Selected(json: map<string, Val>, configType: Val): Val
  {
    if configType.VStr? then Get(json, configType.s) else VNone
  }

  /** The driver value `configure_app` stores for the driver value it found. */
  function DriverFor(driver: Val): (r: Val)
    ensures driver == VNone ==> r == VType(NONE)
    ensures driver == VStr("SQLITE") ==> r == VType(SQLITE)
    ensures driver == VStr("MARIADB") ==> r == VType(MARIADB)
    ensures driver != VNone && driver != VStr("SQLITE") && driver != VStr("MARIADB") ==> r == driver
  {
    match driver
    case VNone => VType(NONE)
    case VStr(s) => if s == "SQLITE" then VType(SQLITE) else if s == "MARIADB" then VType(MARIADB) else driver
    case _ => driver
  }

  /**
   * `configure_app` once the JSON value is loaded; `instancePath` is the
   * application's instance folder.  The selected sub-configuration is
   * updated in place and returned.
   */
  method ConfigureApp(json: Val, instancePath: string) returns (r: Result<Val>)
    // `.get` on a JSON value that is not an object
    ensures !json.VDict? ==> r == Raise(AttributeError)
    // no "config" key: nothing to configure
    ensures json.VDict? && Get(json.d, "config") == VNone ==> r == Ok(VNone)
    // a JSON object cannot be a dictionary key
    ensures json.VDict? && Get(json.d, "config").VDict? ==> r == Raise(TypeError)
    ensures json.VDict? && Get(json.d, "config") != VNone && !Get(json.d, "config").VDict? ==>
      var sub := Selected(json.d, Get(json.d, "config"));
      var secret := Get(json.d, "secret_key");
      // item assignment, then `.get`, on a sub-configuration that is not an object
      && (!sub.VDict? && secret != VNone ==> r == Raise(TypeError))
      && (!sub.VDict? && secret == VNone ==> r == Raise(AttributeError))
      && (sub.VDict? ==>
            var driver := Get(sub.d, "driver");
            && (driver == VStr("SQLITE") && "database" !in sub.d ==> r == Raise(KeyError))
            && ((driver == VStr("SQLITE") && "database" in sub.d && !sub.d["database"].VStr? && !sub.d["database"].VPath?)
                  ==> r == Raise(TypeError))
            // only a SQLite database entry that is missing or not a path-like value fails
            && (r.Raise? <==>
                  && driver == VStr("SQLITE")
                  && ("database" !in sub.d || (!sub.d["database"].VStr? && !sub.d["database"].VPath?)))
            && (r.Ok? ==>
                  && r.value.VDict?
                  // the keys of the sub-configuration, the driver, and the secret key when one is given
                  && r.value.d.Keys == sub.d.Keys + {"driver"} + (if secret != VNone then {"secret_key"} else {})
                  && r.value.d["driver"] == DriverFor(driver)
                  && (secret != VNone ==> r.value.d["secret_key"] == secret)
                  && (driver == VStr("SQLITE") ==>
                        r.value.d["database"] == VPath(Joined(Path(instancePath), ParsePath(sub.d["database"]))))
                  // every other entry is the sub-configuration's own
                  && (forall k ::
                        (k in sub.d && k != "driver" && (k != "secret_key" || secret == VNone)
                         && (k != "database" || driver != VStr("SQLITE")))
                        ==> r.value.d[k] == sub.d[k])))
  {
    if !json.VDict? {
      return Raise(AttributeError);
    }
    var configType := Get(json.d, "config");
    if configType == VNone {
      return Ok(VNone);
    }
    if configType.VDict? {
      return Raise(TypeError);
    }
    var selected := Selected(json.d, configType);
    var secret := Get(json.d, "secret_key");
    if secret != VNone {
      if !selected.VDict? {
        return Raise(TypeError);
      }
      selected := VDict(selected.d["secret_key" := secret]);
    }
    if !selected.VDict? {
      return Raise(AttributeError);
    }
    var subconf := selected.d;
    if Get(subconf, "driver") != VNone {
      if subconf["driver"] == VStr("SQLITE") {
        subconf := subconf["driver" := VType(SQLITE)];
        if "database" !in subconf {
          return Raise(KeyError);
        }
        var database := subconf["database"];
        if !database.VStr? && !database.VPath? {
          return Raise(TypeError);
        }
        subconf := subconf["database" := VPath(Joined(Path(instancePath), ParsePath(database)))];
      }
      if subconf["driver"] == VStr("MARIADB") {
        subconf := subconf["driver" := VType(MARIADB)];
      }
    } else {
      subconf := subconf["driver" := VType(NONE)];
    }
    return Ok(VDict(subconf));
  }

  /** The path `joinpath` takes from a string or from a path. */
  function ParsePath(v: Val): Path
  {
    if v.VPath? then v.p else if v.VStr? then Path(v.s) else Path("")
  }

  /**
   * The Flask configuration key for each sub-configuration key it is read
   * from, for a given driver: a reference table for `ParseFlaskConfig`.
   */
  function FlaskKeys(driver: Val): map<string, string>
  {
    var common := map["DRIVER" := "driver", "SECRET_KEY" := "secret_key"];
    if driver == VType(SQLITE) then common["DATABASE" := "database"]
    else if driver == VType(MARIADB) then
      common["DATABASE" := "database"]["USERNAME" := "username"]["PASSWORD" := "password"]
            ["PORT" := "port"]["SERVER" := "server"]
    else common
  }

  /** The sub-configuration keys `parse_flask_config` reads for a given driver. */
  function FlaskSources(driver: Val): set<string>
  {
    {"driver", "secret_key"}
    + (if driver == VType(SQLITE) then {"database"} else {})
    + (if driver == VType(MARIADB) then {"database", "username", "password", "port", "server"} else {})
  }

  /** `parse_flask_config`: a fresh dictionary with the Flask keys read from the sub-configuration. */
  function ParseFlaskConfig(sub: Val): (r: Result<Val>)
    ensures sub == VNone <==> r == Ok(VNone)
    ensures sub != VNone && !sub.VDict? ==> r == Raise(TypeError)
    ensures sub.VDict? && "driver" !in sub.d ==> r == Raise(KeyError)
    ensures sub.VDict? && "driver" in sub.d ==>
      var keys := FlaskKeys(sub.d["driver"]);
      && (r.Ok? <==> FlaskSources(sub.d["driver"]) <= sub.d.Keys)
      && (r.Raise? ==> r.exc == KeyError)
      && (r.Ok? ==> r.value.VDict? && r.value.d.Keys == keys.Keys
                    && forall k :: k in keys ==> r.value.d[k] == sub.d[keys[k]])
  {
    if sub == VNone then Ok(VNone)
    else if !sub.VDict? then Raise(TypeError)
    else
      var s := sub.d;
      if "driver" !in s then Raise(KeyError)
      else
        var config := map["DRIVER" := s["driver"]];
        if s["driver"] == VType(SQLITE) && "database" !in s then Raise(KeyError)
        else
          var config := if s["driver"] == VType(SQLITE) then config["DATABASE" := s["database"]] else config;
          if s["driver"] == VType(MARIADB)
             && !("database" in s && "username" in s && "password" in s && "port" in s && "server" in s)
          then Raise(KeyError)
          else
            var config :=
              if s["driver"] == VType(MARIADB) then
                config["DATABASE" := s["database"]]["USERNAME" := s["username"]]["PASSWORD" := s["password"]]
                      ["PORT" := s["port"]]["SERVER" := s["server"]]
              else config;
            if "secret_key" !in s then Raise(KeyError)
            else Ok(VDict(config["SECRET_KEY" := s["secret_key"]]))
  }

  /**
   * For a sub-configuration whose driver was mapped to SQLite, the Flask
   * configuration has exactly DRIVER, DATABASE and SECRET_KEY; for MariaDB
   * the five connection keys as well; for NONE only DRIVER and SECRET_KEY.
   */
  lemma FlaskKeysPerBackend(sub: map<string, Val>)
    requires "driver" in sub && "secret_key" in sub
    ensures sub["driver"] == VType(SQLITE) && "database" in sub ==>
      ParseFlaskConfig(VDict(sub)) == Ok(VDict(map["DRIVER" := sub["driver"], "DATABASE" := sub["database"],
                                                   "SECRET_KEY" := sub["secret_key"]]))
    ensures sub["driver"] == VType(NONE) ==>
      ParseFlaskConfig(VDict(sub)) == Ok(VDict(map["DRIVER" := sub["driver"], "SECRET_KEY" := sub["secret_key"]]))
    ensures sub["driver"] == VType(MARIADB) ==>
      (ParseFlaskConfig(VDict(sub)).Ok? <==>
         "database" in sub && "username" in sub && "password" in sub && "port" in sub && "server" in sub)
  {
    var r := ParseFlaskConfig(VDict(sub));
    var keys := FlaskKeys(sub["driver"]);
    if r.Ok? {
      assert r.value.d.Keys == keys.Keys;
    }
    if sub["driver"] == VType(MARIADB) {
      assert keys["USERNAME"] == "username" && keys["PORT"] == "port" && keys["SERVER"] == "server";
      assert keys["PASSWORD"] == "password" && keys["DATABASE"] == "database";
    }
  }
}
