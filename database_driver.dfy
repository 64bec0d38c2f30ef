/**
 * The database driver abstraction: validation of the constructor arguments
 * and of the data source handed to the `data_source` setter, for the
 * SQLite and MariaDB backends.  Opening a connection is reduced to a flag
 * (`canConnect`) saying whether the driver library manages to open it; the
 * file system is an input mapping paths to files and directories.
 */
module DatabaseDriver {
  import opened Common
  import opened Text

  /** The first 16 bytes of every SQLite 3 database file: "SQLite format 3" and a NUL. */
  const SQLITE_MAGIC: seq<byte> :=
    [0x53, 0x51, 0x4C, 0x69, 0x74, 0x65, 0x20, 0x66, 0x6F, 0x72, 0x6D, 0x61, 0x74, 0x20, 0x33, 0x00]

  /** The keys a MariaDB data source must provide. */
  const MARIADB_KEYS: set<string> := {"username", "password", "server", "port", "database"}

  datatype Entry = File(content: seq<byte>) | Directory

  type FileSystem = map<Path, Entry>

  datatype Connection =
    | SqliteConnection(file: Path)
    | MariaDbConnection(user: Val, password: Val, host: Val, port: Val, database: Val)

  /** The checks `DatabaseDriver.__init__` makes of its `database_type` argument. */
  function CheckDatabaseType(v: Val): (r: Result<DatabaseType>)
    ensures r == Raise(IndexError) <==> !v.VType?
    ensures r == Raise(NotImplementedError) <==> v == VType(NONE)
    ensures r.Ok? <==> v.VType? && v.t != NONE
    ensures r.Ok? ==> v == VType(r.value)
  {
    if !v.VType? then Raise(IndexError)
    else if v.t == NONE then Raise(NotImplementedError)
    else Ok(v.t)
  }

  /**
   * `__is_sqlite3` for a file whose bytes are `content`: the file is at
   * least one header (100 bytes) long and the header starts with the magic.
   */
  function IsSqlite3(content: seq<byte>): (ok: bool)
    ensures ok <==> |content| >= 100 && forall i :: 0 <= i < 16 ==> content[i] == SQLITE_MAGIC[i]
  {
    if |content| < 100 then false
    else
      var header := content[..100];
      header[..16] == SQLITE_MAGIC
  }

  /** `parse_to_path`: a Path is kept, a string becomes a Path, anything else None. */
  function ParseToPath(v: Val): (r: Option<Path>)
    ensures v.VPath? ==> r == Some(v.p)
    ensures v.VStr? ==> r == Some(Path(v.s))
    ensures !v.VPath? && !v.VStr? ==> r == None
  {
    match v
    case VPath(p) => Some(p)
    case VStr(s) => Some(Path(s))
    case _ => None
  }

  /** The Python value `parse_to_path` returns. */
  function PathVal(p: Option<Path>): Val
  {
    match p
    case Some(q) => VPath(q)
    case None => VNone
  }

  /** Parsing what `parse_to_path` returned changes nothing. */
  lemma ParseToPathIdempotent(v: Val)
    ensures ParseToPath(PathVal(ParseToPath(v))) == ParseToPath(v)
  {
  }

  // ---------------------------------------------------------------------
  // The MariaDB connection string "k=v,k=v,..."
  // ---------------------------------------------------------------------

  /** `valor.split('=')[0]`. */
  function SegmentKey(seg: string): string
  {
    Split(seg, '=')[0]
  }

  /** `valor.split('=')[1]`: the text between the first and a second '='. */
  function SegmentValue(seg: string): string
    requires '=' in seg
  {
    Split(seg, '=')[1]
  }

  /** Every segment has an '=', so `temp[1]` never raises IndexError. */
  predicate WellFormed(segs: seq<string>)
  {
    forall i :: 0 <= i < |segs| ==> '=' in segs[i]
  }

  /** A well-formed prefix followed by a segment with an '=' is well formed, and so is its own prefix. */
  lemma WellFormedStep(data: seq<string>, n: nat)
    requires n < |data| && WellFormed(data[..n]) && '=' in data[n]
    ensures WellFormed(data[..n + 1]) && data[..n + 1][..n] == data[..n]
  {
    assert data[..n + 1] == data[..n] + [data[n]];
  }

  /** The dictionary the parsing loop fills: a later segment overwrites an earlier one. */
  function Fields(segs: seq<string>): map<string, string>
    requires WellFormed(segs)
  {
    if |segs| == 0 then map[]
    else
      var last := segs[|segs| - 1];
      Fields(segs[..|segs| - 1])[SegmentKey(last) := SegmentValue(last)]
  }

  /** The loop's counter: segments naming one of the five keys, repeats included. */
  function Occurrences(segs: seq<string>): nat
  {
    if |segs| == 0 then 0
    else
      var last := segs[|segs| - 1];
      Occurrences(segs[..|segs| - 1]) + (if SegmentKey(last) in MARIADB_KEYS then 1 else 0)
  }

  datatype ParsedSource = ParsedSource(fields: map<string, string>, count: nat)

  /**
   * The loop of the setter's MariaDB string branch: split on ',' and then
   * on '=', fill a dictionary and count the recognised keys.
   */
  method ParseConnectionString(s: string) returns (r: Result<ParsedSource>)
    ensures r.Ok? || r == Raise(IndexError)
    ensures r.Raise? <==> !WellFormed(Split(s, ','))
    ensures r.Ok? ==>
              WellFormed(Split(s, ',')) && r.value == ParsedSource(Fields(Split(s, ',')), Occurrences(Split(s, ',')))
  {
    var data := Split(s, ',');
    var fields: map<string, string> := map[];
    var cont := 0;
    for n := 0 to |data|
      invariant WellFormed(data[..n])
      invariant fields == Fields(data[..n])
      invariant cont == Occurrences(data[..n])
    {
      var temp := Split(data[n], '=');
      if |temp| < 2 {
        return Raise(IndexError);
      }
      WellFormedStep(data, n);
      fields := fields[temp[0] := temp[1]];
      if temp[0] in MARIADB_KEYS {
        cont := cont + 1;
      }
    }
    assert data[..|data|] == data;
    return Ok(ParsedSource(fields, cont));
  }

  /** The keys that occur in a list of segments are exactly the keys of its dictionary. */
  lemma FieldsKeys(segs: seq<string>, k: string)
    requires WellFormed(segs)
    ensures k in Fields(segs) <==> exists i :: 0 <= i < |segs| && SegmentKey(segs[i]) == k
  {
    if k in Fields(segs) {
      var i := KeyFromSegment(segs, k);
    }
    forall i | 0 <= i < |segs| && SegmentKey(segs[i]) == k ensures k in Fields(segs) {
      SegmentKeyInFields(segs, i);
    }
  }

  /** A key of the dictionary comes from some segment. */
  lemma {:induction false} KeyFromSegment(segs: seq<string>, k: string) returns (i: nat)
    requires WellFormed(segs) && k in Fields(segs)
    ensures i < |segs| && SegmentKey(segs[i]) == k
  {
    var init, last := segs[..|segs| - 1], segs[|segs| - 1];
    assert WellFormed(init) by {
      assert forall j :: 0 <= j < |init| ==> init[j] == segs[j];
    }
    if k == SegmentKey(last) {
      i := |segs| - 1;
    } else {
      i := KeyFromSegment(init, k);
      assert init[i] == segs[i];
    }
  }

  /** The key of every segment is in the dictionary. */
  lemma {:induction false} SegmentKeyInFields(segs: seq<string>, i: nat)
    requires WellFormed(segs) && i < |segs|
    ensures SegmentKey(segs[i]) in Fields(segs)
  {
    var init := segs[..|segs| - 1];
    assert WellFormed(init) by {
      assert forall j :: 0 <= j < |init| ==> init[j] == segs[j];
    }
    if i < |segs| - 1 {
      SegmentKeyInFields(init, i);
      assert init[i] == segs[i];
    }
  }

  /** A repeated key keeps the value of its last segment. */
  lemma {:induction false} FieldsLastWins(segs: seq<string>, i: nat)
    requires WellFormed(segs) && i < |segs|
    requires forall j :: i < j < |segs| ==> SegmentKey(segs[j]) != SegmentKey(segs[i])
    ensures SegmentKey(segs[i]) in Fields(segs)
    ensures Fields(segs)[SegmentKey(segs[i])] == SegmentValue(segs[i])
  {
    if i < |segs| - 1 {
      var init := segs[..|segs| - 1];
      assert init[i] == segs[i];
      FieldsLastWins(init, i);
    }
  }

  /** The segment `k=v` of a connection string. */
  function Segment(k: string, v: string): string
  {
    k + "=" + v
  }

  /** A key, an '=' and a value without '=' form one segment. */
  lemma SegmentOf(k: string, v: string)
    requires '=' !in k && '=' !in v
    ensures '=' in Segment(k, v)
    ensures SegmentKey(Segment(k, v)) == k && SegmentValue(Segment(k, v)) == v
  {
    assert JoinWith([k, v], '=') == k + "=" + v;
    JoinThenSplit([k, v], '=');
    assert (k + "=" + v)[|k|] == '=';
  }

  // ---------------------------------------------------------------------
  // The MariaDB dictionary source
  // ---------------------------------------------------------------------

  lemma SubsetOfSameSize(a: set<string>, b: set<string>)
    requires a <= b && |a| == |b|
    ensures a == b
  {
    if a != b {
      assert b - a != {} by {
        if b - a == {} {
          forall y | y in b ensures y in a {
            assert y !in b - a;
          }
        }
      }
      var x :| x in b - a;
      assert a <= b - {x};
      assert |b - {x}| == |b| - 1;
      SubsetSize(a, b - {x});
      assert false;
    }
  }

  lemma {:induction false} SubsetSize(a: set<string>, b: set<string>)
    requires a <= b
    ensures |a| <= |b|
    decreases |a|
  {
    if a != {} {
      var x :| x in a;
      SubsetSize(a - {x}, b - {x});
    }
  }

  /** Taking one more key from the rest adds one to the recognised count exactly when it is recognised. */
  lemma CountStep(keys: set<string>, rest: set<string>, k: string)
    requires rest <= keys && k in rest
    ensures |(keys - (rest - {k})) * MARIADB_KEYS|
         == |(keys - rest) * MARIADB_KEYS| + (if k in MARIADB_KEYS then 1 else 0)
  {
    var before := (keys - rest) * MARIADB_KEYS;
    var after := (keys - (rest - {k})) * MARIADB_KEYS;
    if k in MARIADB_KEYS {
      assert after == before + {k};
    } else {
      assert after == before;
    }
  }

  /** Five of the recognised keys are present exactly when all of them are. */
  lemma RecognisedFive(keys: set<string>)
    ensures |keys * MARIADB_KEYS| == 5 <==> MARIADB_KEYS <= keys
  {
    assert |MARIADB_KEYS| == 5;
    if |keys * MARIADB_KEYS| == 5 {
      SubsetOfSameSize(keys * MARIADB_KEYS, MARIADB_KEYS);
    }
    if MARIADB_KEYS <= keys {
      assert keys * MARIADB_KEYS == MARIADB_KEYS;
    }
  }

  /**
   * The loop of the setter's dictionary branch: how many of the keys are
   * recognised.  Dictionary keys are distinct, so the count is five exactly
   * when all five keys are present.
   */
  method CountRecognisedKeys(keys: set<string>) returns (cont: nat)
    ensures cont == |keys * MARIADB_KEYS|
    ensures cont == 5 <==> MARIADB_KEYS <= keys
  {
    var rest := keys;
    cont := 0;
    while rest != {}
      invariant rest <= keys
      invariant cont == |(keys - rest) * MARIADB_KEYS|
      decreases |rest|
    {
      var k :| k in rest;
      CountStep(keys, rest, k);
      if k in MARIADB_KEYS {
        cont := cont + 1;
      }
      rest := rest - {k};
    }
    assert keys - rest == keys;
    RecognisedFive(keys);
  }

  // ---------------------------------------------------------------------
  // What the setter does to the driver's state
  // ---------------------------------------------------------------------

  /** The private fields `__data_source` and `__connection`, and the exception raised if any. */
  datatype Assignment = Assignment(dataSource: Val, connection: Option<Connection>, raised: Option<Exception>)

  /** The string dictionary of a parsed connection string, as Python values. */
  function StringFields(m: map<string, string>): map<string, Val>
  {
    map k | k in m :: VStr(m[k])
  }

  /**
   * `__create_connection`: SQLite opens the file or raises; MariaDB reads
   * the five keys in order (a missing one raises KeyError), and a failing
   * connection is caught and printed, leaving the previous connection.
   */
  function Connect(t: DatabaseType, source: map<string, Val>, canConnect: bool, previous: Option<Connection>)
    : (r: (Option<Connection>, Option<Exception>))
    requires t == SQLITE ==> "database" in source && source["database"].VPath?
    // a failed attempt keeps the previous connection
    ensures r.1.Some? ==> r.0 == previous
    // a new connection needs a reachable server, and raises nothing
    ensures r.0 != previous ==> canConnect && r.1 == None
  {
    match t
    case SQLITE =>
      if canConnect then (Some(SqliteConnection(source["database"].p)), None)
      else (previous, Some(OperationalError))
    case MARIADB =>
      if !(MARIADB_KEYS <= source.Keys) then (previous, Some(KeyError))
      else if canConnect then
        (Some(MariaDbConnection(source["username"], source["password"], source["server"],
                                source["port"], source["database"])), None)
      else (previous, None)
    case NONE => (previous, None)
  }

  function Connected(t: DatabaseType, source: map<string, Val>, canConnect: bool, previous: Option<Connection>, data: Val)
    : Assignment
    requires t == SQLITE ==> "database" in source && source["database"].VPath?
  {
    var (c, e) := Connect(t, source, canConnect, previous);
    Assignment(data, c, e)
  }

  /** The SQLite branch of the setter. */
  function SqliteAssignment(ds: Val, fs: FileSystem, canConnect: bool, source: Val, previous: Option<Connection>)
    : Assignment
  {
    if ds == VNone then Assignment(source, previous, Some(FileNotFoundError))
    else if ds.VDict? && Get(ds.d, "database") == VNone then Assignment(source, previous, Some(SyntaxError))
    else
      var stored :=
        if ds.VDict? then ds.d["database" := PathVal(ParseToPath(ds.d["database"]))]
        else map["database" := PathVal(ParseToPath(ds))];
      match stored["database"]
      case VPath(p) =>
        if p in fs && fs[p].File? && !IsSqlite3(fs[p].content) then Assignment(VDict(stored), previous, None)
        else Connected(SQLITE, stored, canConnect, previous, VDict(stored))
      case _ => Assignment(VDict(stored), previous, Some(AttributeError))
  }

  /** The MariaDB branch of the setter. */
  function MariaDbAssignment(ds: Val, canConnect: bool, source: Val, previous: Option<Connection>): Assignment
  {
    match ds
    case VStr(s) =>
      var segs := Split(s, ',');
      if !WellFormed(segs) then Assignment(source, previous, Some(IndexError))
      else if Occurrences(segs) == 5 then Connected(MARIADB, StringFields(Fields(segs)), canConnect, previous, source)
      else Assignment(source, previous, None)
    case VDict(d) =>
      if !(MARIADB_KEYS <= d.Keys) then Assignment(source, previous, Some(SyntaxError))
      else Connected(MARIADB, d, canConnect, previous, source)
    case VNone => Assignment(VNone, previous, None)
    case _ => Assignment(source, previous, None)
  }

  /** The `data_source` setter, from the driver's type and its previous state. */
  function Assign(t: DatabaseType, ds: Val, fs: FileSystem, canConnect: bool, source: Val, previous: Option<Connection>)
    : (r: Assignment)
    // an exception never replaces the connection
    ensures r.raised.Some? ==> r.connection == previous
    // only a reachable server yields a new connection
    ensures r.connection != previous ==> canConnect
  {
    match t
    case SQLITE => SqliteAssignment(ds, fs, canConnect, source, previous)
    case MARIADB => MariaDbAssignment(ds, canConnect, source, previous)
    case NONE => Assignment(if ds == VNone then VNone else source, previous, None)
  }

  class Driver {
    const databaseType: DatabaseType
    var dataSource: Val
    var connection: Option<Connection>

    /** The object before `__init__` runs its checks: every private field is None. */
    constructor (t: DatabaseType)
      ensures databaseType == t && dataSource == VNone && connection == None
    {
      databaseType := t;
      dataSource := VNone;
      connection := None;
    }

    /** `DatabaseDriver(database_type, datasource_object)`. */
    static method Create(databaseType: Val, ds: Val, fs: FileSystem, canConnect: bool) returns (r: Result<Driver>)
      ensures CheckDatabaseType(databaseType).Raise? ==> r == Raise(CheckDatabaseType(databaseType).exc)
      ensures CheckDatabaseType(databaseType).Ok? && ds == VNone ==>
                r.Ok? && fresh(r.value) && r.value.databaseType == databaseType.t
                && r.value.dataSource == VNone && r.value.connection == None
      ensures CheckDatabaseType(databaseType).Ok? && ds != VNone ==>
                var a := Assign(databaseType.t, ds, fs, canConnect, VNone, None);
                (a.raised.Some? ==> r == Raise(a.raised.value))
                && (a.raised.None? ==> r.Ok? && fresh(r.value) && r.value.databaseType == databaseType.t
                                       && r.value.dataSource == a.dataSource && r.value.connection == a.connection)
    {
      var checked := CheckDatabaseType(databaseType);
      if checked.Raise? {
        return Raise(checked.exc);
      }
      var driver := new Driver(checked.value);
      if ds != VNone {
        var raised := driver.SetDataSource(ds, fs, canConnect);
        if raised.Some? {
          return Raise(raised.value);
        }
      }
      return Ok(driver);
    }

    /** `__create_connection(data_source)`. */
    method CreateConnection(source: map<string, Val>, canConnect: bool) returns (raised: Option<Exception>)
      requires databaseType == SQLITE ==> "database" in source && source["database"].VPath?
      modifies this`connection
      ensures (connection, raised) == Connect(databaseType, source, canConnect, old(connection))
    {
      raised := None;
      if databaseType == SQLITE {
        if canConnect {
          connection := Some(SqliteConnection(source["database"].p));
        } else {
          raised := Some(OperationalError);
        }
      }
      if databaseType == MARIADB {
        var keys := ["username", "password", "server", "port", "database"];
        for n := 0 to |keys|
          invariant forall j :: 0 <= j < n ==> keys[j] in source
        {
          if keys[n] !in source {
            return Some(KeyError);
          }
        }
        assert MARIADB_KEYS <= source.Keys by {
          forall k | k in MARIADB_KEYS ensures k in source {
            assert k == keys[0] || k == keys[1] || k == keys[2] || k == keys[3] || k == keys[4];
          }
        }
        if canConnect {
          connection := Some(MariaDbConnection(source["username"], source["password"], source["server"],
                                               source["port"], source["database"]));
        }
      }
    }

    /** The `data_source` property setter. */
    method SetDataSource(ds: Val, fs: FileSystem, canConnect: bool) returns (raised: Option<Exception>)
      modifies this
      ensures Assignment(dataSource, connection, raised)
           == Assign(databaseType, ds, fs, canConnect, old(dataSource), old(connection))
    {
      raised := None;
      if databaseType == SQLITE {
        if ds == VNone {
          return Some(FileNotFoundError);
        }
        var stored: map<string, Val>;
        if ds.VDict? {
          if Get(ds.d, "database") == VNone {
            return Some(SyntaxError);
          }
          stored := ds.d["database" := PathVal(ParseToPath(ds.d["database"]))];
        } else {
          stored := map["database" := PathVal(ParseToPath(ds))];
        }
        dataSource := VDict(stored);
        if !stored["database"].VPath? {
          return Some(AttributeError);
        }
        var p := stored["database"].p;
        if p in fs && fs[p].File? {
          if IsSqlite3(fs[p].content) {
            raised := CreateConnection(stored, canConnect);
          }
        } else {
          raised := CreateConnection(stored, canConnect);
        }
        return;
      }
      if databaseType == MARIADB {
        if ds.VStr? {
          var parsed := ParseConnectionString(ds.s);
          if parsed.Raise? {
            return Some(parsed.exc);
          }
          if parsed.value.count == 5 {
            raised := CreateConnection(StringFields(parsed.value.fields), canConnect);
          }
          return;
        }
        if ds.VDict? {
          var cont := CountRecognisedKeys(ds.d.Keys);
          if cont != 5 {
            return Some(SyntaxError);
          }
          raised := CreateConnection(ds.d, canConnect);
          return;
        }
      }
      if ds == VNone {
        dataSource := VNone;
      }
    }
  }

  // ---------------------------------------------------------------------
  // Properties of the setter
  // ---------------------------------------------------------------------

  /**
   * SQLite never connects to an existing file that fails the header check,
   * and a connection it makes is always to the path it recorded.
   */
  lemma SqliteNeverOpensForeignFile(ds: Val, fs: FileSystem, canConnect: bool, source: Val, previous: Option<Connection>)
    ensures var a := SqliteAssignment(ds, fs, canConnect, source, previous);
      a.connection != previous ==>
        && a.connection.Some? && a.connection.value.SqliteConnection?
        && a.dataSource.VDict? && "database" in a.dataSource.d
        && a.dataSource.d["database"] == VPath(a.connection.value.file)
        && var p := a.connection.value.file;
           (p in fs && fs[p].File? ==> IsSqlite3(fs[p].content))
  {
  }

  /** The setter's SQLite rules for None, for a dictionary without a database, and for a plain value. */
  lemma SqliteSourceRules(ds: Val, fs: FileSystem, canConnect: bool, source: Val, previous: Option<Connection>)
    ensures ds == VNone ==>
      SqliteAssignment(ds, fs, canConnect, source, previous) == Assignment(source, previous, Some(FileNotFoundError))
    ensures ds.VDict? && Get(ds.d, "database") == VNone ==>
      SqliteAssignment(ds, fs, canConnect, source, previous) == Assignment(source, previous, Some(SyntaxError))
    ensures ds != VNone && !ds.VDict? ==>
      SqliteAssignment(ds, fs, canConnect, source, previous).dataSource
        == VDict(map["database" := PathVal(ParseToPath(ds))])
    ensures ds.VStr? && Path(ds.s) !in fs && canConnect ==>
      SqliteAssignment(ds, fs, canConnect, source, previous)
        == Assignment(VDict(map["database" := VPath(Path(ds.s))]), Some(SqliteConnection(Path(ds.s))), None)
  {
  }

  /** The MariaDB branch never records the data source; only a None source clears it. */
  lemma MariaDbKeepsNoSource(ds: Val, canConnect: bool, source: Val, previous: Option<Connection>)
    ensures MariaDbAssignment(ds, canConnect, source, previous).dataSource == (if ds == VNone then VNone else source)
  {
  }

  /** A MariaDB dictionary is accepted exactly when it has all five keys. */
  lemma MariaDbDictRules(d: map<string, Val>, canConnect: bool, source: Val, previous: Option<Connection>)
    ensures MariaDbAssignment(VDict(d), canConnect, source, previous).raised == Some(SyntaxError)
            <==> !(MARIADB_KEYS <= d.Keys)
    ensures MARIADB_KEYS <= d.Keys && canConnect ==>
      MariaDbAssignment(VDict(d), canConnect, source, previous).connection
        == Some(MariaDbConnection(d["username"], d["password"], d["server"], d["port"], d["database"]))
  {
  }

  /**
   * A MariaDB connection string is tried exactly when five recognised keys
   * were seen; otherwise it is skipped silently, unless a segment has no '='.
   */
  lemma MariaDbStringRules(s: string, canConnect: bool, source: Val, previous: Option<Connection>)
    ensures var segs := Split(s, ',');
            var a := MariaDbAssignment(VStr(s), canConnect, source, previous);
            && (!WellFormed(segs) <==> a.raised == Some(IndexError))
            && (WellFormed(segs) && Occurrences(segs) != 5 ==> a == Assignment(source, previous, None))
            && (a.connection != previous ==> WellFormed(segs) && Occurrences(segs) == 5)
            // a count of 5 with the five keys present: a reachable server is connected to with their values
            && (WellFormed(segs) && Occurrences(segs) == 5 && MARIADB_KEYS <= Fields(segs).Keys && canConnect ==>
                  var f := Fields(segs);
                  a == Assignment(source, Some(MariaDbConnection(VStr(f["username"]), VStr(f["password"]),
                                                                 VStr(f["server"]), VStr(f["port"]),
                                                                 VStr(f["database"]))), None))
            // and a refusing server is caught, leaving the previous connection
            && (WellFormed(segs) && Occurrences(segs) == 5 && MARIADB_KEYS <= Fields(segs).Keys && !canConnect ==>
                  a == Assignment(source, previous, None))
  {
    var segs := Split(s, ',');
    if WellFormed(segs) && Occurrences(segs) == 5 {
      var (c, e) := Connect(MARIADB, StringFields(Fields(segs)), canConnect, previous);
      assert e != Some(IndexError);
    }
  }

  /** A list of segments that all name recognised keys counts one per segment. */
  lemma {:induction false} OccurrencesAllRecognised(segs: seq<string>)
    requires forall i :: 0 <= i < |segs| ==> SegmentKey(segs[i]) in MARIADB_KEYS
    ensures Occurrences(segs) == |segs|
  {
    if |segs| > 0 {
      OccurrencesAllRecognised(segs[..|segs| - 1]);
    }
  }

  /** The segments "k=v" of keys and values free of '=' and ',', joined with commas, split back. */
  lemma SegmentsOf(keys: seq<string>, vals: seq<string>) returns (segs: seq<string>)
    requires |keys| == |vals| > 0
    requires forall i :: 0 <= i < |keys| ==> '=' !in keys[i] && ',' !in keys[i] && '=' !in vals[i] && ',' !in vals[i]
    ensures |segs| == |keys|
    ensures forall i :: 0 <= i < |segs| ==> segs[i] == Segment(keys[i], vals[i])
    ensures WellFormed(segs)
    ensures forall i :: 0 <= i < |segs| ==> ',' !in segs[i]
    ensures forall i :: 0 <= i < |segs| ==> SegmentKey(segs[i]) == keys[i] && SegmentValue(segs[i]) == vals[i]
    ensures Split(JoinWith(segs, ','), ',') == segs
  {
    segs := seq(|keys|, i requires 0 <= i < |keys| => Segment(keys[i], vals[i]));
    forall i | 0 <= i < |segs|
      ensures '=' in segs[i] && ',' !in segs[i]
      ensures SegmentKey(segs[i]) == keys[i] && SegmentValue(segs[i]) == vals[i]
    {
      SegmentOf(keys[i], vals[i]);
      assert segs[i] == keys[i] + "=" + vals[i];
    }
    JoinThenSplit(segs, ',');
  }

  /** A connection string whose count reaches five but that lacks a key raises KeyError on connecting. */
  lemma CountedButIncomplete(s: string, canConnect: bool, source: Val, previous: Option<Connection>)
    requires WellFormed(Split(s, ',')) && Occurrences(Split(s, ',')) == 5
    requires !(MARIADB_KEYS <= Fields(Split(s, ',')).Keys)
    ensures MariaDbAssignment(VStr(s), canConnect, source, previous) == Assignment(source, previous, Some(KeyError))
  {
    assert StringFields(Fields(Split(s, ','))).Keys == Fields(Split(s, ',')).Keys;
  }

  /** The keys of a connection string that repeats "username" and leaves out "database". */
  const REPEATED_USER_KEYS: seq<string> := ["username", "username", "password", "server", "port"]

  /**
   * The counter counts occurrences, not distinct keys: segments that name
   * "username" twice and never name "database" reach the count of five,
   * and the dictionary keeps the second user name and has no database.
   */
  lemma RepeatedKeyPassesCount(segs: seq<string>)
    requires |segs| == 5 && WellFormed(segs)
    requires forall i :: 0 <= i < 5 ==> SegmentKey(segs[i]) == REPEATED_USER_KEYS[i]
    ensures Occurrences(segs) == 5
    ensures "database" !in Fields(segs) && "username" in Fields(segs)
    ensures Fields(segs)["username"] == SegmentValue(segs[1])
  {
    RepeatedKeysRecognised();
    OccurrencesAllRecognised(segs);
    FieldsKeys(segs, "database");
    FieldsLastWins(segs, 1);
  }

  /** Such a connection string is tried, and the connection raises KeyError on the missing key. */
  lemma RepeatedKeyRaises(segs: seq<string>, canConnect: bool, source: Val, previous: Option<Connection>)
    requires |segs| == 5 && WellFormed(segs)
    requires forall i :: 0 <= i < 5 ==> SegmentKey(segs[i]) == REPEATED_USER_KEYS[i] && ',' !in segs[i]
    ensures MariaDbAssignment(VStr(JoinWith(segs, ',')), canConnect, source, previous)
            == Assignment(source, previous, Some(KeyError))
  {
    JoinThenSplit(segs, ',');
    RepeatedKeyPassesCount(segs);
    CountedButIncomplete(JoinWith(segs, ','), canConnect, source, previous);
  }

  /**
   * The converse: a complete connection string that repeats one key counts
   * six and is skipped without a connection and without an error.
   */
  lemma CompleteWithRepeatSkipped(segs: seq<string>, canConnect: bool, source: Val, previous: Option<Connection>)
    requires |segs| == 6 && WellFormed(segs)
    requires forall i :: 0 <= i < 6 ==> SegmentKey(segs[i]) in MARIADB_KEYS && ',' !in segs[i]
    ensures MariaDbAssignment(VStr(JoinWith(segs, ',')), canConnect, source, previous)
            == Assignment(source, previous, None)
  {
    JoinThenSplit(segs, ',');
    OccurrencesAllRecognised(segs);
  }

  /** The five keys are all recognised, none is "database", and only the first two are "username". */
  lemma RepeatedKeysRecognised()
    ensures forall i :: 0 <= i < 5 ==> REPEATED_USER_KEYS[i] in MARIADB_KEYS && REPEATED_USER_KEYS[i] != "database"
    ensures forall i :: 2 <= i < 5 ==> REPEATED_USER_KEYS[i] != "username"
  {
  }

  /** The five keys hold neither '=' nor ','. */
  lemma RepeatedKeysPlain()
    ensures forall i :: 0 <= i < 5 ==> '=' !in REPEATED_USER_KEYS[i] && ',' !in REPEATED_USER_KEYS[i]
  {
    forall i | 0 <= i < 5
      ensures '=' !in REPEATED_USER_KEYS[i] && ',' !in REPEATED_USER_KEYS[i]
    {
      assert REPEATED_USER_KEYS[i] in {"username", "password", "server", "port"};
    }
  }

  /** Such connection strings exist: any five values free of '=' and ',' make one. */
  lemma RepeatedKeyExample(vals: seq<string>) returns (segs: seq<string>)
    requires |vals| == 5
    requires forall i :: 0 <= i < 5 ==> '=' !in vals[i] && ',' !in vals[i]
    ensures |segs| == 5 && WellFormed(segs)
    ensures forall i :: 0 <= i < 5 ==>
      && SegmentKey(segs[i]) == REPEATED_USER_KEYS[i] && SegmentValue(segs[i]) == vals[i]
      && ',' !in segs[i]
  {
    RepeatedKeysPlain();
    segs := SegmentsOf(REPEATED_USER_KEYS, vals);
  }
}
