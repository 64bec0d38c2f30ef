# consad — a Dafny model of the requisition web application

The application lets a department of a zone submit material requisitions for
an open period. It also lists, deletes and reviews them. It is a small Flask app
over a database driver that speaks to SQLite or MariaDB. This project models
its core:

- **`DatabaseDriver`** (`database_driver.dfy`) covers the driver:
  - the database-type check of its constructor;
  - the data-source setter and its per-backend rules:
    - a SQLite source is a path, a dictionary or a string;
    - a MariaDB source is a `key=value,...` string or a dictionary;
    - the five connection keys are counted;
  - the SQLite header test;
  - `parse_to_path`;
  - the connection it opens.

  `Driver` is a class whose `dataSource` and `connection` fields are updated in
  place. The file system and the reachability of the MariaDB server are inputs.
- **`ConfigReader`** (`config_reader.dfy`) covers `configure_app`, which
  selects a sub-configuration and rewrites it step by step, and
  `parse_flask_config`, which derives the Flask keys.
- **`Utils`** (`utils.dfy`) covers `is_logged_in` and the default
  configuration skeleton of `prepare_config`.
- **`Consad`** (`consad.dfy`) holds the request handlers as methods of an
  `App` class. The session and the `solicitudes` table are its mutable fields.
  The handlers are:
  - login and logout;
  - the submission with its validation, its period gate and its
    insert-or-update;
  - the delete;
  - the listing with its cell formatting;
  - the period listing with its `editable` filter and flag.
- **`Requisitions`**, **`Periods`** and **`Rows`** hold the table
  operations, the period window rules and the row formatter that the handlers
  are specified by.
- **`Text`** models the Python string operations the core relies on:
  - `str.split` and `join`;
  - `int()` on text;
  - `str()` of numbers;
  - the `'{:0,.2f}'` format.
- **`Common`** holds the Python values (`Val`), the exceptions and `Result`.

The main properties proved are the following:

- Splitting and joining are inverse operations.
- `int(str(n)) == n`.
- The price text denotes the price.
- A MariaDB string whose keys are repeated passes the count of five and then
  fails with KeyError when connecting.
- A SQLite source that exists but is not a SQLite file is never opened.
- Login followed by logout restores the session without the six keys.
- Submitting a catalogued material twice keeps one row.
- The delete is idempotent.
- A submitted quantity of a catalogued material is listed back as `q.0`.
- Every period listed with `editable` given is closed for submissions.
- `editable: true` lists nothing.
- The submission window includes its bounds, while the editable flag excludes
  them.

Where the code and its description disagree, the model follows the code:

- Logout raises KeyError when the session lacks one of the six keys. It does
  not skip that key.
- A listed quantity reads `5.0`, because the column holds a float.
- `editable: true` selects no period at all, because the two conditions it
  adds contradict each other.
- A submission of a material that is not in the catalogue is inserted, but
  the existence check joins with the catalogue and never finds that row.
  A second submission of the same key therefore attempts a second insert and
  raises IntegrityError instead of updating, and the first submission is never
  listed. Submitting twice is idempotent, and a submission is listed back,
  only for a catalogued material.
- The quantity is read with `int()`, so a decimal quantity such as `2.5`
  raises ValueError rather than being accepted.

## Model

| member | source | states |
|---|---|---|
| Text.Split | src/consad/database_driver.py:59-62 | `str.split` on a one-character separator: there is at least one piece, no piece contains the separator, and a text without the separator is its own single piece |
| Text.SplitThenJoin | src/consad/database_driver.py:59-63 | joining the pieces of a split with the separator gives back the original text |
| Text.SplitAtFirst | src/consad/database_driver.py:59-63 | text split at its first separator yields the part before it, then the pieces of the rest |
| Text.JoinThenSplit | src/consad/database_driver.py:59-63 | splitting the join of pieces that hold no separator gives back the pieces |
| Text.ParseIntRoundTrip | src/consad/__init__.py:225 | `int()` reads back the decimal text of every integer |
| Text.ParseInt | src/consad/__init__.py:225 | `int()` on text: surrounding whitespace, an optional sign and ASCII digits; blank text raises ValueError |
| Text.MoneyTextDenotesAmount | src/consad/__init__.py:305-306 | the `'{:0,.2f}'` text of an amount, with its thousands commas and its decimal point removed, reads back as the amount in hundredths |
| Text.FloatTextWhole | src/consad/__init__.py:307-308 | `str()` of a whole float is the integer text followed by `.0` |
| DatabaseDriver.CheckDatabaseType | src/consad/database_driver.py:89-93 | the constructor raises IndexError exactly for a non-enum type and NotImplementedError exactly for NONE, and otherwise accepts SQLITE and MARIADB |
| DatabaseDriver.IsSqlite3 | src/consad/database_driver.py:98-105 | a file is SQLite exactly when it is at least 100 bytes long and starts with the 16-byte magic header |
| DatabaseDriver.ParseToPath | src/consad/database_driver.py:122-129 | a Path is kept, a string becomes its Path, and anything else becomes None |
| DatabaseDriver.ParseToPathIdempotent | src/consad/database_driver.py:122-129 | parsing a parsed value again changes nothing |
| DatabaseDriver.ParseConnectionString | src/consad/database_driver.py:58-65 | the loop over comma pieces raises IndexError exactly when some piece has no `=`; otherwise it yields the field map, where a later key wins, and the count of recognised keys, repeats included |
| DatabaseDriver.FieldsKeys | src/consad/database_driver.py:61-63 | the keys of the parsed map are exactly the keys of the pieces |
| DatabaseDriver.FieldsLastWins | src/consad/database_driver.py:61-63 | each key maps to the value of its last piece |
| DatabaseDriver.SegmentOf | src/consad/database_driver.py:61-63 | a piece `k=v` built from a key and a value without `=` parses back to that key and that value |
| DatabaseDriver.CountRecognisedKeys | src/consad/database_driver.py:68-72 | the dictionary loop counts the recognised keys it holds, and the count is 5 exactly when all five connection keys are present |
| DatabaseDriver.RecognisedFive | src/consad/database_driver.py:68-72 | the recognised keys a dictionary holds number five exactly when all five connection keys are present |
| DatabaseDriver.Driver.Create | src/consad/database_driver.py:89-96 | the constructor: the type is checked first, then a source that is not None goes through the setter, and the setter's exception becomes the constructor's |
| DatabaseDriver.Driver.CreateConnection | src/consad/database_driver.py:107-120 | SQLite connects to the database path or raises OperationalError; MariaDB raises KeyError when one of the five keys is missing, and keeps the old connection when the server refuses, since that error is caught |
| DatabaseDriver.Driver.SetDataSource | src/consad/database_driver.py:35-76 | the new source, the new connection and the raised exception are those of the setter's rules for the driver's type |
| DatabaseDriver.Assign | src/consad/database_driver.py:35-76 | the setter's outcome per database type; an exception never replaces the connection, and only a reachable server yields a new one |
| DatabaseDriver.SqliteAssignment | src/consad/database_driver.py:38-55 | the SQLite branch: None raises FileNotFoundError and a dictionary without `database` raises SyntaxError; otherwise the source is recorded, and a database that is neither a string nor a path raises AttributeError, an existing file that is not SQLite is not opened, and any other path is connected to, or raises OperationalError when the connection fails |
| DatabaseDriver.MariaDbAssignment | src/consad/database_driver.py:56-76 | the MariaDB branch: a string is split, checked and counted, a dictionary needs the five keys, and the source is never recorded |
| DatabaseDriver.Connect | src/consad/database_driver.py:107-120 | a failed attempt keeps the previous connection, and a new connection needs a reachable server and raises nothing |
| DatabaseDriver.SqliteNeverOpensForeignFile | src/consad/database_driver.py:51-55 | a new connection is always to the path recorded as the source, and when that path is an existing file, the file passed the header check |
| DatabaseDriver.SqliteSourceRules | src/consad/database_driver.py:38-55 | for SQLite, None raises FileNotFoundError and a dictionary without `database` raises SyntaxError, both leaving the state unchanged; any other non-dictionary becomes `{database: parse_to_path(value)}`, and a string naming a file that does not exist yet is connected to when the connection succeeds |
| DatabaseDriver.MariaDbKeepsNoSource | src/consad/database_driver.py:56-76 | the MariaDB setter never stores a source, except None when it is given None |
| DatabaseDriver.MariaDbDictRules | src/consad/database_driver.py:68-74 | a MariaDB dictionary raises SyntaxError exactly when it lacks one of the five keys; with them and a reachable server, it connects with their values |
| DatabaseDriver.MariaDbStringRules | src/consad/database_driver.py:58-67 | a MariaDB string raises IndexError exactly when a piece lacks `=`; a count other than 5 changes nothing and raises nothing; a new connection implies a count of 5; with a count of 5 and all five keys, a reachable server is connected to with the parsed values and a refusing one leaves the previous connection |
| DatabaseDriver.OccurrencesAllRecognised | src/consad/database_driver.py:64-65 | the count is the number of pieces when every piece's key is recognised |
| DatabaseDriver.SegmentsOf | src/consad/database_driver.py:59-63 | the pieces of a string built from `key=value` pairs are those pairs |
| DatabaseDriver.CountedButIncomplete | src/consad/database_driver.py:66-67 | a count of 5 that lacks a key leads to KeyError when connecting |
| DatabaseDriver.RepeatedKeyPassesCount | src/consad/database_driver.py:61-66 | `username` twice with `password`, `server` and `port` counts 5, yet `database` is missing and the second username wins |
| DatabaseDriver.RepeatedKeyRaises | src/consad/database_driver.py:58-67 | that string makes the MariaDB setter raise KeyError, with no connection opened |
| DatabaseDriver.CompleteWithRepeatSkipped | src/consad/database_driver.py:64-67 | all five keys plus one repeat count 6, so nothing connects and nothing is raised |
| DatabaseDriver.RepeatedKeyExample | src/consad/database_driver.py:58-65 | any five values without `=` or `,` form such a string: pieces keyed `username`, `username`, `password`, `server`, `port`, in that order, each holding its value |
| ConfigReader.DriverFor | src/consad/config_reader.py:27-34 | `SQLITE` and `MARIADB` become their enum, a missing or None driver becomes NONE, and any other value is kept |
| ConfigReader.ConfigureApp | src/consad/config_reader.py:14-35 | the exception for each malformed input (no dict, dict config, non-dict sub-config, missing or non-path database); a sub-configuration raises exactly when it is SQLite and its database is missing or not a path or a string, and otherwise succeeds; on success, the driver converted, the top-level secret copied in when given (the sub-configuration's own kept when not), a SQLite database joined to the instance path, and every other entry unchanged |
| ConfigReader.ParseFlaskConfig | src/consad/config_reader.py:38-56 | None maps to None; otherwise it succeeds exactly when the sub-configuration holds the keys its backend needs, and then yields exactly that backend's Flask keys, with values copied |
| ConfigReader.FlaskKeysPerBackend | src/consad/config_reader.py:44-56 | SQLite yields exactly DRIVER, DATABASE and SECRET_KEY; NONE yields DRIVER and SECRET_KEY; MariaDB succeeds exactly when its five connection keys are present |
| Utils.IsLoggedIn | src/consad/utils.py:29-35 | the session holds a user id that is not None |
| Utils.PrepareConfig | src/consad/utils.py:48-70 | the skeleton's keys and values; the SQLite copy was taken before the MariaDB keys were added |
| Periods.EditableTrueSelectsNothing | src/consad/__init__.py:367-372 | `editable is True` adds contradictory window conditions, so no period is selected |
| Periods.NoEditableSelectsActive | src/consad/__init__.py:363-364 | without `editable`, exactly the active periods are selected |
| Periods.ListedPeriodsAreClosed | src/consad/__init__.py:230-238 | with unique ids, every period selected under a non-None `editable` is closed for submissions at that instant |
| Periods.FetchPeriods | src/consad/__init__.py:363-375 | the selected periods, each once, latest start first |
| Periods.BoundsOpenButNotEditable | src/consad/__init__.py:395-400 | at either bound of an active window, a submission is accepted but the period is flagged not editable |
| Periods.EditableIsOpen | src/consad/__init__.py:397 | an active period flagged editable is open for submissions |
| Periods.PeriodOpen | src/consad/__init__.py:230-238 | the submission gate: some period with the id is active and its window contains the database instant, both ends included |
| Periods.PeriodSelected | src/consad/__init__.py:363-373 | the WHERE clause of the period listing: active, plus the window conditions `editable` adds |
| Periods.Editable | src/consad/__init__.py:394-400 | the editable flag: the start is before the application instant and the end after it, both strictly |
| Periods.ConvertCell | src/consad/__init__.py:382-386 | datetime cells become their isoformat text standing for the same instant; other cells are kept |
| Periods.PeriodRows | src/consad/__init__.py:376-401 | each row holds the five converted columns, then the flag that says the start is before the application clock and the end after it |
| Rows.FormatCell | src/consad/__init__.py:303-310 | strings pass through; the price column has two decimals and denotes the price; other integers read back as themselves |
| Rows.FormatRow | src/consad/__init__.py:300-312 | a row is formatted cell by cell, with the position counted from 0 |
| Rows.FormatRows | src/consad/__init__.py:297-312 | the nested loop with its `cont` counter formats every row as `FormatRow` does |
| Rows.WholeQuantityText | src/consad/__init__.py:307-308 | a whole quantity outside the price column reads `q.0` |
| Requisitions.IntParam | src/consad/__init__.py:286-293 | the value a parameter matches in an INTEGER column; dictionaries, paths and enum values cannot be bound |
| Requisitions.TextParam | src/consad/__init__.py:326-333 | the value a parameter matches in a TEXT column; integers become text that reads back as them |
| Requisitions.Upsert | src/consad/__init__.py:254-266 | the key holds the new quantity and no other key changes; an update keeps the registration time and the comments, and an insert registers the database time with no comments |
| Requisitions.Found | src/consad/__init__.py:244-253 | the existence query finds the key when it is stored and joins with its material and its period |
| Requisitions.UpsertTwice | src/consad/__init__.py:260-266 | two submissions of one key, the second of which the existence check finds (its material is in the catalogue and its period exists), leave the second quantity and the first registration |
| Requisitions.UncataloguedSubmission | src/consad/__init__.py:244-266 | the first submission of a key whose material is not in the catalogue inserts it, yet the existence check does not find the stored row, so a second submission takes the insert path that collides with it, and no listing shows the key |
| Requisitions.RemoveMatching | src/consad/__init__.py:326-334 | exactly the keys of the zone, department and material are removed, in every period, and the other rows are unchanged |
| Requisitions.RemoveMatchingIdempotent | src/consad/__init__.py:326-334 | deleting twice is deleting once, and deleting a material with no entry changes nothing |
| Requisitions.ListedKeys | src/consad/__init__.py:279-290 | every listed key is stored and joins with a material; a None parameter lists nothing |
| Requisitions.RequisitionRow | src/consad/__init__.py:279-280 | the listing query returns six columns |
| Requisitions.SubmitThenList | src/consad/__init__.py:239-315 | after a submission of a key whose material is in the catalogue and whose period exists, the key is listed for its zone, department and period, with the material, the period, `q.0` and a price that parses back |
| Consad.FirstMatch | src/consad/__init__.py:78-89 | the first user with the token, or None when no user has it |
| Consad.SessionFor | src/consad/__init__.py:90-95 | login writes exactly the six session keys, and the session is then logged in |
| Consad.SessionWrites | src/consad/__init__.py:90-95 | the six assignments one after another leave the old session overridden by the six keys of the user row |
| Consad.LogoutRunPops | src/consad/__init__.py:64-70 | popping distinct keys in order stops at the first missing key with KeyError, having removed the keys before it, and redirects exactly when every key was present |
| Consad.LogoutFacts | src/consad/__init__.py:62-70 | for a valid session, the run of logout's six pops removes the popped prefix and redirects exactly when all six session keys are present |
| Consad.LogoutPops | src/consad/__init__.py:64-69 | the keys logout pops are the prefix of its order up to the first missing key |
| Consad.LogoutOutcomes | src/consad/__init__.py:64-69 | a full session loses all six keys; a session without a user id loses at most the user name |
| Consad.LoginThenLogout | src/consad/__init__.py:62-95 | login then logout leaves the prior session without the six keys, and logged out |
| Consad.App.constructor | src/consad/__init__.py:35-60 | a fresh application with an empty session, over a `periodo` table whose ids are unique as its primary key |
| Consad.App.Login | src/consad/__init__.py:72-97 | the response and the new session for each case: no connection, no token, unknown token, or known token |
| Consad.App.Logout | src/consad/__init__.py:62-70 | the six pops in their order, as `LogoutRun` describes them: the session loses the popped keys; the redirect happens exactly when all six keys were present, and KeyError otherwise |
| Consad.LogoutRun | src/consad/__init__.py:62-70 | the pops in order: the response is the redirect or KeyError, keys are only removed, and keys outside the order keep their values |
| Consad.App.Submit | src/consad/__init__.py:218-270 | the response for each validation or gate failure, each leaving the table unchanged; IntegrityError when the key is stored but its joins fail; otherwise success with the table upserted |
| Consad.App.Delete | src/consad/__init__.py:320-336 | the response for each failure; on success, the rows matching the session's zone and department and the body's material are removed |
| Consad.FetchRequisitions | src/consad/__init__.py:293-296 | the fetched rows are the listing rows of the selected keys: one row per key, each key once, in no particular order |
| Consad.EnumerateKeys | src/consad/__init__.py:295-296 | the cursor enumerates the selected keys: as many as there are, and exactly those |
| Consad.App.ListRequisitions | src/consad/__init__.py:296-317 | failure exactly when nothing is listed; otherwise the headings and one formatted row per listed key |
| Consad.App.SolicitudesData | src/consad/__init__.py:272-318 | the exception for each malformed body; with a logged-in session, a connection and three bindable filters, always the listing or failure, the listing being that of the zone, department and period the body names |
| Consad.App.ListPeriods | src/consad/__init__.py:374-406 | failure exactly when nothing is selected; otherwise rows that list the selection: each selected period exactly once, latest start first, each row holding the period's id, description, start, end and active flag as returned, then the editable flag from the application clock |
| Periods.FetchedRowsListSelection | src/consad/__init__.py:374-403 | rows built in order from the fetched periods list the selection: an enumeration of the selected periods, each once, latest start first, one row per period |
| Periods.ListedOnce | src/consad/__init__.py:374-403 | in a listing of the selection no row repeats and every selected period has its row, so each selected period is listed exactly once |
| Periods.ListsOnePeriod | src/consad/__init__.py:376-401 | a returned row stands for a single period: its cells determine every column of the period |
| Periods.SelectedRowsClosed | src/consad/__init__.py:230-238 | with `editable` given and unique period ids, the id of every listed row names a period the submission gate rejects at the query's instant |
| Periods.SelectedRowsNotEditable | src/consad/__init__.py:367-369 | with `editable` given and one clock, every listed row is flagged not editable, since the filter keeps only windows that miss the instant |
| Periods.AppendLatest | src/consad/__init__.py:373 | appending a new period that starts no later than those before keeps the rows latest first and free of repeats |
| Consad.App.PeriodoGet | src/consad/__init__.py:357-407 | the filter from `editable` against the database clock; `editable: true` answers failure; with `editable` given, no listed id takes a submission at the query's instant, and with one clock no row is flagged editable |

## Left out

- Flask itself is not modelled: routing, templates, `url_for`, error handlers, `create_app`'s instance directory and the CLI commands. The handlers are methods that return a `Response`.
- The catalogue and page routes (`home`, `captura_solicitud`, the material, zone, department and period viewers) are left out: they only render templates over a query.
- SQL text and the database engines are not modelled. Each query is modelled by the rows it returns, over tables held as values, and the driver calls by a `connected` flag (handlers) or a `canConnect` input (driver).
- The file system, `open` and `json.load` are not modelled: files are an input map, and the configuration is an already parsed `Val`.
- Path resolution and normalisation are not modelled: `joinpath` is a `Joined` path, and an absolute second part is not special-cased.
- Floats are not modelled in general. Quantities and prices are held in hundredths, so exponent notation and amounts that are not whole hundredths are left out.
- Datetimes are instants on one integer scale. The text of `isoformat` is abstract, and `fromisoformat` reads it back.
- Consad.App.PeriodoGet: `datetime.now()` is read once per call rather than once per row.
- Text.ParseInt: `int()` is modelled for ASCII digits with an optional sign and surrounding ASCII whitespace. Underscores, non-ASCII digits, non-ASCII whitespace (such as a no-break space) and the separator characters U+001C to U+001F, which Python also strips, are not accepted.
- Requisitions.IntParam: SQLite's comparison affinity is approximated. Text is compared as an integer exactly when `int()` reads it, so forms such as `"3.0"` or hexadecimal are not matched as numbers.
- Consad.App.Submit: the same approximation applies to the form's `periodo`, which is read with `int()`: a value such as `"3.0"`, which SQLite's INTEGER affinity would match to period 3, answers failure in the model.
- Requisitions.ListedKeys: every zone and department join is taken to succeed. Periods and materials are joined.
- Consad.App.Submit: foreign keys are not enforced, as in SQLite's default, so a submission of an unknown material is inserted. Zone and department joins are taken to succeed.
- Consad.App.Login: `cur.arraysize == 1` is taken to hold, since it is the cursor's default.
- Consad.FetchRequisitions: the listing has no ORDER BY. The model returns the rows in some order, and the order is not specified further.
- Periods.FetchPeriods: periods with the same start come in no particular order.
- A driver is built for each request. Its constructor's exceptions, and a connection that is None, are both summarised by the `connected` flag.
- DatabaseDriver.Driver.SetDataSource: the caller's dictionary is replaced in place in the source, but that aliasing is not modelled, because values are immutable.
- Utils.PrepareConfig: `copy()` is a value copy.
- Concurrent requests and the commit of a transaction are not modelled.
- The binding error for a dictionary parameter differs between Python versions (InterfaceError or ProgrammingError). The model uses ProgrammingError.
