/**
 * Requisition periods: the window test that gates a submission, the filter
 * `periodo/get` composes from its `editable` argument, the "editable" flag
 * it adds to every row, and the rows it builds.  Timestamps are integers
 * on one time scale; the database clock (`CURRENT_TIMESTAMP`) and the
 * application clock (`datetime.now()`) are separate inputs.
 */
module Periods {
  import opened Common

  /** A row of the `periodo` table. */
  datatype Period = Period(id: int, descripcion: string, inicio: int, fin: int, activo: bool)

  /**
   * A cell of a fetched or returned period row: an integer, a text, a
   * datetime object, a timestamp held as text by the database, the
   * `isoformat()` text of a datetime, or a boolean.
   */
  datatype PeriodCell =
    | PInt(i: int)
    | PText(s: string)
    | PTime(t: int)
    | PTimeText(t: int)
    | PIso(t: int)
    | PBool(b: bool)

  /**
   * The query of the submission handler: a period with the given id that
   * is active and whose window contains `now`, both ends included.
   */
  predicate PeriodOpen(periods: seq<Period>, id: int, now: int)
  {
    exists i :: 0 <= i < |periods| && periods[i].id == id && periods[i].activo
                && periods[i].inicio <= now && periods[i].fin >= now
  }

  /**
   * The WHERE clause `periodo_get` composes: always active; any non-None
   * `editable` keeps only periods whose window does not contain `now`, and
   * `editable is True` additionally keeps only those whose window does.
   */
  predicate PeriodSelected(p: Period, editable: Val, now: int)
  {
    && p.activo
    && (editable != VNone ==> p.inicio > now || p.fin < now)
    && (editable == VBool(true) ==> p.inicio <= now && p.fin >= now)
  }

  /** The periods the query selects, as a set: the query imposes no other order than by start. */
  function Selection(periods: seq<Period>, editable: Val, now: int): set<Period>
  {
    set p | p in periods && PeriodSelected(p, editable, now)
  }

  /** `editable is True` selects no period at all. */
  lemma EditableTrueSelectsNothing(periods: seq<Period>, now: int)
    ensures Selection(periods, VBool(true), now) == {}
  {
    forall p | p in periods ensures !PeriodSelected(p, VBool(true), now) {
    }
  }

  /** Without `editable`, the selection is exactly the active periods. */
  lemma NoEditableSelectsActive(periods: seq<Period>, now: int)
    ensures forall p :: p in Selection(periods, VNone, now) <==> p in periods && p.activo
  {
  }

  /** `id_periodo` is the primary key of `periodo`: no two rows share an id. */
  predicate UniqueIds(periods: seq<Period>)
  {
    forall i, j :: 0 <= i < |periods| && 0 <= j < |periods| && periods[i].id == periods[j].id ==> i == j
  }

  /**
   * Every period `periodo_get` lists for a non-None `editable` is closed
   * for submissions at that instant: a submission against its id fails
   * when ids are unique.
   */
  lemma ListedPeriodsAreClosed(periods: seq<Period>, editable: Val, now: int, p: Period)
    requires editable != VNone && p in Selection(periods, editable, now)
    requires UniqueIds(periods)
    ensures !PeriodOpen(periods, p.id, now)
  {
    var k :| 0 <= k < |periods| && periods[k] == p;
    forall i | 0 <= i < |periods| && periods[i].id == p.id
      ensures !(periods[i].inicio <= now && periods[i].fin >= now)
    {
      assert periods[i] == periods[k];
    }
  }

  /** A period whose start is the latest in a non-empty set. */
  lemma LatestStartExists(s: set<Period>) returns (p: Period)
    requires s != {}
    ensures p in s && forall q :: q in s ==> q.inicio <= p.inicio
    decreases |s|
  {
    var x :| x in s;
    if s == {x} {
      p := x;
    } else {
      var rest := LatestStartExists(s - {x});
      p := if x.inicio >= rest.inicio then x else rest;
    }
  }

  /** Ordered by start, latest first. */
  predicate LatestFirst(ps: seq<Period>)
  {
    forall i, j :: 0 <= i < j < |ps| ==> ps[i].inicio >= ps[j].inicio
  }

  /** A period appended after those starting no earlier keeps the order, and a new one keeps the sequence free of repeats. */
  lemma AppendLatest(ps: seq<Period>, p: Period)
    requires LatestFirst(ps) && forall q :: q in ps ==> q.inicio >= p.inicio
    requires forall i, j :: 0 <= i < j < |ps| ==> ps[i] != ps[j]
    requires p !in ps
    ensures LatestFirst(ps + [p])
    ensures forall i, j :: 0 <= i < j < |ps + [p]| ==> (ps + [p])[i] != (ps + [p])[j]
  {
    var qs := ps + [p];
    forall i, j | 0 <= i < j < |qs| ensures qs[i].inicio >= qs[j].inicio && qs[i] != qs[j] {
      assert qs[i] == ps[i] && qs[i] in ps;
    }
  }

  /**
   * The cursor of `periodo_get`: the selected periods, each once, latest
   * start first (`ORDER BY fecha_inicio DESC`); periods starting together
   * come in no particular order.
   */
  method FetchPeriods(periods: seq<Period>, editable: Val, now: int) returns (fetched: seq<Period>)
    ensures LatestFirst(fetched)
    ensures forall p :: p in fetched <==> p in periods && PeriodSelected(p, editable, now)
    ensures forall i, j :: 0 <= i < j < |fetched| ==> fetched[i] != fetched[j]
  {
    var remaining := Selection(periods, editable, now);
    ghost var selection := remaining;
    fetched := [];
    while remaining != {}
      invariant remaining <= selection
      invariant forall p :: p in fetched ==> p !in remaining
      invariant forall p :: p in selection <==> p in fetched || p in remaining
      invariant forall p, q :: p in fetched && q in remaining ==> p.inicio >= q.inicio
      invariant LatestFirst(fetched)
      invariant forall i, j :: 0 <= i < j < |fetched| ==> fetched[i] != fetched[j]
      decreases |remaining|
    {
      ghost var latest := LatestStartExists(remaining);
      var p :| p in remaining && forall q :: q in remaining ==> q.inicio <= p.inicio;
      AppendLatest(fetched, p);
      fetched := fetched + [p];
      remaining := remaining - {p};
    }
  }

  /** The editable flag: the window strictly contains the instant. */
  predicate Editable(p: Period, now: int)
  {
    p.inicio < now < p.fin
  }

  /**
   * The window of a submission includes both ends, the editable flag
   * excludes them: at the first and at the last instant of an active
   * period a submission is accepted while the period reads as not editable.
   */
  lemma BoundsOpenButNotEditable(periods: seq<Period>, i: nat, now: int)
    requires i < |periods| && periods[i].activo && periods[i].inicio <= periods[i].fin
    requires now == periods[i].inicio || now == periods[i].fin
    ensures PeriodOpen(periods, periods[i].id, now)
    ensures !Editable(periods[i], now)
  {
  }

  /** Within the bounds, an editable active period is open for submissions. */
  lemma EditableIsOpen(periods: seq<Period>, i: nat, now: int)
    requires i < |periods| && periods[i].activo && Editable(periods[i], now)
    ensures PeriodOpen(periods, periods[i].id, now)
  {
  }

  /** A timestamp as `periodo_get` returns it: the database's own text, or the `isoformat()` text of a datetime. */
  function Stamp(t: int, asText: bool): PeriodCell
  {
    if asText then PTimeText(t) else PIso(t)
  }

  /**
   * A returned row stands for period `p`: its id, description, start, end
   * and active flag as returned, then its editable flag.
   */
  predicate ListsPeriod(row: seq<PeriodCell>, p: Period, asText: bool, now: int)
  {
    && |row| == 6
    && row[0] == PInt(p.id)
    && row[1] == PText(p.descripcion)
    && row[2] == Stamp(p.inicio, asText)
    && row[3] == Stamp(p.fin, asText)
    && row[4] == PInt(if p.activo then 1 else 0)
    && row[5] == PBool(Editable(p, now))
  }

  /** A row stands for one period only. */
  lemma ListsOnePeriod(row: seq<PeriodCell>, p: Period, q: Period, asText: bool, now: int)
    requires ListsPeriod(row, p, asText, now) && ListsPeriod(row, q, asText, now)
    ensures p == q
  {
    assert p.inicio == q.inicio && p.fin == q.fin && p.activo == q.activo;
  }

  /** A sequence that holds exactly the elements of a set, each once. */
  ghost predicate Enumerates(ps: seq<Period>, selection: set<Period>)
  {
    && (forall p :: p in ps <==> p in selection)
    && (forall i, j :: 0 <= i < j < |ps| ==> ps[i] != ps[j])
  }

  /**
   * The rows `periodo_get` returns list the selection: they stand, in
   * order, for an enumeration of the selected periods, each once, latest
   * start first.
   */
  ghost predicate ListsSelection(rows: seq<seq<PeriodCell>>, selection: set<Period>, asText: bool, now: int)
  {
    && |rows| == |selection|
    && (forall i :: 0 <= i < |rows| ==> |rows[i]| == 6)
    && exists ps: seq<Period> ::
         && Enumerates(ps, selection)
         && LatestFirst(ps)
         && |ps| == |rows|
         && (forall i :: 0 <= i < |rows| ==> ListsPeriod(rows[i], ps[i], asText, now))
  }

  /**
   * Listed rows never repeat, and every selected period has its row:
   * each selected period is listed exactly once.
   */
  lemma ListedOnce(rows: seq<seq<PeriodCell>>, selection: set<Period>, asText: bool, now: int)
    requires ListsSelection(rows, selection, asText, now)
    ensures forall i, j :: 0 <= i < j < |rows| ==> rows[i] != rows[j]
    ensures forall p :: p in selection ==> exists i :: 0 <= i < |rows| && ListsPeriod(rows[i], p, asText, now)
  {
    var ps :| Enumerates(ps, selection) && |ps| == |rows|
              && forall i :: 0 <= i < |rows| ==> ListsPeriod(rows[i], ps[i], asText, now);
    forall i, j | 0 <= i < j < |rows| ensures rows[i] != rows[j] {
      if rows[i] == rows[j] {
        ListsOnePeriod(rows[i], ps[i], ps[j], asText, now);
      }
    }
    forall p | p in selection
      ensures exists i :: 0 <= i < |rows| && ListsPeriod(rows[i], p, asText, now)
    {
      var i :| 0 <= i < |ps| && ps[i] == p;
      assert ListsPeriod(rows[i], ps[i], asText, now);
    }
  }

  /** Rows that stand, in order, for the fetched periods list the selection the cursor enumerates. */
  lemma FetchedRowsListSelection(fetched: seq<Period>, rows: seq<seq<PeriodCell>>, selection: set<Period>,
                                 asText: bool, now: int)
    requires forall p :: p in fetched <==> p in selection
    requires forall i, j :: 0 <= i < j < |fetched| ==> fetched[i] != fetched[j]
    requires LatestFirst(fetched)
    requires |rows| == |fetched|
    requires forall i :: 0 <= i < |rows| ==> ListsPeriod(rows[i], fetched[i], asText, now)
    ensures ListsSelection(rows, selection, asText, now)
  {
    DistinctEnumeration(fetched, selection);
    assert Enumerates(fetched, selection);
  }

  /** Every row is flagged not editable. */
  predicate NoneEditable(rows: seq<seq<PeriodCell>>)
  {
    forall i :: 0 <= i < |rows| ==> |rows[i]| == 6 && rows[i][5] == PBool(false)
  }

  /** The id of every row names a period that takes no submission at instant `now`. */
  predicate ClosedIds(rows: seq<seq<PeriodCell>>, periods: seq<Period>, now: int)
  {
    forall i :: 0 <= i < |rows| ==> |rows[i]| == 6 && rows[i][0].PInt? && !PeriodOpen(periods, rows[i][0].i, now)
  }

  /**
   * With `editable` given and one clock for the query and the flag, every
   * listed period reads as not editable: the query keeps only periods whose
   * window misses the instant.
   */
  lemma SelectedRowsNotEditable(rows: seq<seq<PeriodCell>>, periods: seq<Period>, editable: Val, asText: bool, now: int)
    requires editable != VNone
    requires ListsSelection(rows, Selection(periods, editable, now), asText, now)
    ensures NoneEditable(rows)
  {
    forall i | 0 <= i < |rows| ensures |rows[i]| == 6 && rows[i][5] == PBool(false) {
      var ps :| Enumerates(ps, Selection(periods, editable, now)) && |ps| == |rows|
                && forall k :: 0 <= k < |rows| ==> ListsPeriod(rows[k], ps[k], asText, now);
      assert ps[i] in Selection(periods, editable, now) && ListsPeriod(rows[i], ps[i], asText, now);
      assert PeriodSelected(ps[i], editable, now);
    }
  }

  /**
   * With `editable` given and unique period ids, no listed id can take a
   * submission at the instant of the query, whatever clock the flags were
   * computed against.
   */
  lemma SelectedRowsClosed(rows: seq<seq<PeriodCell>>, periods: seq<Period>, editable: Val, asText: bool,
                           queryNow: int, flagNow: int)
    requires editable != VNone && UniqueIds(periods)
    requires ListsSelection(rows, Selection(periods, editable, queryNow), asText, flagNow)
    ensures ClosedIds(rows, periods, queryNow)
  {
    forall i | 0 <= i < |rows|
      ensures |rows[i]| == 6 && rows[i][0].PInt? && !PeriodOpen(periods, rows[i][0].i, queryNow)
    {
      var ps :| Enumerates(ps, Selection(periods, editable, queryNow)) && |ps| == |rows|
                && forall k :: 0 <= k < |rows| ==> ListsPeriod(rows[k], ps[k], asText, flagNow);
      assert ps[i] in Selection(periods, editable, queryNow) && ListsPeriod(rows[i], ps[i], asText, flagNow);
      ListedPeriodsAreClosed(periods, editable, queryNow, ps[i]);
    }
  }

  /** A sequence that lists the elements of a set, each once, is as long as the set is large. */
  lemma DistinctEnumeration<T>(xs: seq<T>, s: set<T>)
    requires forall i, j :: 0 <= i < j < |xs| ==> xs[i] != xs[j]
    requires forall x :: x in xs <==> x in s
    ensures |xs| == |s|
  {
    assert (set x | x in xs) == s;
    DistinctCount(xs);
  }

  /** A sequence without repeated elements is as long as its set of elements. */
  lemma {:induction false} DistinctCount<T>(s: seq<T>)
    requires forall i, j :: 0 <= i < j < |s| ==> s[i] != s[j]
    ensures |set x | x in s| == |s|
  {
    if |s| > 0 {
      var init := s[..|s| - 1];
      DistinctCount(init);
      assert (set x | x in s) == (set x | x in init) + {s[|s| - 1]};
      assert s[|s| - 1] !in init;
    }
  }

  /** The row the cursor returns for a period; `asText` when the database returns timestamps as text. */
  function PeriodRecord(p: Period, asText: bool): (row: seq<PeriodCell>)
    ensures |row| == 5
  {
    var time := (t: int) => if asText then PTimeText(t) else PTime(t);
    [PInt(p.id), PText(p.descripcion), time(p.inicio), time(p.fin), PInt(if p.activo then 1 else 0)]
  }

  /**
   * A datetime cell becomes its `isoformat()` text, `PIso(t)` being the
   * text of instant `t`; every other cell is kept.
   */
  function ConvertCell(c: PeriodCell): (r: PeriodCell)
    ensures !c.PTime? ==> r == c
    ensures c.PTime? ==> r.PIso? && r.t == c.t
  {
    if c.PTime? then PIso(c.t) else c
  }

  /** The instant a converted timestamp cell stands for: `fromisoformat` for text, the value itself otherwise. */
  function TimeOf(c: PeriodCell): int
    requires c.PTime? || c.PTimeText? || c.PIso?
  {
    match c
    case PTimeText(t) => t
    case PIso(t) => t
    case PTime(t) => t
  }

  /**
   * The row loop of `periodo_get`: every cell is converted, then the start
   * and the end are read back from the third- and second-to-last cells and
   * compared with the application clock.
   */
  method PeriodRows(fetched: seq<Period>, asText: bool, appNow: int) returns (data: seq<seq<PeriodCell>>)
    ensures |data| == |fetched|
    ensures forall i :: 0 <= i < |data| ==>
      && |data[i]| == 6
      && data[i][0] == PInt(fetched[i].id) && data[i][1] == PText(fetched[i].descripcion)
      && data[i][2] == Stamp(fetched[i].inicio, asText)
      && data[i][3] == Stamp(fetched[i].fin, asText)
      && data[i][4] == PInt(if fetched[i].activo then 1 else 0)
      && data[i][5] == PBool(Editable(fetched[i], appNow))
  {
    data := [];
    for n := 0 to |fetched|
      invariant |data| == n
      invariant forall i :: 0 <= i < n ==>
        && |data[i]| == 6
        && data[i][..5] == seq(5, k requires 0 <= k < 5 => ConvertCell(PeriodRecord(fetched[i], asText)[k]))
        && data[i][5] == PBool(Editable(fetched[i], appNow))
    {
      var row := PeriodRecord(fetched[n], asText);
      var tempRow: seq<PeriodCell> := [];
      for k := 0 to |row|
        invariant tempRow == seq(k, j requires 0 <= j < k => ConvertCell(row[j]))
      {
        tempRow := tempRow + [ConvertCell(row[k])];
      }
      var fechaIni := TimeOf(tempRow[|tempRow| - 3]);
      var fechaFin := TimeOf(tempRow[|tempRow| - 2]);
      var lapseIni := fechaFin - appNow;
      var lapseFinal := fechaIni - appNow;
      var editable := lapseFinal < 0 && lapseIni > 0;
      data := data + [tempRow + [PBool(editable)]];
    }
  }
}
