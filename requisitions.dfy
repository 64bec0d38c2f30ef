/**
 * The `solicitudes` table as a map keyed by its composite primary key
 * (material, zone, department, period), the reference tables it joins
 * with, and the table operations the request handlers perform: the
 * insert-or-update of a submission, the scoped delete and the listing
 * query.  Quantities and prices are held in hundredths.
 */
module Requisitions {
  import opened Common
  import opened Text
  import opened Periods
  import opened Rows

  /** The primary key of a requisition. */
  datatype Key = Key(material: string, zona: int, depto: int, periodo: int)

  /** The other columns: the quantity, when it was registered, and the comments. */
  datatype Requisition = Requisition(cantidad: int, registered: int, comentarios: Option<string>)

  /** The columns of a material that the listing reads. */
  datatype Material = Material(descripcion: string, unidad: string, precio: int)

  type Table = map<Key, Requisition>

  /**
   * The value a parameter compares equal to in an INTEGER column: integers
   * and booleans as numbers, text that reads as an integer as that integer,
   * and None (NULL), which equals nothing.  Other text is compared as text
   * and equals no integer.  A dictionary cannot be bound.
   */
  function IntParam(v: Val): (r: Result<Option<int>>)
    ensures r.Raise? <==> v.VDict? || v.VPath? || v.VType?
    ensures r.Raise? ==> r.exc == ProgrammingError
    ensures v.VInt? ==> r == Ok(Some(v.i))
    ensures v.VStr? ==> r == Ok(ParseInt(v.s))
    ensures v == VNone ==> r == Ok(None)
  {
    match v
    case VNone => Ok(None)
    case VBool(b) => Ok(Some(if b then 1 else 0))
    case VInt(i) => Ok(Some(i))
    case VStr(s) => Ok(ParseInt(s))
    case _ => Raise(ProgrammingError)
  }

  /**
   * The value a parameter compares equal to in a TEXT column: text as
   * itself, numbers as their decimal text, None as NULL.
   */
  function TextParam(v: Val): (r: Result<Option<string>>)
    ensures r.Raise? <==> v.VDict? || v.VPath? || v.VType?
    ensures v.VStr? ==> r == Ok(Some(v.s))
    ensures v.VInt? ==> r.Ok? && r.value.Some? && ParseInt(r.value.value) == Some(v.i)
    ensures v == VNone ==> r == Ok(None)
  {
    match v
    case VNone => Ok(None)
    case VBool(b) => Ok(Some(if b then "1" else "0"))
    case VInt(i) => ParseIntRoundTrip(i); Ok(Some(IntToString(i)))
    case VStr(s) => Ok(Some(s))
    case _ => Raise(ProgrammingError)
  }

  /** Some period has this id: the inner join with `periodo` finds a row. */
  predicate PeriodExists(periods: seq<Period>, id: int)
  {
    exists i :: 0 <= i < |periods| && periods[i].id == id
  }

  /**
   * Whether the existence check of a submission finds the key: the key is
   * stored and the rows it joins with exist (zones and departments are
   * taken to exist).
   */
  predicate Found(t: Table, materials: map<string, Material>, periods: seq<Period>, k: Key)
  {
    k in t && k.material in materials && PeriodExists(periods, k.periodo)
  }

  /**
   * The write of a submission: an UPDATE of the quantity when the existence
   * check found the key, an INSERT of a fresh row otherwise (the insert
   * registers the database time and no comments).
   */
  function Upsert(t: Table, k: Key, cantidad: int, now: int, found: bool): (r: Table)
    requires found ==> k in t
    ensures k in r && r[k].cantidad == cantidad
    ensures r.Keys == t.Keys + {k}
    ensures forall k' :: k' in t && k' != k ==> r[k'] == t[k']
    ensures found ==> r[k].registered == t[k].registered && r[k].comentarios == t[k].comentarios
    ensures !found ==> r[k] == Requisition(cantidad, now, None)
  {
    if found then t[k := t[k].(cantidad := cantidad)]
    else t[k := Requisition(cantidad, now, None)]
  }

  /**
   * Submitting the same key twice leaves one entry with the second
   * quantity; the registration time and the comments are those of the
   * first write.
   */
  lemma UpsertTwice(t: Table, k: Key, q1: int, q2: int, now1: int, now2: int, found1: bool)
    requires found1 ==> k in t
    ensures Upsert(Upsert(t, k, q1, now1, found1), k, q2, now2, true) == Upsert(t, k, q2, now1, found1)
  {
    var once := Upsert(t, k, q1, now1, found1);
    var twice := Upsert(once, k, q2, now2, true);
    var direct := Upsert(t, k, q2, now1, found1);
    assert twice.Keys == direct.Keys;
    assert twice[k] == direct[k];
  }

  /**
   * The first submission of a key whose material is not in the catalogue:
   * the insert goes through, but the stored row never joins, so the
   * existence check of a later submission of that key does not find it
   * (the insert it then attempts collides with the primary key), and no
   * listing shows it.
   */
  lemma UncataloguedSubmission(t: Table, materials: map<string, Material>, periods: seq<Period>,
                               k: Key, q: int, now: int)
    requires k !in t && k.material !in materials
    ensures var t' := Upsert(t, k, q, now, Found(t, materials, periods, k));
      && t' == t[k := Requisition(q, now, None)]
      && k in t' && !Found(t', materials, periods, k)
      && forall zona, depto, periodo :: k !in ListedKeys(t', materials, periods, zona, depto, periodo)
  {
  }

  /** Whether a key is one the delete matches: the zone, the department and the material. */
  predicate DeleteMatches(k: Key, zona: int, depto: int, material: string)
  {
    k.zona == zona && k.depto == depto && k.material == material
  }

  /** The DELETE of `solicitudes/delete`: every matching key, in every period. */
  function RemoveMatching(t: Table, zona: int, depto: int, material: string): (r: Table)
    ensures forall k :: k in r <==> k in t && !DeleteMatches(k, zona, depto, material)
    ensures forall k :: k in r ==> r[k] == t[k]
  {
    map k | k in t && !DeleteMatches(k, zona, depto, material) :: t[k]
  }

  /** Deleting is idempotent, and deleting a material with no entry changes nothing. */
  lemma RemoveMatchingIdempotent(t: Table, zona: int, depto: int, material: string)
    ensures RemoveMatching(RemoveMatching(t, zona, depto, material), zona, depto, material)
            == RemoveMatching(t, zona, depto, material)
    ensures (forall k :: k in t ==> !DeleteMatches(k, zona, depto, material)) ==>
            RemoveMatching(t, zona, depto, material) == t
  {
    var once := RemoveMatching(t, zona, depto, material);
    assert RemoveMatching(once, zona, depto, material).Keys == once.Keys;
    if forall k :: k in t ==> !DeleteMatches(k, zona, depto, material) {
      assert once.Keys == t.Keys;
    }
  }

  /**
   * The keys the listing query returns for the zone, department and period
   * parameters: the inner joins with `materiales` and `periodo` drop rows
   * whose material or period is missing, and a NULL parameter equals nothing.
   */
  function ListedKeys(t: Table, materials: map<string, Material>, periods: seq<Period>,
                      zona: Option<int>, depto: Option<int>, periodo: Option<int>): (r: set<Key>)
    ensures forall k :: k in r ==> k in t && k.material in materials
    // a None parameter binds NULL, which equals nothing
    ensures zona.None? || depto.None? || periodo.None? ==> r == {}
  {
    set k | k in t && Some(k.zona) == zona && Some(k.depto) == depto && Some(k.periodo) == periodo
                   && k.material in materials && PeriodExists(periods, k.periodo)
  }

  /** The row the listing query returns for a key: id, period, description, quantity, unit and price. */
  function RequisitionRow(k: Key, r: Requisition, m: Material): (row: seq<SqlValue>)
    ensures |row| == 6
  {
    [SqlText(k.material), SqlInt(k.periodo), SqlText(m.descripcion), SqlReal(r.cantidad),
     SqlText(m.unidad), SqlReal(m.precio)]
  }

  /**
   * A submission followed by the listing of its zone, department and
   * period: the key is listed, and its formatted row shows the material, the
   * period, the quantity with one decimal and the price with two.
   */
  lemma SubmitThenList(t: Table, materials: map<string, Material>, periods: seq<Period>,
                       k: Key, q: int, now: int, found: bool)
    requires found ==> k in t
    requires k.material in materials && PeriodExists(periods, k.periodo)
    ensures var t' := Upsert(t, k, q * 100, now, found);
      && k in ListedKeys(t', materials, periods, Some(k.zona), Some(k.depto), Some(k.periodo))
      && var row := FormatRow(RequisitionRow(k, t'[k], materials[k.material]));
         && row[0] == k.material
         && row[1] == IntToString(k.periodo)
         && row[3] == IntToString(q) + ".0"
         && ParseInt(Without(Without(row[5], ','), '.')) == Some(materials[k.material].precio)
  {
    var t' := Upsert(t, k, q * 100, now, found);
    assert k in ListedKeys(t', materials, periods, Some(k.zona), Some(k.depto), Some(k.periodo));
    var cells := RequisitionRow(k, t'[k], materials[k.material]);
    var row := FormatRow(cells);
    assert cells[3] == SqlReal(q * 100) && row[3] == FormatCell(cells[3], 3);
    WholeQuantityText(q, 3);
    assert row[5] == FormatCell(SqlReal(materials[k.material].precio), 5);
  }
}
