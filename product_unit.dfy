/**
 * The `product_units` table and the conversions of the ProductUnit model.
 *
 * A row says that one of unit `unitId` of product `productId` equals
 * `quantity` of the product's base unit (1 funda = 8 bizcochos stores 8).
 * The table is a sequence of rows in insertion order; the unique index on
 * (product_id, unit_id) is the invariant `DistinctUnits` of each product's rows.
 */
module ProductUnits {
  import opened Common

  type ProductId = nat
  type UnitId = nat

  datatype ProductUnit = ProductUnit(
    productId: ProductId,
    unitId: UnitId,
    quantity: real,
    isBaseUnit: bool,
    isSalesUnit: bool,
    isPurchaseUnit: bool,
    priceModifier: Option<real>)

  /** `toBaseUnit`: how many base units `q` of this row's unit make. */
  function ToBaseUnit(row: ProductUnit, q: real): real {
    q * row.quantity
  }

  /** `fromBaseUnit`: how many of this row's unit `b` base units make; the inverse of ToBaseUnit. */
  function FromBaseUnit(row: ProductUnit, b: real): (q: real)
    requires row.quantity != 0.0
    ensures ToBaseUnit(row, q) == b
  {
    b / row.quantity
  }

  lemma FromToBaseRoundTrip(row: ProductUnit, q: real)
    requires row.quantity != 0.0
    ensures FromBaseUnit(row, ToBaseUnit(row, q)) == q
  {
  }

  /** `findAll({ where: { product_id } })`: the rows of product `p`, in table order. */
  function RowsOf(table: seq<ProductUnit>, p: ProductId): (r: seq<ProductUnit>)
    ensures forall k :: 0 <= k < |r| ==> r[k].productId == p && r[k] in table
    ensures forall k :: 0 <= k < |table| && table[k].productId == p ==> table[k] in r
    ensures |r| <= |table|
  {
    if table == [] then []
    else if table[0].productId == p then [table[0]] + RowsOf(table[1..], p)
    else RowsOf(table[1..], p)
  }

  /** The table has a row for unit `u` of product `p`. */
  predicate HasRow(table: seq<ProductUnit>, p: ProductId, u: UnitId) {
    exists k :: 0 <= k < |table| && table[k].productId == p && table[k].unitId == u
  }

  /** The first of `rows` for unit `u`. */
  function FindUnit(rows: seq<ProductUnit>, u: UnitId): (r: Option<ProductUnit>)
    ensures r.Some? ==> r.value in rows && r.value.unitId == u
    ensures r.None? <==> forall k :: 0 <= k < |rows| ==> rows[k].unitId != u
  {
    if rows == [] then None
    else if rows[0].unitId == u then Some(rows[0])
    else FindUnit(rows[1..], u)
  }

  /** `findOne({ where: { product_id, unit_id } })`. */
  function Lookup(table: seq<ProductUnit>, p: ProductId, u: UnitId): (r: Option<ProductUnit>)
    ensures r.Some? ==> r.value in table && r.value in RowsOf(table, p)
    ensures r.Some? ==> r.value.productId == p && r.value.unitId == u
    ensures r.None? <==> !HasRow(table, p, u)
  {
    FindUnit(RowsOf(table, p), u)
  }

  /** No two rows of one product share a unit: the unique index (product_id, unit_id). */
  predicate DistinctUnits(rows: seq<ProductUnit>) {
    forall i, j :: 0 <= i < j < |rows| ==> rows[i].unitId != rows[j].unitId
  }

  predicate NonZeroRatios(rows: seq<ProductUnit>) {
    forall k :: 0 <= k < |rows| ==> rows[k].quantity != 0.0
  }

  /** Conversion into unit `u` of product `p` divides by a non-zero ratio. */
  predicate RatioUsable(table: seq<ProductUnit>, p: ProductId, u: UnitId) {
    Lookup(table, p, u).Some? ==> Lookup(table, p, u).value.quantity != 0.0
  }

  /** Why a conversion finds no value: the configuration for one of the two units is missing. */
  datatype ConversionError = ConfigurationNotFound

  /**
   * `convertBetweenUnits`: the same amount of product expressed in unit `to`.
   * The same unit on both sides gives `q` back without any lookup; otherwise
   * both rows must exist, and `q` of `from` and the result of `to` make the
   * same number of base units.
   */
  function ConvertBetweenUnits(table: seq<ProductUnit>, p: ProductId, q: real, from: UnitId, to: UnitId)
    : (r: Result<real, ConversionError>)
    requires RatioUsable(table, p, to)
    ensures r.Ok? || r.NotFound?
    ensures from == to ==> r == Ok(q)
    ensures from != to ==> (r.Ok? <==> HasRow(table, p, from) && HasRow(table, p, to))
    ensures from != to && r.Ok? ==>
      ToBaseUnit(Lookup(table, p, to).value, r.value) == ToBaseUnit(Lookup(table, p, from).value, q)
  {
    if from == to then Ok(q)
    else
      match (Lookup(table, p, from), Lookup(table, p, to))
      case (Some(fromRow), Some(toRow)) => Ok(FromBaseUnit(toRow, ToBaseUnit(fromRow, q)))
      case _ => NotFound
  }

  /** Under the unique index every row of `p` for `u` is the one the lookup finds. */
  lemma {:induction false} LookupIsDeterministic(table: seq<ProductUnit>, p: ProductId, k: nat)
    requires DistinctUnits(RowsOf(table, p))
    requires k < |table| && table[k].productId == p
    ensures Lookup(table, p, table[k].unitId) == Some(table[k])
  {
    var rows := RowsOf(table, p);
    var u := table[k].unitId;
    assert table[k] in rows;
    var r := Lookup(table, p, u);
    var i :| 0 <= i < |rows| && rows[i] == r.value;
    var j :| 0 <= j < |rows| && rows[j] == table[k];
    assert i == j;
  }

  /** Converting `q` from `a` to `b` and the result back from `b` to `a` gives `q`. */
  lemma {:induction false} ConvertRoundTrip(table: seq<ProductUnit>, p: ProductId, q: real, a: UnitId, b: UnitId)
    requires RatioUsable(table, p, a) && RatioUsable(table, p, b)
    requires ConvertBetweenUnits(table, p, q, a, b).Ok?
    ensures ConvertBetweenUnits(table, p, ConvertBetweenUnits(table, p, q, a, b).value, b, a) == Ok(q)
  {
    if a != b {
      var ra := Lookup(table, p, a).value.quantity;
      var rb := Lookup(table, p, b).value.quantity;
      var r := ConvertBetweenUnits(table, p, q, a, b).value;
      assert r * rb == q * ra;
      var back := ConvertBetweenUnits(table, p, r, b, a).value;
      assert back * ra == r * rb;
      assert back * ra == q * ra;
    }
  }

  /** Converting from `a` to `b` and then to `c` equals converting from `a` to `c` directly. */
  lemma {:induction false} ConvertCompose(table: seq<ProductUnit>, p: ProductId, q: real, a: UnitId, b: UnitId, c: UnitId)
    requires RatioUsable(table, p, a) && RatioUsable(table, p, b) && RatioUsable(table, p, c)
    requires ConvertBetweenUnits(table, p, q, a, b).Ok?
    requires ConvertBetweenUnits(table, p, ConvertBetweenUnits(table, p, q, a, b).value, b, c).Ok?
    ensures ConvertBetweenUnits(table, p, q, a, c)
         == ConvertBetweenUnits(table, p, ConvertBetweenUnits(table, p, q, a, b).value, b, c)
  {
    var r1 := ConvertBetweenUnits(table, p, q, a, b).value;
    var r2 := ConvertBetweenUnits(table, p, r1, b, c).value;
    if a == b || b == c {
    } else if a == c {
      ConvertRoundTrip(table, p, q, a, b);
    } else {
      var ra := Lookup(table, p, a).value.quantity;
      var rb := Lookup(table, p, b).value.quantity;
      var rc := Lookup(table, p, c).value.quantity;
      var direct := ConvertBetweenUnits(table, p, q, a, c).value;
      assert r1 * rb == q * ra;
      assert r2 * rc == r1 * rb;
      assert direct * rc == q * ra;
      assert direct * rc == r2 * rc;
    }
  }

  /** The number of base-unit rows among `rows`. */
  function BaseCount(rows: seq<ProductUnit>): (n: nat)
    ensures n <= |rows|
    ensures n == 0 <==> forall k :: 0 <= k < |rows| ==> !rows[k].isBaseUnit
  {
    if rows == [] then 0
    else (if rows[0].isBaseUnit then 1 else 0) + BaseCount(rows[1..])
  }

  /** `getBaseUnit`: the first base-unit row of product `p`, if there is one. */
  function GetBaseUnit(table: seq<ProductUnit>, p: ProductId): (r: Option<ProductUnit>)
    ensures r.Some? ==> r.value in table && r.value.productId == p && r.value.isBaseUnit
    ensures r.None? <==> forall k :: 0 <= k < |table| && table[k].productId == p ==> !table[k].isBaseUnit
  {
    var rows := RowsOf(table, p);
    var r := FirstBase(rows);
    assert r.None? ==> forall k :: 0 <= k < |table| && table[k].productId == p ==> !table[k].isBaseUnit by {
      if r.None? {
        forall k | 0 <= k < |table| && table[k].productId == p ensures !table[k].isBaseUnit {
          assert table[k] in rows;
        }
      }
    }
    r
  }

  function FirstBase(rows: seq<ProductUnit>): (r: Option<ProductUnit>)
    ensures r.Some? ==> r.value in rows && r.value.isBaseUnit
    ensures r.None? <==> forall k :: 0 <= k < |rows| ==> !rows[k].isBaseUnit
  {
    if rows == [] then None
    else if rows[0].isBaseUnit then Some(rows[0])
    else FirstBase(rows[1..])
  }

  /** With exactly one base row, getBaseUnit finds that row. */
  lemma {:induction false} GetBaseUnitIsTheBase(table: seq<ProductUnit>, p: ProductId, k: nat)
    requires BaseCount(RowsOf(table, p)) == 1
    requires k < |table| && table[k].productId == p && table[k].isBaseUnit
    ensures GetBaseUnit(table, p) == Some(table[k])
  {
    var rows := RowsOf(table, p);
    var r := GetBaseUnit(table, p).value;
    assert table[k] in rows;
    var i :| 0 <= i < |rows| && rows[i] == r;
    var j :| 0 <= j < |rows| && rows[j] == table[k];
    if i != j {
      TwoBasesCount(rows, i, j);
      assert false;
    }
  }

  lemma {:induction false} TwoBasesCount(rows: seq<ProductUnit>, i: nat, j: nat)
    requires i < |rows| && j < |rows| && i != j
    requires rows[i].isBaseUnit && rows[j].isBaseUnit
    ensures BaseCount(rows) >= 2
  {
    if i == 0 {
      assert rows[1..][j - 1] == rows[j];
    } else if j == 0 {
      assert rows[1..][i - 1] == rows[i];
    } else {
      TwoBasesCount(rows[1..], i - 1, j - 1);
    }
  }

  /**
   * The invariant every product's rows keep: the unique index, usable
   * ratios, and exactly one base-unit row once the product is configured.
   */
  predicate WellConfigured(rows: seq<ProductUnit>) {
    DistinctUnits(rows) && NonZeroRatios(rows) && (rows != [] ==> BaseCount(rows) == 1)
  }

  /** `destroy({ where: { product_id } })`: the table without the rows of `p`. */
  function WithoutProduct(table: seq<ProductUnit>, p: ProductId): (r: seq<ProductUnit>)
    ensures forall q :: RowsOf(r, q) == if q == p then [] else RowsOf(table, q)
    ensures forall k :: 0 <= k < |r| ==> r[k] in table && r[k].productId != p
  {
    if table == [] then []
    else if table[0].productId == p then WithoutProduct(table[1..], p)
    else [table[0]] + WithoutProduct(table[1..], p)
  }

  lemma {:induction false} RowsOfAppend(a: seq<ProductUnit>, b: seq<ProductUnit>, q: ProductId)
    ensures RowsOf(a + b, q) == RowsOf(a, q) + RowsOf(b, q)
  {
    if a != [] {
      assert (a + b)[0] == a[0] && (a + b)[1..] == a[1..] + b;
      RowsOfAppend(a[1..], b, q);
      if a[0].productId == q {
        assert RowsOf(a + b, q) == [a[0]] + (RowsOf(a[1..], q) + RowsOf(b, q));
      }
    } else {
      assert a + b == b;
    }
  }

  lemma {:induction false} RowsOfSingleProduct(rows: seq<ProductUnit>, p: ProductId, q: ProductId)
    requires forall k :: 0 <= k < |rows| ==> rows[k].productId == p
    ensures RowsOf(rows, q) == if q == p then rows else []
  {
    if rows != [] {
      RowsOfSingleProduct(rows[1..], p, q);
      assert rows == [rows[0]] + rows[1..];
    }
  }

  /**
   * The table after `destroy` then `bulkCreate` of `rows` for product `p`:
   * `p` has exactly `rows`, every other product keeps its rows.
   */
  function ReplaceRows(table: seq<ProductUnit>, p: ProductId, rows: seq<ProductUnit>): (r: seq<ProductUnit>)
    requires forall k :: 0 <= k < |rows| ==> rows[k].productId == p
    ensures forall q :: RowsOf(r, q) == if q == p then rows else RowsOf(table, q)
  {
    var r := WithoutProduct(table, p) + rows;
    forall q ensures RowsOf(r, q) == if q == p then rows else RowsOf(table, q) {
      RowsOfAppend(WithoutProduct(table, p), rows, q);
      RowsOfSingleProduct(rows, p, q);
    }
    r
  }

  /**
   * The rows of the worked example of 1 dozen = 12 pieces: 3 dozens are 36
   * pieces and 36 pieces are 3 dozens.
   */
  lemma DozenExample(p: ProductId, piece: UnitId, dozen: UnitId)
    requires piece != dozen
    ensures var table := [ProductUnit(p, piece, 1.0, true, true, false, None),
                          ProductUnit(p, dozen, 12.0, false, true, true, None)];
            ConvertBetweenUnits(table, p, 3.0, dozen, piece) == Ok(36.0)
            && ConvertBetweenUnits(table, p, 36.0, piece, dozen) == Ok(3.0)
  {
    var table := [ProductUnit(p, piece, 1.0, true, true, false, None),
                  ProductUnit(p, dozen, 12.0, false, true, true, None)];
    assert table[1..][0].unitId == dozen;
    assert Lookup(table, p, piece) == Some(table[0]);
    assert Lookup(table, p, dozen) == Some(table[1]);
  }
}
