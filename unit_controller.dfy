/**
 * The unit controller: the catalogue of measurement units, the per-product
 * unit configuration, its conversion table, and the paged unit listing.
 *
 * The units table is a map from ids to units; `UnitStore` holds it together
 * with the `product_units` table and the ids of the existing products.
 */
module UnitController {
  import opened Common
  import opened Text
  import opened Listing
  import opened ProductUnits

  datatype Unit = Unit(
    name: string,
    abbreviation: string,
    unitType: string,
    baseUnit: Option<bool>,
    conversionFactor: Option<real>,
    active: bool)

  /**
   * The body of a create or update request. An empty `name`, `abbreviation`
   * or `unitType` is a falsy value; `None` is a field left undefined.
   */
  datatype UnitBody = UnitBody(
    name: string,
    abbreviation: string,
    unitType: string,
    baseUnit: Option<bool>,
    conversionFactor: Option<real>,
    active: Option<bool>)

  /** Why a request is refused with 400. */
  datatype UnitReason =
    | NameOrAbbreviationTaken
    | NameTaken
    | AbbreviationTaken
    | UnitInUse(products: nat)
    | ExactlyOneBaseUnit
    | MissingConversionParameters

  predicate HasName(units: map<UnitId, Unit>, name: string) {
    exists id :: id in units && units[id].name == name
  }

  predicate HasAbbreviation(units: map<UnitId, Unit>, abbreviation: string) {
    exists id :: id in units && units[id].abbreviation == abbreviation
  }

  /** The catalogue invariant: names and abbreviations are each unique among units. */
  predicate UniqueNames(units: map<UnitId, Unit>) {
    forall a, b :: a in units && b in units && a != b ==>
      units[a].name != units[b].name && units[a].abbreviation != units[b].abbreviation
  }

  /** The unit stored by `updateUnit`: falsy text fields and undefined fields keep the old value. */
  function MergeUnit(u: Unit, body: UnitBody): (r: Unit)
    ensures body == UnitBody("", "", "", None, None, None) ==> r == u
  {
    Unit(
      if body.name != "" then body.name else u.name,
      if body.abbreviation != "" then body.abbreviation else u.abbreviation,
      if body.unitType != "" then body.unitType else u.unitType,
      if body.baseUnit.Some? then body.baseUnit else u.baseUnit,
      if body.conversionFactor.Some? then body.conversionFactor else u.conversionFactor,
      body.active.GetOr(u.active))
  }

  /** Applying the same update twice changes nothing more than applying it once. */
  lemma MergeUnitIdempotent(u: Unit, body: UnitBody)
    ensures MergeUnit(MergeUnit(u, body), body) == MergeUnit(u, body)
  {
  }

  /** A later update overrides exactly the fields it defines. */
  lemma MergeUnitLastWins(u: Unit, first: UnitBody, second: UnitBody)
    ensures MergeUnit(MergeUnit(u, first), second).active == second.active.GetOr(MergeUnit(u, first).active)
    ensures second.name != "" ==> MergeUnit(MergeUnit(u, first), second).name == second.name
  {
  }

  /** `ProductUnit.count({ where: { unit_id } })`. */
  function UsageCount(table: seq<ProductUnit>, u: UnitId): (n: nat)
    ensures n <= |table|
    ensures n == 0 <==> forall k :: 0 <= k < |table| ==> table[k].unitId != u
  {
    if table == [] then 0
    else (if table[0].unitId == u then 1 else 0) + UsageCount(table[1..], u)
  }

  /**
   * One element of a configuration request. `None` is a field left
   * undefined; a flag counts as set only when it is `true`.
   */
  datatype UnitEntry = UnitEntry(
    unitId: UnitId,
    quantity: Option<real>,
    isBaseUnit: Option<bool>,
    isSalesUnit: Option<bool>,
    isPurchaseUnit: Option<bool>,
    priceModifier: Option<real>)

  /** `units.filter(u => u.is_base_unit).length`. */
  function BaseEntryCount(entries: seq<UnitEntry>): (n: nat)
    ensures n <= |entries|
    ensures n == 0 <==> forall k :: 0 <= k < |entries| ==> entries[k].isBaseUnit != Some(true)
  {
    if entries == [] then 0
    else (if entries[0].isBaseUnit == Some(true) then 1 else 0) + BaseEntryCount(entries[1..])
  }

  /**
   * The row `bulkCreate` stores for one entry: a missing or zero quantity
   * becomes 1, missing flags become false, a missing or zero price override
   * becomes null.
   */
  function NewRow(p: ProductId, e: UnitEntry): (row: ProductUnit)
    ensures row.productId == p && row.unitId == e.unitId
    ensures row.quantity != 0.0
    ensures e.quantity.Some? && e.quantity.value != 0.0 ==> row.quantity == e.quantity.value
    ensures e.quantity.None? || e.quantity.value == 0.0 ==> row.quantity == 1.0
    ensures row.isBaseUnit <==> e.isBaseUnit == Some(true)
    ensures row.isSalesUnit <==> e.isSalesUnit == Some(true)
    ensures row.isPurchaseUnit <==> e.isPurchaseUnit == Some(true)
    ensures e.priceModifier.Some? && e.priceModifier.value != 0.0 ==> row.priceModifier == e.priceModifier
    ensures row.priceModifier.Some? ==> row.priceModifier == e.priceModifier && row.priceModifier.value != 0.0
  {
    ProductUnit(
      p,
      e.unitId,
      if e.quantity.None? || e.quantity.value == 0.0 then 1.0 else e.quantity.value,
      e.isBaseUnit == Some(true),
      e.isSalesUnit == Some(true),
      e.isPurchaseUnit == Some(true),
      if e.priceModifier.None? || e.priceModifier.value == 0.0 then None else e.priceModifier)
  }

  function NewRows(p: ProductId, entries: seq<UnitEntry>): (rows: seq<ProductUnit>)
    ensures |rows| == |entries|
    ensures forall k :: 0 <= k < |rows| ==> rows[k] == NewRow(p, entries[k])
  {
    seq(|entries|, k requires 0 <= k < |entries| => NewRow(p, entries[k]))
  }

  lemma {:induction false} NewRowsBaseCount(p: ProductId, entries: seq<UnitEntry>)
    ensures BaseCount(NewRows(p, entries)) == BaseEntryCount(entries)
  {
    if entries != [] {
      NewRowsBaseCount(p, entries[1..]);
      assert NewRows(p, entries)[1..] == NewRows(p, entries[1..]);
    }
  }

  /** No two entries name the same unit. */
  predicate DistinctEntryUnits(entries: seq<UnitEntry>) {
    forall i, j :: 0 <= i < j < |entries| ==> entries[i].unitId != entries[j].unitId
  }

  /**
   * A value postgres cannot store in a DECIMAL(10, 4) column: rounded half
   * away from zero to four places, it needs more than six integer digits.
   */
  predicate QuantityOverflows(v: real) {
    v <= -999999.99995 || v >= 999999.99995
  }

  /** The same for a DECIMAL(10, 2) column: more than eight integer digits once rounded to two places. */
  predicate PriceOverflows(v: real) {
    v <= -99999999.995 || v >= 99999999.995
  }

  /** The row for `e` does not fit the `quantity` or `price_modifier` column. */
  predicate RowOverflows(p: ProductId, e: UnitEntry) {
    var row := NewRow(p, e);
    QuantityOverflows(row.quantity) || (row.priceModifier.Some? && PriceOverflows(row.priceModifier.value))
  }

  /**
   * `bulkCreate` throws: two entries break the unique index on
   * (product_id, unit_id), an entry names a unit that does not exist (the
   * foreign key to `units`), or a quantity or price override is out of the
   * range of its DECIMAL column (numeric field overflow).
   */
  predicate InsertFails(p: ProductId, entries: seq<UnitEntry>, units: map<UnitId, Unit>) {
    || !DistinctEntryUnits(entries)
    || (exists k :: 0 <= k < |entries| && entries[k].unitId !in units)
    || (exists k :: 0 <= k < |entries| && RowOverflows(p, entries[k]))
  }

  /** A ratio of a million base units overflows DECIMAL(10, 4), so the configuration rolls back. */
  lemma MillionRatioOverflows(p: ProductId, u: UnitId, units: map<UnitId, Unit>)
    ensures InsertFails(p, [UnitEntry(u, Some(1000000.0), Some(true), None, None, None)], units)
  {
    var e := UnitEntry(u, Some(1000000.0), Some(true), None, None, None);
    assert RowOverflows(p, e);
    assert [e][0] == e;
  }

  /** A configuration `configureProductUnits` accepts leaves the product well configured. */
  lemma NewRowsWellConfigured(p: ProductId, entries: seq<UnitEntry>, units: map<UnitId, Unit>)
    requires BaseEntryCount(entries) == 1 && !InsertFails(p, entries, units)
    ensures WellConfigured(NewRows(p, entries))
  {
    NewRowsBaseCount(p, entries);
  }

  /** `getProductUnits`: the rows of product `p`, base-unit rows first. */
  function GetProductUnits(table: seq<ProductUnit>, p: ProductId): (r: seq<ProductUnit>)
    ensures multiset(r) == multiset(RowsOf(table, p))
    ensures forall i, j :: 0 <= i < j < |r| && r[j].isBaseUnit ==> r[i].isBaseUnit
  {
    var rows := RowsOf(table, p);
    FlaggedSplit(rows);
    Flagged(rows, true) + Flagged(rows, false)
  }

  /** The rows whose base-unit flag is `base`, in order. */
  function Flagged(rows: seq<ProductUnit>, base: bool): (r: seq<ProductUnit>)
    ensures forall k :: 0 <= k < |r| ==> r[k].isBaseUnit == base
  {
    if rows == [] then []
    else if rows[0].isBaseUnit == base then [rows[0]] + Flagged(rows[1..], base)
    else Flagged(rows[1..], base)
  }

  lemma {:induction false} FlaggedSplit(rows: seq<ProductUnit>)
    ensures multiset(Flagged(rows, true)) + multiset(Flagged(rows, false)) == multiset(rows)
  {
    if rows != [] {
      FlaggedSplit(rows[1..]);
      assert rows == [rows[0]] + rows[1..];
    }
  }

  /** For a configured product, the listing starts with its base unit. */
  lemma GetProductUnitsStartsWithBase(table: seq<ProductUnit>, p: ProductId)
    requires WellConfigured(RowsOf(table, p)) && RowsOf(table, p) != []
    ensures GetProductUnits(table, p) != []
    ensures GetBaseUnit(table, p) == Some(GetProductUnits(table, p)[0])
  {
    var rows := RowsOf(table, p);
    var r := GetProductUnits(table, p);
    assert |multiset(r)| == |multiset(rows)|;
    assert rows[0] in multiset(r);
    assert exists k :: 0 <= k < |rows| && rows[k].isBaseUnit;
    var kb :| 0 <= kb < |rows| && rows[kb].isBaseUnit;
    var base := rows[kb];
    assert base in multiset(r);
    var i :| 0 <= i < |r| && r[i] == base;
    assert r[0].isBaseUnit;
    assert r[0] in multiset(rows);
    var k :| 0 <= k < |table| && table[k] == r[0] by {
      assert r[0] in rows;
    }
    GetBaseUnitIsTheBase(table, p, k);
  }

  /** One entry of the conversion table: 1 of `fromUnit` equals `factor` of `toUnit`. */
  datatype Conversion = Conversion(fromUnit: UnitId, toUnit: UnitId, factor: real)

  /**
   * `convertProductUnits`: a missing or zero quantity or a missing unit id is
   * refused; the conversion itself must find both rows; afterwards both rows
   * are read again for their unit names, so even a conversion of a unit into
   * itself fails when the product has no row for that unit. The result is
   * the original and the converted quantity.
   */
  function ConvertProductUnits(table: seq<ProductUnit>, p: ProductId, quantity: Option<real>,
                               from: Option<UnitId>, to: Option<UnitId>): (r: Result<(real, real), UnitReason>)
    requires NonZeroRatios(RowsOf(table, p))
    ensures r.Ok? || r.BadRequest? || r.ServerError?
    ensures r.BadRequest? <==> quantity.None? || quantity.value == 0.0 || from.None? || to.None?
    ensures r.BadRequest? ==> r.reason == MissingConversionParameters
    ensures r.Ok? <==> !r.BadRequest? && HasRow(table, p, from.value) && HasRow(table, p, to.value)
    ensures r.Ok? ==> r.value.0 == quantity.value
    ensures r.Ok? ==> ToBaseUnit(Lookup(table, p, to.value).value, r.value.1)
                      == ToBaseUnit(Lookup(table, p, from.value).value, quantity.value)
  {
    if quantity.None? || quantity.value == 0.0 || from.None? || to.None? then BadRequest(MissingConversionParameters)
    else
      var q := quantity.value;
      var converted := ConvertBetweenUnits(table, p, q, from.value, to.value);
      if converted.NotFound? then ServerError
      else if Lookup(table, p, from.value).None? || Lookup(table, p, to.value).None? then ServerError
      else Ok((q, converted.value))
  }

  /** Where the block of pairs (i, _) starts when every row pairs with the n - 1 others. */
  function BlockStart(n: nat, i: nat): (s: nat)
    requires n >= 1
  {
    if i == 0 then 0 else BlockStart(n, i - 1) + (n - 1)
  }

  lemma {:induction false} BlockStartIsProduct(n: nat, i: nat)
    requires n >= 1
    ensures BlockStart(n, i) == i * (n - 1)
  {
    if i > 0 {
      BlockStartIsProduct(n, i - 1);
    }
  }

  lemma {:induction false} BlockStartMonotone(n: nat, a: nat, i: nat)
    requires n >= 1 && a < i
    ensures BlockStart(n, a) + (n - 1) <= BlockStart(n, i)
  {
    if a + 1 < i {
      BlockStartMonotone(n, a, i - 1);
    }
  }

  /** Where the pair (i, b) sits inside the block of row i. */
  function OffsetInBlock(i: nat, b: nat): nat
    requires b != i
  {
    if b < i then b else b - 1
  }

  /** Where the nested loops put the pair (i, j), i != j, among n rows. */
  function PairIndex(n: nat, i: nat, j: nat): (k: nat)
    requires i < n && j < n && i != j
    ensures BlockStart(n, i) <= k < BlockStart(n, i) + (n - 1)
    ensures k < BlockStart(n, n)
  {
    BlockStartMonotone(n, i, n);
    BlockStart(n, i) + OffsetInBlock(i, j)
  }

  /** The conversion `getProductConversionTable` lists for rows i and j. */
  function ConversionOf(rows: seq<ProductUnit>, i: nat, j: nat): Conversion
    requires i < |rows| && j < |rows| && rows[j].quantity != 0.0
  {
    Conversion(rows[i].unitId, rows[j].unitId, rows[i].quantity / rows[j].quantity)
  }

  /** Between two distinct rows of a product, converting 1 gives the ratio of their ratios. */
  lemma ConvertDistinctRows(table: seq<ProductUnit>, p: ProductId, i: nat, j: nat)
    requires DistinctUnits(RowsOf(table, p)) && NonZeroRatios(RowsOf(table, p))
    requires i < |RowsOf(table, p)| && j < |RowsOf(table, p)| && i != j
    ensures RatioUsable(table, p, RowsOf(table, p)[j].unitId)
    ensures ConvertBetweenUnits(table, p, 1.0, RowsOf(table, p)[i].unitId, RowsOf(table, p)[j].unitId)
         == Ok(RowsOf(table, p)[i].quantity / RowsOf(table, p)[j].quantity)
  {
    var rows := RowsOf(table, p);
    var ki :| 0 <= ki < |table| && table[ki] == rows[i] by { assert rows[i] in table; }
    var kj :| 0 <= kj < |table| && table[kj] == rows[j] by { assert rows[j] in table; }
    LookupIsDeterministic(table, p, ki);
    LookupIsDeterministic(table, p, kj);
  }

  /**
   * `block` holds the conversions from row i to rows 0 .. j - 1 other than
   * i itself, in row order, none pairing a unit with itself.
   */
  predicate RowListed(rows: seq<ProductUnit>, i: nat, j: nat, block: seq<Conversion>)
    requires NonZeroRatios(rows) && i < |rows| && j <= |rows|
  {
    && |block| == (if j <= i then j else j - 1)
    && (forall b :: 0 <= b < j && b != i ==> block[OffsetInBlock(i, b)] == ConversionOf(rows, i, b))
    && (forall k :: 0 <= k < |block| ==> block[k].fromUnit != block[k].toUnit)
  }

  /** Appending the conversion from row i to row j extends the listed conversions by one. */
  lemma AppendConversion(rows: seq<ProductUnit>, i: nat, j: nat, block: seq<Conversion>)
    requires DistinctUnits(rows) && NonZeroRatios(rows) && i < |rows| && j < |rows| && i != j
    requires RowListed(rows, i, j, block)
    ensures RowListed(rows, i, j + 1, block + [ConversionOf(rows, i, j)])
  {
    var block' := block + [ConversionOf(rows, i, j)];
    forall b | 0 <= b <= j && b != i ensures block'[OffsetInBlock(i, b)] == ConversionOf(rows, i, b) {
      if b < j {
        assert block'[OffsetInBlock(i, b)] == block[OffsetInBlock(i, b)];
      }
    }
  }

  /**
   * The inner loop of `getProductConversionTable`: the conversions from row
   * i to every other row of the product, in row order.
   */
  method ConversionsFrom(table: seq<ProductUnit>, p: ProductId, i: nat) returns (block: seq<Conversion>)
    requires DistinctUnits(RowsOf(table, p)) && NonZeroRatios(RowsOf(table, p)) && i < |RowsOf(table, p)|
    ensures |block| == |RowsOf(table, p)| - 1
    ensures forall b :: 0 <= b < |RowsOf(table, p)| && b != i ==>
      block[OffsetInBlock(i, b)] == ConversionOf(RowsOf(table, p), i, b)
    ensures forall k :: 0 <= k < |block| ==> block[k].fromUnit != block[k].toUnit
  {
    var rows := RowsOf(table, p);
    var n := |rows|;
    block := [];
    for j := 0 to n
      invariant RowListed(rows, i, j, block)
    {
      if i != j {
        ConvertDistinctRows(table, p, i, j);
        var converted := ConvertBetweenUnits(table, p, 1.0, rows[i].unitId, rows[j].unitId);
        AppendConversion(rows, i, j, block);
        block := block + [Conversion(rows[i].unitId, rows[j].unitId, converted.value)];
      }
    }
  }

  /** The first `i` blocks of `t` hold the conversions from rows 0 .. i - 1 to every other row. */
  predicate BlocksListed(rows: seq<ProductUnit>, t: seq<Conversion>, i: nat)
    requires NonZeroRatios(rows) && 1 <= |rows| && i <= |rows|
  {
    && |t| == BlockStart(|rows|, i)
    && forall a, b :: 0 <= a < i && 0 <= b < |rows| && a != b ==>
         PairIndex(|rows|, a, b) < |t| && t[PairIndex(|rows|, a, b)] == ConversionOf(rows, a, b)
  }

  /** Appending the block of row i extends the listed blocks by one. */
  lemma AppendBlock(rows: seq<ProductUnit>, t: seq<Conversion>, i: nat, block: seq<Conversion>)
    requires NonZeroRatios(rows) && i < |rows| && BlocksListed(rows, t, i)
    requires |block| == |rows| - 1
    requires forall b :: 0 <= b < |rows| && b != i ==> block[OffsetInBlock(i, b)] == ConversionOf(rows, i, b)
    ensures BlocksListed(rows, t + block, i + 1)
  {
    var n := |rows|;
    forall a, b | 0 <= a <= i && 0 <= b < n && a != b
      ensures PairIndex(n, a, b) < |t + block| && (t + block)[PairIndex(n, a, b)] == ConversionOf(rows, a, b)
    {
      if a < i {
        assert (t + block)[PairIndex(n, a, b)] == t[PairIndex(n, a, b)];
      } else {
        assert PairIndex(n, a, b) == |t| + OffsetInBlock(i, b);
      }
    }
  }

  /**
   * `getProductConversionTable`: NotFound for a product without rows;
   * otherwise, for every ordered pair of distinct rows in nested-loop order,
   * the result of converting 1 of the first unit into the second.
   */
  method GetProductConversionTable(table: seq<ProductUnit>, p: ProductId)
    returns (r: Result<seq<Conversion>, UnitReason>)
    requires DistinctUnits(RowsOf(table, p)) && NonZeroRatios(RowsOf(table, p))
    ensures r.Ok? || r.NotFound?
    ensures r.NotFound? <==> RowsOf(table, p) == []
    ensures r.Ok? ==> |r.value| == BlockStart(|RowsOf(table, p)|, |RowsOf(table, p)|)
                    == |RowsOf(table, p)| * (|RowsOf(table, p)| - 1)
    ensures r.Ok? ==> forall i, j :: 0 <= i < |RowsOf(table, p)| && 0 <= j < |RowsOf(table, p)| && i != j ==>
      r.value[PairIndex(|RowsOf(table, p)|, i, j)] == ConversionOf(RowsOf(table, p), i, j)
    ensures r.Ok? ==> forall k :: 0 <= k < |r.value| ==> r.value[k].fromUnit != r.value[k].toUnit
  {
    var rows := RowsOf(table, p);
    var n := |rows|;
    if n == 0 {
      return NotFound;
    }
    var t: seq<Conversion> := [];
    for i := 0 to n
      invariant BlocksListed(rows, t, i)
      invariant forall k :: 0 <= k < |t| ==> t[k].fromUnit != t[k].toUnit
    {
      var block := ConversionsFrom(table, p, i);
      AppendBlock(rows, t, i, block);
      t := t + block;
    }
    BlockStartIsProduct(n, n);
    r := Ok(t);
  }

  /** Each factor of the table and the factor of the opposite pair multiply to 1. */
  lemma ConversionFactorsInverse(rows: seq<ProductUnit>, i: nat, j: nat)
    requires NonZeroRatios(rows) && i < |rows| && j < |rows|
    ensures ConversionOf(rows, i, j).factor * ConversionOf(rows, j, i).factor == 1.0
  {
  }

  /** What `getUnits` filters on; an empty string is a parameter left out. */
  datatype UnitQuery = UnitQuery(search: string, unitType: string, active: string)

  /** The WHERE clause of `getUnits`. */
  predicate UnitMatches(q: UnitQuery, u: Unit) {
    && (q.search != "" ==> ContainsIgnoringCase(u.name, q.search) || ContainsIgnoringCase(u.abbreviation, q.search))
    && (q.unitType != "" ==> u.unitType == q.unitType)
    && (q.active != "" ==> u.active == (q.active == "true"))
  }

  /** ORDER BY type, name. */
  function UnitSortKey(u: Unit): seq<string> {
    [u.unitType, u.name]
  }

  function MatchingUnitIds(units: map<UnitId, Unit>, q: UnitQuery): (ids: set<UnitId>)
    ensures ids <= units.Keys
    ensures forall id :: id in ids <==> id in units && UnitMatches(q, units[id])
  {
    set id | id in units && UnitMatches(q, units[id])
  }

  /** With no search, type or active filter given, every unit is listed. */
  lemma UnfilteredListsAllUnits(units: map<UnitId, Unit>)
    ensures MatchingUnitIds(units, UnitQuery("", "", "")) == units.Keys
  {
  }

  /** A search only narrows the listing: it keeps a subset of the ids the other filters keep. */
  lemma SearchNarrowsUnits(units: map<UnitId, Unit>, q: UnitQuery)
    ensures MatchingUnitIds(units, q) <= MatchingUnitIds(units, q.(search := ""))
  {
  }

  /** All units that match `q`, in listing order. */
  function OrderedUnits(units: map<UnitId, Unit>, q: UnitQuery): seq<Unit> {
    OrderedRows(units, MatchingUnitIds(units, q), UnitSortKey)
  }

  /** Every unit on a page of the listing is stored and matches the query. */
  lemma ListedUnitsMatch(units: map<UnitId, Unit>, q: UnitQuery, offset: nat, limit: nat)
    ensures var rows := PageOf(OrderedUnits(units, q), offset, limit);
            forall k :: 0 <= k < |rows| ==> rows[k] in units.Values && UnitMatches(q, rows[k])
  {
    var all := OrderedUnits(units, q);
    var rows := PageOf(all, offset, limit);
    forall k | 0 <= k < |rows| ensures rows[k] in units.Values && UnitMatches(q, rows[k]) {
      assert rows[k] == all[offset + k];
      var id :| id in MatchingUnitIds(units, q) && units[id] == all[offset + k];
      assert units[id] in units.Values;
    }
  }

  datatype UnitPage = UnitPage(rows: seq<Unit>, total: nat, page: int, limit: int, totalPages: nat)

  /**
   * `getUnits`: one page of the units that match `q`, ordered by type then
   * name, starting at offset (page - 1) * limit. A page below 1 makes the
   * offset negative, which the database refuses.
   */
  function GetUnits(units: map<UnitId, Unit>, q: UnitQuery, page: int, limit: int): (r: Result<UnitPage, UnitReason>)
    requires limit >= 1
    ensures r.Ok? || r.ServerError?
    ensures r.ServerError? <==> page < 1
    ensures r.Ok? ==> r.value.total == |MatchingUnitIds(units, q)|
    ensures r.Ok? ==> forall k :: 0 <= k < |r.value.rows| ==>
      r.value.rows[k] in units.Values && UnitMatches(q, r.value.rows[k])
    ensures r.Ok? ==> SortedByKey(r.value.rows, UnitSortKey)
    ensures r.Ok? ==> r.value.rows == PageOf(OrderedUnits(units, q), (page - 1) * limit, limit)
    ensures r.Ok? ==> r.value.totalPages == TotalPages(r.value.total, limit)
    ensures r.Ok? ==> r.value.page == page && r.value.limit == limit
  {
    if page < 1 then ServerError
    else
      var offset := (page - 1) * limit;
      var all := OrderedUnits(units, q);
      PageFields(all, page, limit, offset);
      ListedUnitsMatch(units, q, offset, limit);
      Ok(UnitPage(PageOf(all, offset, limit), |all|, page, limit, TotalPages(|all|, limit)))
  }

  /**
   * The units catalogue and the product-unit configuration, as the unit
   * controller reads and writes them. The products table is only read.
   */
  class UnitStore {
    var units: map<UnitId, Unit>
    var productUnits: seq<ProductUnit>
    const products: set<ProductId>

    ghost predicate Valid()
      reads this
    {
      && UniqueNames(units)
      && (forall k :: 0 <= k < |productUnits| ==>
            productUnits[k].productId in products && productUnits[k].unitId in units)
      && (forall p :: WellConfigured(RowsOf(productUnits, p)))
    }

    constructor (products: set<ProductId>)
      ensures Valid()
      ensures this.products == products && units == map[] && productUnits == []
    {
      this.products := products;
      units := map[];
      productUnits := [];
    }

    /**
     * `createUnit`: refused when a unit already has the name or the
     * abbreviation; otherwise exactly one unit is added under the fresh id
     * `id`, active unless the body says otherwise.
     */
    method CreateUnit(id: UnitId, body: UnitBody) returns (r: Result<Unit, UnitReason>)
      requires Valid()
      modifies this
      ensures Valid()
      ensures productUnits == old(productUnits)
      ensures r.Ok? || r.BadRequest? || r.ServerError?
      ensures r.BadRequest? <==> HasName(old(units), body.name) || HasAbbreviation(old(units), body.abbreviation)
      ensures r.BadRequest? ==> r.reason == NameOrAbbreviationTaken
      ensures r.ServerError? <==> !r.BadRequest? && id in old(units)
      ensures !r.Ok? ==> units == old(units)
      ensures r.Ok? ==> units == old(units)[id := r.value]
      ensures r.Ok? ==> r.value == Unit(body.name, body.abbreviation, body.unitType,
                                        body.baseUnit, body.conversionFactor, body.active.GetOr(true))
    {
      if HasName(units, body.name) || HasAbbreviation(units, body.abbreviation) {
        return BadRequest(NameOrAbbreviationTaken);
      }
      if id in units {
        // the generated primary key collides
        return ServerError;
      }
      var u := Unit(body.name, body.abbreviation, body.unitType,
                    body.baseUnit, body.conversionFactor, body.active.GetOr(true));
      units := units[id := u];
      r := Ok(u);
    }

    /**
     * `updateUnit`: NotFound for an unknown id; refused when a changed name
     * or abbreviation belongs to a unit already; otherwise only unit `id`
     * changes, to the merge of its old value and the body.
     */
    method UpdateUnit(id: UnitId, body: UnitBody) returns (r: Result<Unit, UnitReason>)
      requires Valid()
      modifies this
      ensures Valid()
      ensures productUnits == old(productUnits)
      ensures r.Ok? || r.NotFound? || r.BadRequest?
      ensures r.NotFound? <==> id !in old(units)
      ensures id in old(units) ==>
        var u := old(units)[id];
        var nameClash := body.name != "" && body.name != u.name && HasName(old(units), body.name);
        var abbreviationClash := body.abbreviation != "" && body.abbreviation != u.abbreviation
                                 && HasAbbreviation(old(units), body.abbreviation);
        && (nameClash ==> r == BadRequest(NameTaken))
        && (!nameClash && abbreviationClash ==> r == BadRequest(AbbreviationTaken))
        && (!nameClash && !abbreviationClash ==> r == Ok(MergeUnit(u, body)))
      ensures !r.Ok? ==> units == old(units)
      ensures r.Ok? ==> units == old(units)[id := r.value]
    {
      if id !in units {
        return NotFound;
      }
      var u := units[id];
      if body.name != "" && body.name != u.name && HasName(units, body.name) {
        return BadRequest(NameTaken);
      }
      if body.abbreviation != "" && body.abbreviation != u.abbreviation && HasAbbreviation(units, body.abbreviation) {
        return BadRequest(AbbreviationTaken);
      }
      var merged := MergeUnit(u, body);
      units := units[id := merged];
      r := Ok(merged);
    }

    /**
     * `deleteUnit`: NotFound for an unknown id; refused, with the number of
     * referencing rows, while any product configuration uses the unit;
     * otherwise exactly that unit is removed.
     */
    method DeleteUnit(id: UnitId) returns (r: Result<(), UnitReason>)
      requires Valid()
      modifies this
      ensures Valid()
      ensures productUnits == old(productUnits)
      ensures r.Ok? || r.NotFound? || r.BadRequest?
      ensures r.NotFound? <==> id !in old(units)
      ensures r.BadRequest? <==> id in old(units) && exists k :: 0 <= k < |productUnits| && productUnits[k].unitId == id
      ensures r.BadRequest? ==> r.reason == UnitInUse(UsageCount(productUnits, id))
      ensures !r.Ok? ==> units == old(units)
      ensures r.Ok? ==> units == old(units) - {id} && id in old(units)
    {
      if id !in units {
        return NotFound;
      }
      var inUse := UsageCount(productUnits, id);
      if inUse > 0 {
        return BadRequest(UnitInUse(inUse));
      }
      units := units - {id};
      r := Ok(());
    }

    /**
     * `configureProductUnits`: NotFound for an unknown product; a request
     * without an entry list fails; a list without exactly one base unit
     * (the empty list included) is refused; a list the insert rejects rolls
     * back. In all these cases no row changes. Otherwise the product's rows
     * become exactly the new rows and every other product keeps its rows.
     */
    method ConfigureProductUnits(p: ProductId, entries: Option<seq<UnitEntry>>)
      returns (r: Result<seq<ProductUnit>, UnitReason>)
      requires Valid()
      modifies this
      ensures Valid()
      ensures units == old(units)
      ensures r.Ok? || r.NotFound? || r.BadRequest? || r.ServerError?
      ensures r.NotFound? <==> p !in products
      ensures r.BadRequest? <==> p in products && entries.Some? && BaseEntryCount(entries.value) != 1
      ensures r.BadRequest? ==> r.reason == ExactlyOneBaseUnit
      ensures r.Ok? <==> p in products && entries.Some? && BaseEntryCount(entries.value) == 1
                         && !InsertFails(p, entries.value, units)
      ensures !r.Ok? ==> productUnits == old(productUnits)
      ensures r.Ok? ==> productUnits == ReplaceRows(old(productUnits), p, NewRows(p, entries.value))
      ensures r.Ok? ==> r.value == RowsOf(productUnits, p) == NewRows(p, entries.value)
      ensures r.Ok? ==> BaseCount(r.value) == 1
      ensures forall q :: q != p ==> RowsOf(productUnits, q) == RowsOf(old(productUnits), q)
    {
      if p !in products {
        return NotFound;
      }
      if entries.None? {
        // `units.filter` on an undefined body field throws
        return ServerError;
      }
      var es := entries.value;
      if BaseEntryCount(es) != 1 {
        return BadRequest(ExactlyOneBaseUnit);
      }
      if InsertFails(p, es, units) {
        // the transaction is rolled back: the deleted rows come back
        return ServerError;
      }
      var rows := NewRows(p, es);
      NewRowsWellConfigured(p, es, units);
      ReplaceRowsKeepsReferences(productUnits, p, rows, products, units);
      productUnits := ReplaceRows(productUnits, p, rows);
      r := Ok(rows);
    }
  }

  /** Replacing a product's rows keeps every row's product and unit among the existing ones. */
  lemma ReplaceRowsKeepsReferences(table: seq<ProductUnit>, p: ProductId, rows: seq<ProductUnit>,
                                   products: set<ProductId>, units: map<UnitId, Unit>)
    requires p in products
    requires forall k :: 0 <= k < |table| ==> table[k].productId in products && table[k].unitId in units
    requires forall k :: 0 <= k < |rows| ==> rows[k].productId == p && rows[k].unitId in units
    ensures forall k :: 0 <= k < |ReplaceRows(table, p, rows)| ==>
      ReplaceRows(table, p, rows)[k].productId in products && ReplaceRows(table, p, rows)[k].unitId in units
  {
    var kept := WithoutProduct(table, p);
    var r := ReplaceRows(table, p, rows);
    assert r == kept + rows;
    forall k | 0 <= k < |r| ensures r[k].productId in products && r[k].unitId in units {
      if k < |kept| {
        assert r[k] == kept[k];
        assert kept[k] in table;
      } else {
        assert r[k] == rows[k - |kept|];
      }
    }
  }

  /** Under the invariant, after configuring a product its base unit is the single flagged entry. */
  lemma {:induction false} ConfiguredBaseIsFlaggedEntry(p: ProductId, entries: seq<UnitEntry>, k: nat)
    requires BaseEntryCount(entries) == 1 && k < |entries| && entries[k].isBaseUnit == Some(true)
    ensures FirstBase(NewRows(p, entries)) == Some(NewRow(p, entries[k]))
  {
    var rows := NewRows(p, entries);
    NewRowsBaseCount(p, entries);
    var b := FirstBase(rows).value;
    var i :| 0 <= i < |rows| && rows[i] == b;
    if i != k {
      TwoBasesCount(rows, i, k);
      assert false;
    }
  }
}
