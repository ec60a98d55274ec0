# Bakery back office: units of measure and customers

This project is a Dafny model of the business core of a bakery back-office
server. The core has three parts:

- **Product units** (`Backend/models/ProductUnit.js`). Each product is sold
  and bought in several units. A row of the `product_units` table records how
  many base units one unit of the product equals. For example, one funda
  holds 8 bizcochos. Amounts are converted between two units of a product by
  pivoting through the base unit.
- **Unit controller** (`Backend/src/controllers/unitController.js`). This
  covers:
  - the catalogue of units, with unique names and abbreviations and a guard
    against deleting a unit in use;
  - the all-or-nothing replacement of a product's unit configuration, which
    demands exactly one base unit;
  - the listing of a product's units, base unit first;
  - the n × (n − 1) conversion table of a product;
  - a single conversion request;
  - the filtered, paged unit listing.
- **Customer controller** (`Backend/src/controllers/customerController.js`).
  This covers:
  - required fields;
  - the closed set of identification types;
  - unique identification;
  - the e-mail shape check `^[^\s@]+@[^\s@]+\.[^\s@]+$`;
  - field-merge semantics on update;
  - the protected final consumer, which can be neither deleted nor
    deactivated by the status toggle;
  - the filtered, paged customer listing and its page fields.

The model is split into these files:

| file | module | contents |
|---|---|---|
| `common.dfy` | `Common` | `Option` and the outcome type `Result` (see below) |
| `text.dfy` | `Text` | the code-point order used by ORDER BY on text, ILIKE `'%s%'` as ASCII case-insensitive substring, and the `\s` class of JavaScript |
| `listing.dfy` | `Listing` | what a paged `findAndCountAll` returns: ordering by sort keys, the OFFSET/LIMIT slice, `Math.ceil(count / limit)` |
| `product_unit.dfy` | `ProductUnits` | the ProductUnit model |
| `unit_controller.dfy` | `UnitController` | the unit controller; `UnitStore` is a class whose methods change the `units` and `product_units` tables |
| `customer_controller.dfy` | `CustomerController` | the customer controller; `CustomerStore` is a class over the `customers` table |

`Result` has four outcomes:

- `Ok` is a success.
- `NotFound` and `BadRequest(reason)` are the 404 and 400 answers a controller gives itself.
- `ServerError` is the catch-all 500 path, reached when the database or the code throws.

Other modelling choices:

- **Ratios and keys.**
  - Ratios are exact `real` numbers.
  - Table ids are natural numbers.
  - The id a create operation would generate is a parameter. If it collides with an existing id, the primary key rejects the insert, which is a `ServerError`.
- **product_units table.**
  - It is a sequence of rows in insertion order.
  - The unique index on (product_id, unit_id) becomes the invariant that no two rows of one product share a unit.
  - Every product's rows also keep non-zero ratios and, once configured, exactly one base row. The invariant is non-zero rather than positive because `bulkCreate` does not run the model's `min: 0` validator.

`configureProductUnits` rejects an empty entry list, because zero base units
is not exactly one (unitController.js:318-319). An empty list therefore
cannot clear a product's configuration.

## Model

| member | source | states |
|---|---|---|
| ProductUnits.ToBaseUnit | Backend/models/ProductUnit.js:80-82 | definition: an amount of the row's unit times the row's ratio; its inverse is `FromBaseUnit` (see `FromToBaseRoundTrip`) |
| ProductUnits.FromBaseUnit | Backend/models/ProductUnit.js:84-86 | dividing by a non-zero ratio inverts `toBaseUnit`: the result is worth exactly the given base quantity |
| ProductUnits.FromToBaseRoundTrip | Backend/models/ProductUnit.js:80-86 | `fromBaseUnit(toBaseUnit(q)) == q` for a non-zero ratio |
| ProductUnits.Lookup | Backend/models/ProductUnit.js:98-110 | the row found for (product, unit) belongs to that product and unit; nothing is found exactly when the table has no such row |
| ProductUnits.LookupIsDeterministic | Backend/models/ProductUnit.js:66-71 | under the unique (product_id, unit_id) index, every row of a product is the one the lookup for its unit returns |
| ProductUnits.ConvertBetweenUnits | Backend/models/ProductUnit.js:88-119 | same unit: the amount unchanged, whether or not a row exists; different units: fails exactly when either row is missing, and otherwise gives the amount worth the same base quantity, i.e. `q × ratio(from) / ratio(to)` |
| ProductUnits.ConvertRoundTrip | Backend/models/ProductUnit.js:116-118 | converting a→b and the result b→a gives back the original amount |
| ProductUnits.ConvertCompose | Backend/models/ProductUnit.js:116-118 | converting a→b then b→c equals converting a→c directly |
| ProductUnits.DozenExample | Backend/models/ProductUnit.js:88-119 | with 1 dozen = 12 pieces, 3 dozens convert to 36 pieces and 36 pieces to 3 dozens |
| ProductUnits.GetBaseUnit | Backend/models/ProductUnit.js:121-129 | returns a base-unit row of the product, and nothing exactly when the product has no base-unit row |
| ProductUnits.GetBaseUnitIsTheBase | Backend/models/ProductUnit.js:121-129 | when the product has exactly one base row, that is the row returned |
| ProductUnits.WithoutProduct | Backend/src/controllers/unitController.js:327-331 | deleting a product's rows empties that product and leaves every other product's rows as they were |
| ProductUnits.ReplaceRows | Backend/src/controllers/unitController.js:327-345 | after delete-then-insert, the product has exactly the new rows and every other product keeps its rows |
| UnitController.MergeUnit | Backend/src/controllers/unitController.js:201-208 | an update body with every field falsy or undefined leaves the unit unchanged |
| UnitController.MergeUnitIdempotent | Backend/src/controllers/unitController.js:201-208 | applying the same update twice equals applying it once |
| UnitController.MergeUnitLastWins | Backend/src/controllers/unitController.js:201-208 | a later update's defined `active` and truthy `name` override the earlier ones |
| UnitController.UsageCount | Backend/src/controllers/unitController.js:240 | the count of rows referencing a unit is zero exactly when no row references it |
| UnitController.BaseEntryCount | Backend/src/controllers/unitController.js:318 | the number of entries flagged as base unit: at most the number of entries, and zero exactly when no entry is flagged |
| UnitController.NewRow | Backend/src/controllers/unitController.js:335-343 | the stored row: a given non-zero quantity is kept, a missing or zero one becomes 1; the base, sales and purchase flags are set exactly when the entry sets them to true and are false otherwise; a given non-zero price override is kept, a missing or zero one becomes null |
| UnitController.InsertFails | Backend/src/controllers/unitController.js:334-345 | definition: `bulkCreate` throws when two entries name one unit (unique index), an entry names no existing unit (foreign key), or a stored quantity or price override is out of range of its DECIMAL(10,4) or DECIMAL(10,2) column (ProductUnit.js:31 and 55) |
| UnitController.MillionRatioOverflows | Backend/models/ProductUnit.js:31 | a ratio of 1 000 000 base units does not fit DECIMAL(10,4), so that configuration is rolled back |
| UnitController.NewRowsBaseCount | Backend/src/controllers/unitController.js:318-319 | the inserted rows hold as many base rows as the entries flag |
| UnitController.NewRowsWellConfigured | Backend/src/controllers/unitController.js:318-345 | an accepted configuration gives rows with distinct units, non-zero ratios and exactly one base row |
| UnitController.ConfiguredBaseIsFlaggedEntry | Backend/src/controllers/unitController.js:318-345 | after configuration the product's base row is the row of the single flagged entry |
| UnitController.GetProductUnits | Backend/src/controllers/unitController.js:274-283 | the product's rows, each exactly once, with base-unit rows before the others |
| UnitController.GetProductUnitsStartsWithBase | Backend/src/controllers/unitController.js:274-283 | for a configured product the listing is non-empty and starts with the row `getBaseUnit` returns |
| UnitController.ConvertProductUnits | Backend/src/controllers/unitController.js:381-435 | refused exactly when the quantity is missing or zero or a unit id is missing; succeeds exactly when both rows exist (a same-unit request without rows fails); returns the original amount and the amount worth the same base quantity |
| UnitController.PairIndex | Backend/src/controllers/unitController.js:511-512 | the nested loops put the pair (i, j) inside row i's block of n − 1 entries, before index n × (n − 1) |
| UnitController.ConvertDistinctRows | Backend/src/controllers/unitController.js:513-518 | between two distinct rows of a configured product, converting 1 succeeds and gives ratio(from) / ratio(to) |
| UnitController.ConversionsFrom | Backend/src/controllers/unitController.js:512-535 | the inner loop yields n − 1 entries: for every other row, 1 of this unit in that unit, in row order, never a unit with itself |
| UnitController.GetProductConversionTable | Backend/src/controllers/unitController.js:487-542 | NotFound exactly when the product has no rows; otherwise n × (n − 1) entries in nested-loop order, the entry for (i, j) converting 1 of unit i into unit j with factor ratio(i) / ratio(j), none pairing a unit with itself |
| UnitController.ConversionFactorsInverse | Backend/src/controllers/unitController.js:513-534 | the factors of (i, j) and (j, i) multiply to 1 |
| UnitController.UnitMatches | Backend/src/controllers/unitController.js:21-34 | definition of the WHERE clause: every given filter holds (name or abbreviation containing the search text ignoring case, equal type, `active` equal to `active === 'true'`) |
| UnitController.UnfilteredListsAllUnits | Backend/src/controllers/unitController.js:21-34 | with no search, type or active filter, every unit is selected |
| UnitController.SearchNarrowsUnits | Backend/src/controllers/unitController.js:21-26 | adding a search text only removes units from the selection |
| UnitController.GetUnits | Backend/src/controllers/unitController.js:8-52 | page < 1 fails (negative offset); otherwise only matching units, sorted by type then name, the slice at offset (page − 1) × limit, total = number of matches, totalPages = ceil(total / limit) |
| UnitController.UnitStore.CreateUnit | Backend/src/controllers/unitController.js:117-141 | refused, with nothing changed, exactly when a unit has the name or the abbreviation; otherwise exactly one unit is added, active by default; names and abbreviations stay unique |
| UnitController.UnitStore.UpdateUnit | Backend/src/controllers/unitController.js:171-208 | NotFound for an unknown id; a changed name (then abbreviation) held by another unit is refused with nothing changed; otherwise only that unit changes, to the merge; uniqueness is kept |
| UnitController.UnitStore.DeleteUnit | Backend/src/controllers/unitController.js:230-249 | NotFound for an unknown id; refused with the number of referencing rows exactly when any product uses the unit; otherwise exactly that unit is removed |
| UnitController.UnitStore.ConfigureProductUnits | Backend/src/controllers/unitController.js:300-374 | NotFound for an unknown product; a missing list fails; not exactly one base entry (the empty list included) is refused; an insert that breaks the unique index or a unit reference, or overflows a DECIMAL column, rolls back; in all of these the rows are unchanged; otherwise the product's rows become exactly the new rows, with one base row, and other products keep theirs |
| Listing.OrderedRows | Backend/src/controllers/unitController.js:36-41 | ORDER BY: the rows of the selected ids, each once per id (a permutation of the rows in id order), sorted by the key columns, with rows whose keys are equal in ascending id order |
| Listing.SortByKey | Backend/src/controllers/customerController.js:38 | a permutation of its input, sorted by the key |
| Listing.SortByKeyStable | Backend/src/controllers/customerController.js:38 | rows with equal keys keep the order they had in the input |
| Listing.InsertKeepsTies | Backend/src/controllers/customerController.js:38 | inserting a row into a sorted sequence puts it after every row whose key equals its own |
| Listing.PageOf | Backend/src/controllers/unitController.js:36-41 | OFFSET/LIMIT: at most `limit` rows, the k-th being row offset + k of the whole listing |
| Listing.TotalPages | Backend/src/controllers/unitController.js:50 | the least page count whose pages hold all rows |
| Listing.HasNextIffRowsRemain | Backend/src/controllers/customerController.js:42-54 | `page < totalPages` exactly when rows remain after page `page` |
| Listing.PageFields | Backend/src/controllers/customerController.js:42-55 | `from - 1` is never negative and is positive exactly after page 1; `has_next` holds exactly when rows remain after the last row of the page |
| Listing.SortedIds | Backend/src/controllers/unitController.js:36-41 | the ids of a set, each once, strictly ascending: the order of rows whose keys are equal |
| CustomerController.ParseIdType | Backend/src/controllers/customerController.js:121-126 | a type is accepted exactly when it is one of `document_id`, `ruc`, `passport`, `final_consumer`, and it is stored under that name |
| CustomerController.ParseIdTypeName | Backend/src/controllers/customerController.js:121 | every identification type reads back from its own name |
| CustomerController.MatchesEmailPattern | Backend/src/controllers/customerController.js:139-140 | definition: the string is a non-empty run, `@`, a non-empty run, `.`, a non-empty run, no run holding `@` or a `\s` character (the regular expression read literally) |
| CustomerController.IsValidEmail | Backend/src/controllers/customerController.js:139-140 | definition: the check the model runs: the first `@` is not at the start, no `\s` character, no second `@`, and a `.` with a character on each side after the `@` |
| CustomerController.EmailCheckSound | Backend/src/controllers/customerController.js:138-145 | an e-mail the check accepts matches the regular expression |
| CustomerController.EmailCheckComplete | Backend/src/controllers/customerController.js:138-145 | an e-mail that matches the regular expression is accepted by the check |
| CustomerController.EmailCheckIsPattern | Backend/src/controllers/customerController.js:139-140 | the check and the regular expression agree on every string |
| CustomerController.NewCustomer | Backend/src/controllers/customerController.js:147-154 | the stored customer has the given fields, type `document_id` when none is given, and is active |
| CustomerController.MergeCustomer | Backend/src/controllers/customerController.js:214-222 | an empty body leaves the customer unchanged; a valid given type replaces the old one, an empty one keeps it |
| CustomerController.MergeCustomerIdempotent | Backend/src/controllers/customerController.js:214-222 | applying the same update twice equals applying it once |
| CustomerController.UpdateMayDeactivateFinalConsumer | Backend/src/controllers/customerController.js:214-222 | an update with `active: false` deactivates an active final consumer |
| CustomerController.CustomerMatches | Backend/src/controllers/customerController.js:18-32 | definition of the WHERE clause: every given filter holds (active flag, type name, search text in name, identification or e-mail ignoring case; a NULL e-mail matches no search) |
| CustomerController.UnfilteredListsAllCustomers | Backend/src/controllers/customerController.js:18-32 | with no active, type or search filter, every customer is selected |
| CustomerController.SearchNarrowsCustomers | Backend/src/controllers/customerController.js:24-30 | adding a search text only removes customers from the selection |
| CustomerController.GetCustomers | Backend/src/controllers/customerController.js:4-57 | page < 1 fails; otherwise only matching customers sorted by name, the slice at offset (page − 1) × limit; `from` = offset + 1, `to` = offset + rows; has_next exactly when rows remain after `to`; has_prev exactly when rows precede `from` |
| CustomerController.CustomerStore.GetCustomerById | Backend/src/controllers/customerController.js:66-82 | the customer under the id, NotFound exactly when there is none |
| CustomerController.CustomerStore.GetCustomerByIdentification | Backend/src/controllers/customerController.js:84-102 | NotFound exactly when no customer holds the identification; otherwise the one customer holding it |
| CustomerController.CustomerStore.GetFinalConsumer | Backend/src/controllers/customerController.js:260-279 | a customer of type `final_consumer`, NotFound exactly when there is none |
| CustomerController.CustomerStore.CreateCustomer | Backend/src/controllers/customerController.js:115-154 | checks in source order (identification and name required, valid type, new identification, well-formed e-mail); any refusal changes nothing; otherwise exactly one customer is added; identifications stay unique and stored e-mails well-formed |
| CustomerController.CustomerStore.UpdateCustomer | Backend/src/controllers/customerController.js:178-222 | NotFound for an unknown id; then in source order a changed identification already held, a malformed e-mail, or an invalid type is refused with nothing changed; otherwise only that customer changes, to the merge; the invariant is kept |
| CustomerController.CustomerStore.DeleteCustomer | Backend/src/controllers/customerController.js:237-249 | NotFound for an unknown id; a final consumer is refused; otherwise exactly that customer is removed |
| CustomerController.CustomerStore.ToggleCustomerStatus | Backend/src/controllers/customerController.js:285-297 | NotFound for an unknown id; an active final consumer is refused with nothing changed; otherwise only that customer's `active` flag flips (an inactive final consumer may be activated) |

## Left out

- HTTP transport, status codes as numbers, response messages, logging, the routes and the app set-up. Each operation's outcome is a `Result`.
- Floating point, `parseFloat`/`parseInt` of query strings and body fields, and DECIMAL(10,4)/DECIMAL(10,2) rounding of stored values. Quantities are exact reals; page and limit are already-parsed integers. Values out of range of those columns are modelled (`InsertFails`).
- A division by a zero ratio. Conversions require non-zero ratios of the target unit. Every listing requires `limit >= 1`, so `Math.ceil(count / limit)` never divides by zero.
- `convertGlobalUnits` (unitController.js:438-484). Its conversion lives in `Backend/models/Unit.js`, which is not part of this model.
- `getUnitById` (unitController.js:64-103). It is a plain lookup by key with no rule to model.
- `getCustomerStats` (customerController.js:308-333). It is SQL aggregation, and the code references a `sequelize` that is never imported.
- The single-row product-unit operations behind `productUnitController.js`, which is not part of this model.
- Joined unit data (`include: ['unit']`), display strings such as `"1 kg = 12 u"`, row uuids and timestamps.
- The price derivation for a row without a price override, the product's base price times the row's quantity. It is described only in a column comment and computed nowhere in this core.
- Validations declared in `Backend/models/Unit.js` and `Backend/models/Customer.js`, which are not part of this model. Without them, a new customer is active by default, and text fields are free.
- Concurrency between requests. Each operation runs to completion on its own.
- Tie order among rows with equal sort keys, which the database leaves unspecified. The model puts rows with equal keys in ascending id order. `getProductUnits` keeps table order within the base and the non-base rows.
- Unicode case folding and collation. ILIKE lower-cases ASCII letters only; ORDER BY compares code points. LIKE wildcards (`%`, `_`) inside the search text are taken literally.
- Non-string and null request fields. A text field is either a string (empty means falsy) or absent. A field sent as `null` is treated as absent.
- UnitController.UnitStore.CreateUnit: an undefined name or abbreviation makes Sequelize's `findOne` throw, which is a 500. The model instead looks up the empty string.
- UnitController.UnitStore.ConfigureProductUnits: an entry without `unit_id` breaks the NOT NULL constraint and is answered 500; entries always carry a unit id in the model, so that failure is not represented.
- UnitController.ConvertProductUnits: requires non-zero ratios for the product's rows, where the source would produce `Infinity`.
- UnitController.GetProductConversionTable: the table holds the conversion factor for each pair, not the unit names shown next to it.
- CustomerController.CustomerStore.GetFinalConsumer: which final consumer is returned when several exist is left open, as the database leaves it.
