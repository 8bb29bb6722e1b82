# Customer measurements service — a Dafny model

The service keeps one table of customer records (an id from the e-commerce
platform, a name, a gender and eleven body measurements). It offers three ways
to change that table:

- `route :get, :post, '/?:customer_id?'`. A GET looks a record up. A POST
  find-or-creates the record for `customer_id`, merges the supplied
  measurements, saves only when the record counts as changed, and emits one
  "measurements" metafield per supplied value.
- `post '/webhook/customer/create'`. The platform calls it when a customer is
  created. It find-or-creates the record, named "first last".
- `post '/webhook/customer/destroy'`. The platform calls it when a customer is
  deleted. It destroys the record.

A `before` filter runs ahead of both webhooks. It computes the HMAC check of
the request body and then parses the body as JSON.

The model is split into these modules:

| module | file | what it models |
|---|---|---|
| `Wrappers`, `Exceptions` | `wrappers.dfy` | `Option`, `Result`, and the exceptions the code can raise |
| `RubyText` | `ruby_text.dfy` | `String#blank?` (Unicode white space), `String#to_i` (with underscores between digits), `Integer#to_s`, and ActiveModel's numeric-text test |
| `CustomerModel` | `customer.dfy` | the `Customer` record, the `gender` enum, the `name` alias, the table name, how a raw value is cast on assignment, the 4-byte range of the integer columns, and the numeric dirty check |
| `Migration` | `migration.dfy` | the table `up` defines; `up` and `down` as methods of a `Catalog` class |
| `Store` | `store.dfy` | the rows, `find_by`, and INSERT/UPDATE/DELETE as methods of a `CustomerTable` class that keep the unique index and refuse an out-of-range weight |
| `RequestParams` | `params.dfy` | the request `params` hash, `params[k]`, and `slice(...).compact` |
| `App` | `app.dfy` | PARAMS, the GET and POST branches of the customer route, the metafields |
| `Webhooks` | `webhooks.dfy` | `verify_webhook`, the `before` filter, and the two webhook routes |

Rows are keyed by the primary key that the store assigns. `customer_id` is a
nullable attribute of the row. The unique index therefore allows several rows
whose `customer_id` is NULL. `find_by` is `LIMIT 1` without `ORDER BY`. For a
non-nil key the unique index leaves at most one row to return. For a nil key
the database may return any of the NULL rows. The model then returns the
one with the smallest primary key; see "## Left out".

The merge at app/app.rb:263 is modelled as its comments intend:
`assign_attributes params.slice(*PARAMS).compact`. The metafield loop at
app/app.rb:273 is modelled the same way. As written, both lines mean
something else; "## Left out" says what.

Saving follows ActiveModel's rules for the two integer columns. They have
the default 4-byte limit. A weight outside [-2^31, 2^31) raises
`ActiveModel::RangeError` when the INSERT or UPDATE is built, so nothing is
written. `changed?` also counts non-numeric text (such as "abc") assigned
over a non-nil weight as a change, even though it casts to the same 0.

Each route is a method on a `CustomerTable`. Its `ensures` ties the new table
to a specification function of the old table:

- `App.PostSpec` for POST;
- `Webhooks.CreateFromPayload` for the create webhook;
- `Webhooks.DestroyFromPayload` for the destroy webhook;
- `Webhooks.WebhookSpec` for the filter followed by a route.

The properties of each route are lemmas about these functions.

A ghost counter `CustomerTable.updates` counts the UPDATE statements issued.
It is what lets "no write" be stated as a postcondition.

## Model

| member | source | states |
|---|---|---|
| CustomerModel.GenderValue | app/models/customer.rb:22 | male is stored as 0 and female as 1, and the stored code decodes back to the same gender |
| CustomerModel.GenderOfValue | app/models/customer.rb:22 | a stored integer names a gender exactly when it is 0 or 1 |
| CustomerModel.GenderLabelRoundTrip | app/models/customer.rb:22 | the label of a gender decodes to that gender, and a label decodes to a gender only if it is that gender's label |
| CustomerModel.GenderCodeRoundTrip | app/models/customer.rb:22 | assigning a gender's label to `gender` never raises and stores that gender |
| CustomerModel.UnicodeSpaceIsBlank | app/models/customer.rb:22 | a no-break or ideographic space is blank, so `gender` and `weight` given only such a space cast to nil; a zero-width space is not blank |
| CustomerModel.Cast | app/models/customer.rb:22 | assigning a raw value raises exactly when it is a `gender` that is neither blank (Unicode white space counts as blank) nor a known label; a blank `gender` or `weight` is nil; a non-blank `weight` is its `to_i`; string columns keep the text; a cast value always fits its column |
| CustomerModel.CastOption | app/app.rb:241-254 | nil or a cast raw value always fits the attribute's column |
| CustomerModel.Assign | app/app.rb:263 | an assignment succeeds exactly when the cast does; it stores the cast value in that attribute and changes no other attribute |
| CustomerModel.Read | db/migrate/20140413221332_create_customers.rb:32-45 | the value read from an attribute always fits its column type (integer `gender` and `weight`, strings otherwise) |
| CustomerModel.Write | db/migrate/20140413221332_create_customers.rb:32-45 | writing a value to an attribute makes that attribute read back the value and leaves every other attribute as it was |
| CustomerModel.ReadDetermines | db/migrate/20140413221332_create_customers.rb:32-45 | two records whose attributes all read the same are the same record |
| CustomerModel.TextOfInjective | db/migrate/20140413221332_create_customers.rb:32-45 | a string column value (nil or text) is recovered from what is read |
| CustomerModel.AttributeName | db/migrate/20140413221332_create_customers.rb:32-45 | every attribute's column name resolves back to that attribute |
| CustomerModel.AttributeNameInjective | db/migrate/20140413221332_create_customers.rb:32-45 | distinct attributes have distinct column names |
| CustomerModel.NameReadsCustomerName | app/models/customer.rb:28 | reading `name` gives the value of `customer_name` |
| CustomerModel.NameWritesCustomerName | app/models/customer.rb:28 | writing `name` acts as writing `customer_name`: it never raises, sets `customer_name` to the value and changes nothing else |
| CustomerModel.StorableIsWeightInRange | db/migrate/20140413221332_create_customers.rb:34-36 | a record can be written exactly when every attribute's value lies in the 4-byte range of its column; only `weight` can be outside it, as `gender` is 0 or 1 |
| CustomerModel.NonNumericAssignmentIsStorable | db/migrate/20140413221332_create_customers.rb:36 | non-numeric text assigned to `weight` never raises and casts to nil (blank) or 0, a value the column can store |
| CustomerModel.NonNumericOverNumber | app/app.rb:264 | ActiveModel's `number_to_non_number?` for `weight`: the old weight is non-nil and the assigned text is not numeric, so the assignment counts as a change even when the value stays; such an assignment is storable (`CustomerModel.NonNumericAssignmentIsStorable`) |
| RubyText.DigitChar | app/app.rb:324 | the digit character for a number below 10 denotes that number |
| RubyText.NatString | app/app.rb:324 | the decimal text of a natural number is a non-empty run of digits, without a leading zero, denoting that number |
| RubyText.DecimalString | app/app.rb:324 | `Integer#to_s` is non-blank and `String#to_i` reads it back as the same integer |
| RubyText.Blank | app/app.rb:245 | `blank?` holds for text of Unicode white space only; its uses are stated by `CustomerModel.Cast` and `CustomerModel.UnicodeSpaceIsBlank` |
| RubyText.DropSpaces | app/app.rb:245 | `to_i` skips exactly the leading ASCII white space |
| RubyText.LeadingDigits | app/app.rb:245 | `to_i` reads only digits at the start of the text, a run of digits is read whole, and there is nothing to read exactly when the text does not start with a digit |
| RubyText.DigitsAfter | app/app.rb:245 | after the first digit, `to_i` keeps reading digits, each of which may follow a single underscore; a run of digits is read whole |
| RubyText.DropDecimalPrefix | app/app.rb:245 | `to_i`'s base-10 prefix: a leading `0d` or `0D` is dropped, and anything else, a string of digits in particular, is left as it is |
| RubyText.ToI | app/app.rb:245 | `String#to_i` is 0 for text that does not look numeric, and is the decimal value of a string of digits; the base-10 prefix it skips after the sign is stated by `RubyText.DecimalPrefixSkipped` and `RubyText.SignedDecimalPrefix` |
| RubyText.UnderscoreBetweenDigits | app/app.rb:245 | "1_000" reads as 1000: a single underscore between digits is skipped |
| RubyText.DoubledUnderscoreStops | app/app.rb:245 | "1__000" reads as 1: a doubled underscore ends the number |
| RubyText.LeadingUnderscoreIsZero | app/app.rb:245 | "_1" reads as 0: an underscore cannot start the number |
| RubyText.SignedWithUnderscore | app/app.rb:245 | " -2_5x" reads as -25: spaces, a sign and an underscore together |
| RubyText.DecimalPrefixSkipped | app/app.rb:245 | "0d12" reads as 12: the base-10 prefix is skipped |
| RubyText.SignedDecimalPrefix | app/app.rb:245 | " -0D7" reads as -7: spaces, a sign, then the capital prefix |
| RubyText.NumericText | app/app.rb:264 | ActiveModel's `NUMERIC_REGEX`, `/\A\s*[+-]?\d/`: after ASCII white space, a digit, or a sign and a digit; text that fails it reads as 0 (`RubyText.ToI`) and counts as a change over a number (`App.ReassignedWeightCountsAsChange`) |
| Migration.MigratedTableIsModelTable | db/migrate/20140413221332_create_customers.rb:21 | the table the migration creates is the model's table, "customer" (app/models/customer.rb:25) |
| Migration.CustomersTable | db/migrate/20140413221332_create_customers.rb:28-54 | the table `create_table` builds, with its columns and its one unique index; stated by `Migration.ColumnsAreAttributes` and `Migration.CustomerIdIndexIsUniqueAndNullable` |
| Migration.ColumnsAreAttributes | db/migrate/20140413221332_create_customers.rb:28-48 | the table has 17 columns: the `id` primary key, one nullable column per attribute in declaration order (integer for `gender` and `weight`, string otherwise), then the two non-null timestamps; every attribute has its column |
| Migration.AttributeColumnsInOrder | db/migrate/20140413221332_create_customers.rb:32-45 | columns 1 to 14 are the attribute columns, in declaration order |
| Migration.AttributeOrderDistinct | db/migrate/20140413221332_create_customers.rb:32-45 | no attribute is declared twice |
| Migration.AttributeOrderIsComplete | db/migrate/20140413221332_create_customers.rb:32-45 | every attribute is declared |
| Migration.CustomerIdIndexIsUniqueAndNullable | db/migrate/20140413221332_create_customers.rb:52 | the only index is the unique `customer_id_unique_index` on `customer_id`, and that column is nullable |
| Migration.Catalog.Up | db/migrate/20140413221332_create_customers.rb:27-55 | `up` adds the customer table with the definition above, and fails without change when the table already exists |
| Migration.Catalog.Down | db/migrate/20140413221332_create_customers.rb:61-63 | `down` removes the customer table and never fails |
| Migration.UpThenDown | db/migrate/20140413221332_create_customers.rb:27-63 | `up` then `down` on a catalog without the table succeeds and restores the catalog |
| Migration.DownTwice | db/migrate/20140413221332_create_customers.rb:61-63 | a second `down` changes nothing: the table stays absent |
| Store.UniqueCustomerIds | db/migrate/20140413221332_create_customers.rb:52 | `customer_id_unique_index`: no two rows share a non-nil `customer_id`, while any number may hold NULL; kept by `Store.InsertedWellFormed`, `Store.UpdatedWellFormed` and `Store.DeletedWellFormed` |
| Store.WellFormed | db/migrate/20140413221332_create_customers.rb:28-54 | the table's invariant: every primary key is below the next one, the unique index holds, and every stored weight fits the 4-byte integer column; established by `Store.CustomerTable.constructor` and kept by every write |
| Store.FirstMatch | app/app.rb:220 | the row found has the key and the smallest primary key of any row with the key; when none is found no row has the key |
| Store.Find | app/app.rb:220 | `find_by` returns, if anything, a row that holds the key |
| Store.FindSound | app/app.rb:220 | `find_by` finds a row exactly when some row has the key, and the row it finds has the key |
| Store.FindUnique | db/migrate/20140413221332_create_customers.rb:52 | for a non-nil key the unique index makes the row with that key the one `find_by` returns |
| Store.FindIsFirst | app/app.rb:220 | when several rows match, the model's `find_by` returns the one with the smallest primary key (the source leaves the choice to the database; see "## Left out") |
| Store.FindAfterUpdate | app/app.rb:264 | an UPDATE that keeps `customer_id` leaves `find_by` returning the same row |
| Store.FindAfterInsert | app/app.rb:255 | after an INSERT of a key no row had, `find_by` returns the new row |
| Store.InsertedWellFormed | db/migrate/20140413221332_create_customers.rb:52 | an INSERT of a storable record whose `customer_id` no row has keeps the unique index and the column ranges, and uses a fresh primary key |
| Store.UpdatedWellFormed | db/migrate/20140413221332_create_customers.rb:52 | a storable UPDATE that keeps a row's `customer_id` keeps the unique index and the column ranges |
| Store.DeletedWellFormed | app/app.rb:329 | a DELETE keeps the unique index |
| Store.CustomerTable.constructor | db/migrate/20140413221332_create_customers.rb:28-54 | the new table is empty and well formed |
| Store.CustomerTable.Insert | app/app.rb:255 | an INSERT of a weight outside its column's 4-byte range raises `RangeError` before any SQL; otherwise it fails with `RecordNotUnique` exactly when another row has the non-nil `customer_id`; a failed INSERT changes nothing; otherwise it adds the row under the next primary key; no UPDATE is counted |
| Store.CustomerTable.Update | app/app.rb:264 | an UPDATE of a weight outside its column's 4-byte range raises `RangeError` before any SQL and counts no UPDATE; otherwise one UPDATE is counted and it fails with `RecordNotUnique` exactly when another row has the non-nil `customer_id`; a failed UPDATE changes nothing; otherwise it replaces just that row |
| Store.CustomerTable.Delete | app/app.rb:329 | DELETE removes just that row |
| RequestParams.LookupSound | app/app.rb:212 | a key has an entry exactly when the hash holds it, and the entry is the one stored under it |
| RequestParams.HasKey | app/app.rb:235 | `required_params`' `has_key?`: the hash holds the key, whatever its value, nil included; stated by `RequestParams.LookupSound` and used by `App.PostRequiresCustomerId` |
| RequestParams.ParamValue | app/app.rb:241-254 | `params[k]`: nil when the key is absent or its value is nil, otherwise the value stored under it; stated by `RequestParams.LookupSound` and `RequestParams.LookupAt` |
| RequestParams.LookupAt | app/app.rb:212 | with distinct keys, each key's entry is the value stored under it |
| RequestParams.SliceCompact | app/app.rb:273 | `slice(*names).compact` holds only keys of `names` whose value is non-nil, with those values; it holds every such key, and no key twice when `names` has no repeats |
| App.ColumnNames | app/app.rb:40 | `column_names` gives one name per column, in column order |
| App.DeriveParams | app/app.rb:40 | `column_names.excluding("id", "created_at", "updated_at")`; its properties are stated by `App.DeriveParamsFilters` and `App.ParamsDerivedFromColumns` |
| App.DeriveParamsFilters | app/app.rb:40 | PARAMS holds only names of columns other than `id`/`created_at`/`updated_at`, and holds every such column |
| App.DeriveParamsAppend | app/app.rb:40 | the filter works column by column: on two concatenated lists it is the concatenation of its results |
| App.DeriveKeepsOtherColumns | app/app.rb:40 | when no column is `id` or a timestamp, the filter keeps every column name, in order |
| App.DeriveSkipsBookkeeping | app/app.rb:40 | `id` and the timestamps contribute nothing |
| App.DeriveFromLayout | app/app.rb:40 | for `id`, then data columns, then timestamps, PARAMS is the data column names |
| App.DataColumnsAreParams | app/app.rb:40 | the migrated table's data columns are named, in order, as PARAMS |
| App.ParamsDerivedFromColumns | app/app.rb:39-41 | PARAMS derived from the migrated table is exactly the 14 attribute column names, `customer_id` to `hips_seat` |
| App.ParamsAtBoot | app/app.rb:39-41 | PARAMS is defined exactly when the customer table exists, as its column names without `id` and the timestamps; stated by `App.ParamsAfterUp` |
| App.ParamsAfterUp | app/app.rb:39-41 | once `up` has run, the boot-time PARAMS is that list and contains `customer_id`; after `down`, PARAMS is not defined |
| App.ParamNameAt | app/app.rb:40 | the i-th PARAMS name is the i-th attribute column's name |
| App.ParamNamesCoverAttributes | app/app.rb:40 | PARAMS has 14 names, `customer_id` first, and names every attribute |
| App.ParamNamesAreAttributeNames | app/app.rb:40 | every PARAMS name is an attribute's own column name (not the alias), and no name repeats |
| App.CreateWithListsTheRest | app/app.rb:241-254 | the `create_with` hash lists every attribute except `customer_id`, each once |
| App.AssignEachReads | app/app.rb:241-255 | assigning listed attributes from params fails exactly when some value does not cast; it sets each listed attribute to its cast parameter (nil when absent) and keeps the rest |
| App.CreateWithRecord | app/app.rb:241-255 | a created record has the looked-up `customer_id` and every other attribute cast from its parameter (nil when absent or nil); it fails exactly when `gender` is an invalid label |
| App.CreateWith | app/app.rb:241-255 | the record `find_or_create_by` builds when no row matches; its properties are stated by `App.CreateWithRecord` and `App.CreateWithKeepsKey` |
| App.CreatedWeight | app/app.rb:245 | the created record holds the cast `weight` parameter |
| App.CreateWithRecordOk | app/app.rb:241-255 | building the created record fails exactly when `gender` is an invalid label |
| App.CreateWithKeepsKey | app/app.rb:255 | the created record carries the `customer_id` it was created for |
| App.MergeReads | app/app.rb:259-263 | the merge overwrites exactly the attributes whose parameter is non-nil and keeps the others; it fails exactly when such a parameter does not cast |
| App.Merge | app/app.rb:263 | `assign_attributes params.slice(*PARAMS).compact`; its properties are stated by `App.MergeReads`, `App.MergeParams` and `App.MergeIdempotent` |
| App.MergeParams | app/app.rb:259-263 | merging PARAMS fails only on an invalid `gender`; otherwise a supplied non-nil field gets its cast value and an absent or nil field keeps its value |
| App.MergeIdempotent | app/app.rb:263 | merging the same parameters twice is merging them once |
| App.MergeKeepsCustomerId | app/app.rb:263 | the merge never changes `customer_id` of the row found for `params[:customer_id]` |
| App.CreateThenMergeUnchanged | app/app.rb:255-263 | right after creation the merge gives back the created record unchanged |
| App.MergedWeightIsCast | app/app.rb:263 | after the merge, `weight` holds the cast of a non-nil `weight` parameter |
| App.MergeOfCurrentValues | app/app.rb:263 | merging values a row already holds gives the row back |
| App.Measurements | app/app.rb:273-275 | one "measurements" string metafield per entry, in order, with that entry's key and value |
| App.Metafields | app/app.rb:273-275 | the metafields a POST emits: `Measurements` of the compacted PARAMS slice; stated by `App.MetafieldsExactly` and computed by the loop `App.EmitMetafields` |
| App.EmitMetafields | app/app.rb:273-275 | the loop over `params.slice(*PARAMS).compact` emits exactly the specified metafield list |
| App.MetafieldsExactly | app/app.rb:273-275 | each metafield is a "measurements" string entry whose key is in PARAMS and whose value is that parameter's; every PARAMS parameter with a non-nil value has one; no key has two; no key outside PARAMS has one |
| App.Get | app/app.rb:209-222 | `favicon.ico` gives 404 and nothing else does; without `customer_id` nothing is shown; otherwise the result is the row with that `customer_id`, or nil exactly when no row has it; the table is not modified |
| App.Post | app/app.rb:231-275 | POST leaves the table, answer and metafields that `PostSpec` gives, keeps the store invariant (unique index, column ranges), and counts one UPDATE exactly when `PostSpec` says one is issued |
| App.Reconcile | app/app.rb:263-264 | the merge and `@customer.update if @customer.changed?`; its properties are stated by `App.ReconcileResult`, `App.ReconcileFrame`, `App.ReconcileIdempotent` and `App.ReconcileSettled` |
| App.MergeChanged | app/app.rb:264 | `@customer.changed?` after the merge: some value differs from the found row, or the `weight` parameter is non-numeric text over a non-nil weight; `App.ReconcileResult` issues the UPDATE exactly then, and `App.NonNumericWeightOverZeroIsWritten` shows the second case |
| App.PostSpec | app/app.rb:231-275 | the whole POST branch: the JSON key check, `find_or_create_by`, the merge, the UPDATE, the metafields; its properties are stated by the `App.Post*` lemmas below |
| App.PostOfFound | app/app.rb:255-264 | a POST that finds a row is the merge step on that row |
| App.PostOfCreated | app/app.rb:241-264 | a POST that creates a storable record is the merge step on the new row |
| App.PostOfUnstorableCreate | app/app.rb:241-255 | a POST whose new record has an out-of-range weight answers the range error and changes nothing |
| App.ReconcileResult | app/app.rb:263-264 | the merge step answers with the merged record and stores it; it issues an UPDATE exactly when the record counts as changed (some attribute changed, or non-numeric text was assigned over a non-nil weight); a failed merge, or an UPDATE refused for its weight's range (answered with that `RangeError`), changes nothing and emits nothing |
| App.ReassignedWeightCountsAsChange | app/app.rb:264 | given a weight just cast from the `weight` parameter, assigning that parameter again counts as a change exactly when it is non-blank, non-numeric text; the weight is then 0 and storable |
| App.ReconcileSettled | app/app.rb:263-264 | a row that already holds its merge keeps its value and is rendered with the usual metafields; an UPDATE of the same row is issued only for a non-numeric `weight` |
| App.ReconcileFrame | app/app.rb:263-264 | the merge step touches only the found row: no row is added or removed and no other row changes |
| App.ReconcileKeepsFind | app/app.rb:263-264 | after the merge step `find_by` still returns the same row |
| App.ReconcileIdempotent | app/app.rb:263-264 | a second merge step changes nothing and answers the same; it issues an UPDATE again exactly when the `weight` parameter is non-blank, non-numeric text |
| App.PostRequiresCustomerId | app/app.rb:235 | a JSON POST without `customer_id` is answered 400 with the table untouched and no metafields |
| App.PostNilCustomerIdIsNotRefused | app/app.rb:235 | a JSON POST whose `customer_id` is present but nil is not refused: it goes on as a non-JSON POST does |
| App.CreatedThenSettled | app/app.rb:241-264 | the merge into a just-inserted row finds it settled: same row and answer, UPDATE only for a non-numeric `weight` |
| App.PostCreatesWhenAbsent | app/app.rb:241-264 | for an unknown `customer_id`, POST inserts exactly one row under the next primary key, holding that `customer_id` and every other attribute from its parameter (nil when absent); an invalid `gender` inserts nothing; a weight outside the range answers `RangeError` and changes nothing; an UPDATE follows exactly when the `weight` parameter is non-numeric text |
| App.PostMergesWhenPresent | app/app.rb:255-264 | for a known `customer_id`, POST inserts nothing and ignores the `create_with` values; the merged record has the non-nil PARAMS values and keeps the rest; no other row changes; an UPDATE is issued exactly when the record counts as changed and its weight is in range; an out-of-range weight answers `RangeError` and changes nothing; otherwise the answer is the merged record, which the row then holds |
| App.PostIdempotent | app/app.rb:231-275 | repeating a successful POST changes nothing and answers and emits as the first did; it issues an UPDATE exactly when the `weight` parameter is non-blank, non-numeric text |
| App.PostCurrentValuesNoWrite | app/app.rb:263-264 | POSTing a row's current values (or a subset) leaves the table as it was, and issues an UPDATE exactly when non-numeric text is given over a non-nil weight |
| App.PostKeepsWellFormed | db/migrate/20140413221332_create_customers.rb:52 | a POST never makes two rows share a non-nil `customer_id`, and never stores a weight outside its column's range |
| App.ReconcileKeepsWellFormed | db/migrate/20140413221332_create_customers.rb:52 | the merge step on the row `find_by` returned keeps the store invariant |
| App.CreateKeepsWellFormed | db/migrate/20140413221332_create_customers.rb:52 | the create path of a POST keeps the store invariant |
| App.OutOfRangeWeightIsRefused | db/migrate/20140413221332_create_customers.rb:36 | a new customer whose `weight` text reads outside [-2^31, 2^31) gets the range error and is not stored |
| App.NonNumericWeightOverZeroIsWritten | app/app.rb:264 | a row with weight 0 POSTed `weight=abc` is sent an UPDATE although no value changes |
| Webhooks.VerifyWebhook | app/app.rb:180-183 | the check fails only when the header is missing; it is true exactly when the header is the Base64 of the HMAC-SHA256 of the body under the shared secret; it is a pure function |
| Webhooks.AtMostOneHeaderVerifies | app/app.rb:180-183 | at most one header value verifies a given body |
| Webhooks.HeaderValueIsIgnored | app/app.rb:310-320 | any header that is present lets the request through with the same outcome, so a forged header acts like a genuine one; a missing header makes the filter raise and changes nothing |
| Webhooks.NumericIdsAreDistinct | app/app.rb:324 | distinct numeric payload ids select distinct `customer_id`s |
| Webhooks.NumericIdIsItsDecimalString | app/app.rb:324 | a numeric payload id selects the same `customer_id` as its decimal string, and `to_i` recovers the number |
| Webhooks.CustomerIdOf | app/app.rb:324 | the payload `id` becomes a nil `customer_id` exactly when it is null; a string is kept; a number becomes text whose `to_i` is that number |
| Webhooks.FullName | app/app.rb:324 | `[first_name, last_name].join(" ")`; its properties are stated by `Webhooks.FullNameOfMissingNames` and `Webhooks.FullNameOfStrings` |
| Webhooks.FullNameOfMissingNames | app/app.rb:324 | a payload with neither name still gives `customer_name` " " |
| Webhooks.FullNameOfStrings | app/app.rb:324 | two string names join as the first name, one space, the last name |
| Webhooks.CreateFromPayload | app/app.rb:323-325 | the table the create route leaves; its properties are stated by `Webhooks.CreateKeepsExisting`, `Webhooks.CreateInsertsOne` and `Webhooks.CreateIdempotent` |
| Webhooks.DestroyFromPayload | app/app.rb:328-330 | the outcome of the destroy route; its properties are stated by `Webhooks.DestroyRemovesOnlyThatRow`, `Webhooks.DestroyUnknownFails` and `Webhooks.DestroyTwiceFails` |
| Webhooks.WebhookSpec | app/app.rb:310-330 | the filter followed by a route; its properties are stated by `Webhooks.HeaderValueIsIgnored` and `Webhooks.WebhookKeepsWellFormed` |
| Webhooks.Create | app/app.rb:323-325 | the create route leaves the table that `CreateFromPayload` gives, keeps the unique index, and issues no UPDATE |
| Webhooks.Destroy | app/app.rb:328-330 | the destroy route answers and leaves the table as `DestroyFromPayload` gives, keeps the unique index, and issues no UPDATE |
| Webhooks.Webhook | app/app.rb:310-330 | a webhook request answers and leaves the table as `WebhookSpec` gives (header check, then the route) |
| Webhooks.CreateKeepsExisting | app/app.rb:324 | create leaves the table untouched when a row has the payload `id` |
| Webhooks.CreateInsertsOne | app/app.rb:324 | for an unknown `id`, create inserts exactly one row under the next primary key, with that `customer_id`, `customer_name` = first name, a space, last name, and every other attribute nil; `find_by` then finds it |
| Webhooks.CreateIdempotent | app/app.rb:324 | a repeated create webhook changes nothing |
| Webhooks.DestroyRemovesOnlyThatRow | app/app.rb:329 | destroy succeeds and removes exactly the row `find_by` returns, leaving every other row as it was; for a non-nil `id` no row with it remains |
| Webhooks.DestroyUnknownFails | app/app.rb:329 | destroying an `id` no row has raises `NoMethodError` and changes nothing |
| Webhooks.DestroyTwiceFails | app/app.rb:329 | a second destroy for the same non-nil `id` fails: destroy is not idempotent |
| Webhooks.CreateThenDestroy | app/app.rb:323-330 | creating an unknown customer and then destroying it restores the rows |
| Webhooks.WebhookKeepsWellFormed | db/migrate/20140413221332_create_customers.rb:52 | neither webhook makes two rows share a non-nil `customer_id` |

## Left out

- App.Merge, App.Metafields, App.EmitMetafields and App.MetafieldsExactly model `params.slice(*PARAMS).compact`, as the comments at app/app.rb:259-262 and 270-272 intend. The code as written passes PARAMS as one key, `params.slice(PARAMS)`, at app/app.rb:263 and again at 273. Such a slice is always empty.
- The POST as written is not modelled. At app/app.rb:263, `compact!` on the empty slice returns nil, and `assign_attributes(nil)` raises `ArgumentError`. So every POST as written ends in a server error. It raises after `find_or_create_by`, which may already have inserted the row. The lines after it never run.
- Post: `@customer.update` with no arguments (app/app.rb:264) would also raise `ArgumentError`. The model reads it as saving the changed record (`save`), which is what the comment at app/app.rb:259-260 describes.
- Route I/O is not modelled: reading the request body, JSON parsing, content negotiation, the 400/404 pages, `respond_to` and `to_json` (app/app.rb:281-284, 313-318), and the `puts` logging (app/app.rb:237, 257). The parsed `params` hash and the parsed JSON object are inputs of the model.
- `Webhooks.Json`: JSON floats, arrays and nested objects in a payload are not modelled. Only null, booleans, integers and strings are.
- Calls to the e-commerce platform's API are not modelled: `ShopifyAPI::Customer.find`, `add_metafield`, and the webhook registration and credentials (app/app.rb:139-145, 268-275). The metafields are returned as a list. The route does not send them.
- `Webhooks.VerifyWebhook`: HMAC-SHA256 and Base64 (section 4 of RFC 4648) are uninterpreted function parameters. `secure_compare` is modelled as plain string equality, so its constant-time behaviour cannot be stated. The exception a missing header raises is `TypeError`, as `secure_compare` of Rails 6.0 and earlier raises it (`Digest::SHA256.hexdigest(nil)`); Rails 6.1 and later raise `NoMethodError` (`nil.bytesize`) instead. The Rails version is not fixed by the sources; either way the request fails and nothing changes.
- Framework configuration is not modelled: assets, Sprockets, views, CORS, CSRF and the reloader (app/app.rb:63-157).
- The primary key values and the `created_at` and `updated_at` timestamps are assigned by the store. They are not part of the `Customer` record. The primary key is modelled as the next free natural number.
- Concurrent requests, and two inserts racing on the unique index, are not modelled. Requests are sequential.
- The routes use `App.ParamNames` for PARAMS. So they assume the table existed when the application booted. `App.ParamsAfterUp` shows that this list is what the boot-time derivation of app/app.rb:39-41 yields once `up` has run. Without the table, PARAMS is undefined and the routes would fail. That failure is not modelled.
- `App.Get` does not model the rendering of `@customer`. It returns the record, or nil, for the view to render.
- Store.Find: `find_by` is `LIMIT 1` without `ORDER BY`. When several rows have a NULL `customer_id`, the source leaves to the database which one a POST merges into or a destroy webhook removes. The model picks the smallest primary key (Store.FindIsFirst). For a non-nil key there is only one candidate (Store.FindUnique), so nothing is lost there.
- App.PostSpec: the route pattern `'/?:customer_id?'` may itself put `customer_id` into `params` with a nil value when the path has no segment. That would make the JSON 400 branch at app/app.rb:235 unreachable. The router is not modelled; `params` is an input. App.PostNilCustomerIdIsNotRefused shows what follows when the key is present with a nil value: the request is not refused and goes on as a non-JSON request.
- `CustomerModel.Cast` takes text only. Array and hash parameter values, which Rack's nested-query parsing gives for `weight[]=1` or `weight[a]=1`, are not modelled; nor are ActiveModel's casts of a `Numeric` or boolean value.
- The table is keyed by the store's primary key, not by `customer_id`. `customer_id` is nullable, so a POST without `customer_id` (allowed when the request does not accept JSON) can find or create a row whose `customer_id` is NULL.
- Destroying an unknown id raises `NoMethodError` (`nil.destroy`) instead of doing nothing, as app/app.rb:329 is written.
- The `verified` result at app/app.rb:315 is computed and then ignored. The model adds no authentication gate. Only a missing header, which makes `secure_compare` raise, stops a webhook request.
