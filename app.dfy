/**
 * The customer route `route :get, :post, '/?:customer_id?'`: the lookup a GET
 * performs, and the find-or-create then partial merge a POST performs, with
 * the metafields the POST hands to the e-commerce platform.
 */
module App {
  import opened Wrappers
  import opened Exceptions
  import opened CustomerModel
  import opened Migration
  import opened Store
  import opened RequestParams
  import opened RubyText

  /*
   * PARAMS
   */

  /** The store-maintained columns that PARAMS leaves out. */
  const Bookkeeping: set<string> := {"id", "created_at", "updated_at"}

  /** `column_names.excluding("id", "created_at", "updated_at")`, in column order. */
  function DeriveParams(cols: seq<Column>): seq<string> {
    if cols == [] then []
    else (if cols[0].name in Bookkeeping then [] else [cols[0].name]) + DeriveParams(cols[1..])
  }

  /**
   * PARAMS keeps exactly the column names that are not bookkeeping columns:
   * every name it holds is such a column name, and every such column is in it.
   */
  lemma {:induction false} DeriveParamsFilters(cols: seq<Column>)
    ensures |DeriveParams(cols)| <= |cols|
    ensures forall n :: n in DeriveParams(cols) ==> n !in Bookkeeping && n in ColumnNames(cols)
    ensures forall i :: 0 <= i < |cols| && cols[i].name !in Bookkeeping ==> cols[i].name in DeriveParams(cols)
  {
    if cols != [] {
      DeriveParamsFilters(cols[1..]);
      assert forall i :: 1 <= i < |cols| ==> cols[1..][i - 1] == cols[i];
      assert ColumnNames(cols) == [cols[0].name] + ColumnNames(cols[1..]);
    }
  }

  /** `column_names`. */
  function ColumnNames(cols: seq<Column>): (names: seq<string>)
    ensures |names| == |cols|
    ensures forall i :: 0 <= i < |cols| ==> names[i] == cols[i].name
  {
    if cols == [] then []
    else
      var rest := ColumnNames(cols[1..]);
      assert forall i :: 1 <= i < |cols| ==> cols[1..][i - 1] == cols[i];
      [cols[0].name] + rest
  }

  /**
   * `PARAMS`: the attribute column names in column order. That this is what
   * `DeriveParams` yields on the migrated table is ParamsDerivedFromColumns.
   */
  const ParamNames: seq<string> :=
    [ "customer_id", "customer_name", "gender", "height", "weight", "neck", "shoulder_width",
      "sleeve_length", "bicep_circumference", "wrist_circumference", "chest_bust_circumference",
      "waist_circumference", "lower_waist", "hips_seat" ]

  /** `PARAMS` as the application defines it at boot: only when the table exists. */
  function ParamsAtBoot(tables: map<string, TableDef>): Option<seq<string>> {
    if TableName in tables then Some(DeriveParams(tables[TableName].columns)) else None
  }

  predicate Distinct(names: seq<string>) {
    forall i, j :: 0 <= i < j < |names| ==> names[i] != names[j]
  }

  /** Every name denotes an attribute and is that attribute's column name (no alias). */
  predicate Canonical(names: seq<string>) {
    forall n :: n in names ==> AttributeOfName(n).Some? && AttributeName(AttributeOfName(n).value) == n
  }

  lemma {:induction false} DeriveParamsAppend(xs: seq<Column>, ys: seq<Column>)
    ensures DeriveParams(xs + ys) == DeriveParams(xs) + DeriveParams(ys)
  {
    if xs == [] {
      assert xs + ys == ys;
    } else {
      var zs := xs + ys;
      assert zs[0] == xs[0];
      assert zs[1..] == xs[1..] + ys;
      DeriveParamsAppend(xs[1..], ys);
    }
  }

  /** Columns that are not bookkeeping columns all pass into PARAMS, in order. */
  lemma {:induction false} DeriveKeepsOtherColumns(cols: seq<Column>)
    requires forall i :: 0 <= i < |cols| ==> cols[i].name !in Bookkeeping
    ensures DeriveParams(cols) == ColumnNames(cols)
  {
    if cols != [] {
      assert forall i :: 0 <= i < |cols[1..]| ==> cols[1..][i] == cols[i + 1];
      DeriveKeepsOtherColumns(cols[1..]);
    }
  }

  /** The i-th name of PARAMS is the name of the i-th attribute column. */
  lemma ParamNameAt(i: nat)
    requires i < 14
    ensures i < |ParamNames| && ParamNames[i] == AttributeName(AttributeOrder[i])
  {
    if i < 7 {
      if i == 0 { assert ParamNames[0] == AttributeName(CustomerId); }
      else if i == 1 { assert ParamNames[1] == AttributeName(CustomerName); }
      else if i == 2 { assert ParamNames[2] == AttributeName(GenderCode); }
      else if i == 3 { assert ParamNames[3] == AttributeName(Height); }
      else if i == 4 { assert ParamNames[4] == AttributeName(Weight); }
      else if i == 5 { assert ParamNames[5] == AttributeName(Neck); }
      else { assert ParamNames[6] == AttributeName(ShoulderWidth); }
    } else {
      if i == 7 { assert ParamNames[7] == AttributeName(SleeveLength); }
      else if i == 8 { assert ParamNames[8] == AttributeName(BicepCircumference); }
      else if i == 9 { assert ParamNames[9] == AttributeName(WristCircumference); }
      else if i == 10 { assert ParamNames[10] == AttributeName(ChestBustCircumference); }
      else if i == 11 { assert ParamNames[11] == AttributeName(WaistCircumference); }
      else if i == 12 { assert ParamNames[12] == AttributeName(LowerWaist); }
      else { assert ParamNames[13] == AttributeName(HipsSeat); }
    }
  }

  /** Bookkeeping columns contribute nothing to PARAMS. */
  lemma {:induction false} DeriveSkipsBookkeeping(cols: seq<Column>)
    requires forall i :: 0 <= i < |cols| ==> cols[i].name in Bookkeeping
    ensures DeriveParams(cols) == []
  {
    if cols != [] {
      assert forall i :: 0 <= i < |cols[1..]| ==> cols[1..][i] == cols[i + 1];
      DeriveSkipsBookkeeping(cols[1..]);
    }
  }

  /** A table laid out as a bookkeeping column, data columns, bookkeeping columns yields the data column names. */
  lemma DeriveFromLayout(head: Column, middle: seq<Column>, tail: seq<Column>)
    requires head.name in Bookkeeping
    requires forall i :: 0 <= i < |middle| ==> middle[i].name !in Bookkeeping
    requires forall i :: 0 <= i < |tail| ==> tail[i].name in Bookkeeping
    ensures DeriveParams([head] + (middle + tail)) == ColumnNames(middle)
  {
    var cols := [head] + (middle + tail);
    assert cols[0] == head;
    assert cols[1..] == middle + tail;
    DeriveParamsAppend(middle, tail);
    DeriveSkipsBookkeeping(tail);
    DeriveKeepsOtherColumns(middle);
  }

  /** The data columns of the migrated table carry the names of PARAMS, in order. */
  lemma DataColumnNames(cols: seq<Column>)
    requires |cols| == 17
    requires forall i :: 1 <= i <= 14 ==> cols[i] == AttributeColumn(AttributeOrder[i - 1])
    ensures forall i :: 0 <= i < 14 ==> cols[1..15][i].name !in Bookkeeping
    ensures forall i :: 0 <= i < 14 ==> ColumnNames(cols[1..15])[i] == ParamNames[i]
  {
    forall i | 0 <= i < 14 ensures cols[i + 1].name !in Bookkeeping && cols[i + 1].name == ParamNames[i] {
      assert AttributeOfName(cols[i + 1].name).Some?;
      ParamNameAt(i);
    }
  }

  lemma EqualsParamNames(xs: seq<string>)
    requires |xs| == 14
    requires forall i :: 0 <= i < 14 ==> xs[i] == ParamNames[i]
    ensures xs == ParamNames
  {
  }

  /** The data columns of the migrated table are named, in order, as PARAMS. */
  lemma DataColumnsAreParams(cols: seq<Column>)
    requires |cols| == 17
    requires forall i :: 1 <= i <= 14 ==> cols[i] == AttributeColumn(AttributeOrder[i - 1])
    ensures forall i :: 0 <= i < 14 ==> cols[1..15][i].name !in Bookkeeping
    ensures ColumnNames(cols[1..15]) == ParamNames
  {
    DataColumnNames(cols);
    EqualsParamNames(ColumnNames(cols[1..15]));
  }

  /** The split of a 17-column table into `id`, data columns and timestamps. */
  lemma TableLayout(cols: seq<Column>)
    requires |cols| == 17 && cols[0].name == "id"
    requires cols[15].name == "created_at" && cols[16].name == "updated_at"
    ensures cols == [cols[0]] + (cols[1..15] + cols[15..])
    ensures cols[0].name in Bookkeeping
    ensures forall i :: 0 <= i < |cols[15..]| ==> cols[15..][i].name in Bookkeeping
  {
    assert cols[15..][0] == cols[15];
    assert cols[15..][1] == cols[16];
  }

  /** The `id` column, data columns, then the two timestamps: PARAMS is the data column names. */
  lemma DeriveFromTimestampedTable(cols: seq<Column>)
    requires |cols| == 17 && cols[0].name == "id"
    requires forall i :: 0 <= i < 14 ==> cols[1..15][i].name !in Bookkeeping
    requires cols[15].name == "created_at" && cols[16].name == "updated_at"
    ensures DeriveParams(cols) == ColumnNames(cols[1..15])
  {
    TableLayout(cols);
    DeriveFromLayout(cols[0], cols[1..15], cols[15..]);
  }

  /** `PARAMS` derived from the migrated table's columns is ParamNames. */
  lemma ParamsDerivedFromColumns()
    ensures DeriveParams(CustomersTable().columns) == ParamNames
  {
    ColumnsAreAttributes();
    DataColumnsAreParams(CustomersTable().columns);
    DeriveFromTimestampedTable(CustomersTable().columns);
  }

  /** PARAMS names every attribute, `customer_id` first. */
  lemma ParamNamesCoverAttributes()
    ensures |ParamNames| == 14 && ParamNames[0] == "customer_id"
    ensures forall a :: AttributeName(a) in ParamNames
  {
    forall a ensures AttributeName(a) in ParamNames {
      AttributeOrderIsComplete(a);
      var i :| 0 <= i < 14 && AttributeOrder[i] == a;
      ParamNameAt(i);
    }
  }

  /** Every name in PARAMS denotes its own attribute, and no name repeats. */
  lemma ParamNamesAreAttributeNames()
    ensures Canonical(ParamNames) && Distinct(ParamNames)
  {
    forall n | n in ParamNames ensures AttributeOfName(n).Some? && AttributeName(AttributeOfName(n).value) == n {
      var i :| 0 <= i < |ParamNames| && ParamNames[i] == n;
      ParamNameAt(i);
    }
    forall i, j | 0 <= i < j < |ParamNames| ensures ParamNames[i] != ParamNames[j] {
      ParamNameAt(i);
      ParamNameAt(j);
      AttributeOrderDistinct(i, j);
      AttributeNameInjective(AttributeOrder[i], AttributeOrder[j]);
    }
  }

  /** Once `up` has created the table, the boot-time PARAMS is ParamNames, which holds `customer_id`. */
  lemma ParamsAfterUp(tables: map<string, TableDef>)
    ensures ParamsAtBoot(tables[MigratedTable := CustomersTable()]) == Some(ParamNames)
    ensures ParamsAtBoot(tables - {MigratedTable}) == None
    ensures "customer_id" in ParamNames
  {
    ParamsDerivedFromColumns();
    ParamsOfTable(tables[MigratedTable := CustomersTable()], CustomersTable());
    assert ParamNames[0] == "customer_id";
  }

  lemma ParamsOfTable(tables: map<string, TableDef>, def: TableDef)
    requires TableName in tables && tables[TableName] == def
    ensures ParamsAtBoot(tables) == Some(DeriveParams(def.columns))
  {
  }

  /*
   * create_with(...).find_or_create_by(customer_id: params[:customer_id])
   */

  /** The attributes the `create_with` hash lists, in its order. */
  const CreateWithAttributes: seq<Attribute> := AttributeOrder[1..]

  /** `create_with` lists every attribute but `customer_id`, each once. */
  lemma CreateWithListsTheRest()
    ensures forall i, j :: 0 <= i < j < |CreateWithAttributes| ==> CreateWithAttributes[i] != CreateWithAttributes[j]
    ensures forall a :: a in CreateWithAttributes <==> a != CustomerId
  {
    var attrs := CreateWithAttributes;
    forall i, j | 0 <= i < j < |attrs| ensures attrs[i] != attrs[j] {
      AttributeOrderDistinct(i + 1, j + 1);
    }
    forall a ensures a in attrs <==> a != CustomerId {
      AttributeOrderIsComplete(a);
    }
  }

  /** A non-nil raw value for `a` that fails to cast (only an invalid `gender` does). */
  predicate Rejects(a: Attribute, raw: Option<string>) {
    CastOption(a, raw).Err?
  }

  /** The value an attribute holds after being assigned `raw` (nil stays nil). */
  function AssignedValue(a: Attribute, raw: Option<string>): Value {
    match CastOption(a, raw)
    case Ok(v) => v
    case Err(_) => Nil
  }

  /** Each attribute of `attrs` assigned `params[name]`, nil when absent, in order. */
  function AssignEach(c: Customer, ps: seq<Param>, attrs: seq<Attribute>): Result<Customer, Error>
    decreases |attrs|
  {
    if attrs == [] then Ok(c)
    else
      match Assign(c, attrs[0], ParamValue(ps, AttributeName(attrs[0])))
      case Err(e) => Err(e)
      case Ok(d) => AssignEach(d, ps, attrs[1..])
  }

  lemma {:induction false} AssignEachReads(c: Customer, ps: seq<Param>, attrs: seq<Attribute>)
    requires forall i, j :: 0 <= i < j < |attrs| ==> attrs[i] != attrs[j]
    ensures AssignEach(c, ps, attrs).Ok? <==>
      (forall a :: a in attrs ==> !Rejects(a, ParamValue(ps, AttributeName(a))))
    ensures AssignEach(c, ps, attrs).Ok? ==>
      forall a :: Read(AssignEach(c, ps, attrs).value, a) ==
        (if a in attrs then AssignedValue(a, ParamValue(ps, AttributeName(a))) else Read(c, a))
    decreases |attrs|
  {
    if attrs != [] {
      var a0 := attrs[0];
      assert forall a :: a in attrs <==> a == a0 || a in attrs[1..];
      assert a0 !in attrs[1..];
      match Assign(c, a0, ParamValue(ps, AttributeName(a0)))
      case Err(e) =>
      case Ok(d) =>
        AssignEachReads(d, ps, attrs[1..]);
    }
  }

  /** The record `find_or_create_by` builds when no row matches: `customer_id` = key, the rest from params. */
  function CreateWith(key: Option<string>, ps: seq<Param>): Result<Customer, Error> {
    AssignEach(NewCustomer.(customerId := key), ps, CreateWithAttributes)
  }

  /**
   * The created record has `customer_id` = key and every other attribute
   * cast from its parameter, nil when the parameter is absent or nil; its
   * creation fails exactly when the `gender` parameter is not a valid label.
   */
  lemma CreateWithRecord(key: Option<string>, ps: seq<Param>)
    ensures CreateWith(key, ps).Ok? <==> !Rejects(GenderCode, ParamValue(ps, "gender"))
    ensures CreateWith(key, ps).Ok? ==> Read(CreateWith(key, ps).value, CustomerId) == TextOf(key)
    ensures CreateWith(key, ps).Ok? ==> forall a :: a != CustomerId ==>
      Read(CreateWith(key, ps).value, a) == AssignedValue(a, ParamValue(ps, AttributeName(a)))
  {
    CreateWithListsTheRest();
    AssignEachReads(NewCustomer.(customerId := key), ps, CreateWithAttributes);
  }

  /*
   * @customer.assign_attributes params.slice(*PARAMS).compact
   */

  /** `params[name]` either is nil or casts for the attribute it names. */
  predicate Accepts(ps: seq<Param>, name: string) {
    match ParamValue(ps, name)
    case None => true
    case Some(v) => AttributeOfName(name).Some? && Cast(AttributeOfName(name).value, v).Ok?
  }

  /** Assign `params[name]` when it is not nil. */
  function MergeOne(c: Customer, ps: seq<Param>, name: string): Result<Customer, Error> {
    match ParamValue(ps, name)
    case Some(v) => AssignAttribute(c, name, Some(v))
    case None => Ok(c)
  }

  /** The permitted parameters with a non-nil value, assigned in order. */
  function Merge(c: Customer, ps: seq<Param>, names: seq<string>): Result<Customer, Error>
    decreases |names|
  {
    if names == [] then Ok(c)
    else
      match MergeOne(c, ps, names[0])
      case Err(e) => Err(e)
      case Ok(d) => Merge(d, ps, names[1..])
  }

  /** What the merge leaves in an attribute: the cast non-nil parameter, or the current value. */
  function MergedValue(a: Attribute, raw: Option<string>, current: Value): Value {
    match raw
    case None => current
    case Some(v) => if Cast(a, v).Ok? then Cast(a, v).value else current
  }

  /**
   * The merge overwrites exactly the attributes whose permitted parameter is
   * non-nil and keeps every other attribute; it fails exactly when one of those
   * parameters does not cast.
   */
  lemma {:induction false} MergeReads(c: Customer, ps: seq<Param>, names: seq<string>)
    requires Canonical(names) && Distinct(names)
    ensures Merge(c, ps, names).Ok? <==> (forall n :: n in names ==> Accepts(ps, n))
    ensures Merge(c, ps, names).Ok? ==>
      forall a :: Read(Merge(c, ps, names).value, a) ==
        (if AttributeName(a) in names then MergedValue(a, ParamValue(ps, AttributeName(a)), Read(c, a)) else Read(c, a))
    decreases |names|
  {
    if names != [] {
      var n := names[0];
      var a0 := AttributeOfName(n).value;
      assert forall m :: m in names <==> m == n || m in names[1..];
      assert n !in names[1..] by {
        forall k | 0 <= k < |names[1..]| ensures names[1..][k] != n {
          assert names[1..][k] == names[k + 1];
        }
      }
      assert Distinct(names[1..]) by {
        forall i, j | 0 <= i < j < |names[1..]| ensures names[1..][i] != names[1..][j] {
          assert names[1..][i] == names[i + 1] && names[1..][j] == names[j + 1];
        }
      }
      match MergeOne(c, ps, n)
      case Err(e) =>
      case Ok(d) =>
        MergeReads(d, ps, names[1..]);
        forall a ensures Read(d, a) == if a == a0 then MergedValue(a, ParamValue(ps, n), Read(c, a)) else Read(c, a) {
        }
        if Merge(c, ps, names).Ok? {
          var r := Merge(c, ps, names).value;
          forall a ensures Read(r, a) ==
            if AttributeName(a) in names then MergedValue(a, ParamValue(ps, AttributeName(a)), Read(c, a)) else Read(c, a)
          {
            if a == a0 {
              assert AttributeName(a) == n;
            } else {
              assert AttributeName(a) != n;
            }
          }
        }
    }
  }

  /** The merge with PARAMS: only an invalid `gender` makes it fail. */
  lemma MergeParams(c: Customer, ps: seq<Param>)
    ensures Merge(c, ps, ParamNames).Ok? <==> !Rejects(GenderCode, ParamValue(ps, "gender"))
    ensures Merge(c, ps, ParamNames).Ok? ==> forall a :: (Read(Merge(c, ps, ParamNames).value, a) ==
      MergedValue(a, ParamValue(ps, AttributeName(a)), Read(c, a)))
  {
    ParamNamesAreAttributeNames();
    ParamNamesCoverAttributes();
    MergeReads(c, ps, ParamNames);
    assert "gender" == AttributeName(GenderCode);
    forall n | n in ParamNames ensures Accepts(ps, n) <==> (n != "gender" || !Rejects(GenderCode, ParamValue(ps, "gender"))) {
      var a := AttributeOfName(n).value;
      assert AttributeName(a) == n;
    }
  }

  /** Merging the same parameters again changes nothing. */
  lemma MergeIdempotent(c: Customer, ps: seq<Param>)
    requires Merge(c, ps, ParamNames).Ok?
    ensures Merge(Merge(c, ps, ParamNames).value, ps, ParamNames) == Merge(c, ps, ParamNames)
  {
    var d := Merge(c, ps, ParamNames).value;
    MergeParams(c, ps);
    MergeParams(d, ps);
    var e := Merge(d, ps, ParamNames).value;
    forall a ensures Read(e, a) == Read(d, a) {
    }
    ReadDetermines(e, d);
  }

  /** The merge never changes `customer_id` of a row found by `params[:customer_id]`. */
  lemma MergeKeepsCustomerId(c: Customer, ps: seq<Param>)
    requires c.customerId == ParamValue(ps, "customer_id")
    requires Merge(c, ps, ParamNames).Ok?
    ensures Merge(c, ps, ParamNames).value.customerId == c.customerId
  {
    MergeParams(c, ps);
    var d := Merge(c, ps, ParamNames).value;
    assert Read(d, CustomerId) == Read(c, CustomerId);
    TextOfInjective(d.customerId, c.customerId, Read(c, CustomerId));
  }

  /** Right after `find_or_create_by` created the record, the merge finds nothing to change. */
  lemma CreateThenMergeUnchanged(key: Option<string>, ps: seq<Param>)
    requires key == ParamValue(ps, "customer_id")
    requires CreateWith(key, ps).Ok?
    ensures Merge(CreateWith(key, ps).value, ps, ParamNames) == CreateWith(key, ps)
  {
    var c := CreateWith(key, ps).value;
    CreateWithRecord(key, ps);
    MergeParams(c, ps);
    var d := Merge(c, ps, ParamNames).value;
    forall a ensures Read(d, a) == Read(c, a) {
    }
    ReadDetermines(d, c);
  }

  /*
   * Metafields
   */

  datatype Metafield = Metafield(namespace: string, key: string, value: string, valueType: string)

  /** `ShopifyAPI::Metafield.new(namespace: "measurements", key: k, value: v, value_type: "string")`. */
  function Measurement(k: string, v: string): Metafield {
    Metafield("measurements", k, v, "string")
  }

  /** One measurement metafield per entry, in order. */
  function Measurements(entries: seq<(string, string)>): (ms: seq<Metafield>)
    ensures |ms| == |entries|
    ensures forall i :: 0 <= i < |entries| ==> ms[i] == Measurement(entries[i].0, entries[i].1)
  {
    if entries == [] then []
    else Measurements(entries[..|entries| - 1]) + [Measurement(entries[|entries| - 1].0, entries[|entries| - 1].1)]
  }

  /** The metafields a POST with these parameters emits. */
  function Metafields(ps: seq<Param>): seq<Metafield> {
    Measurements(SliceCompact(ps, ParamNames))
  }

  /** `params.slice(*PARAMS).compact.each { |k, v| ... add_metafield ... if PARAMS.include? k }`. */
  method EmitMetafields(ps: Params) returns (ms: seq<Metafield>)
    ensures ms == Metafields(ps)
  {
    var entries := SliceCompact(ps, ParamNames);
    ms := [];
    var i := 0;
    while i < |entries|
      invariant 0 <= i <= |entries|
      invariant ms == Measurements(entries[..i])
    {
      var (k, v) := entries[i];
      if k in ParamNames {
        ms := ms + [Measurement(k, v)];
      }
      assert entries[..i + 1][..i] == entries[..i];
      i := i + 1;
    }
    assert entries[..i] == entries;
  }

  /**
   * Every metafield is a "measurements" string entry for a PARAMS key and that
   * parameter's value; every PARAMS parameter with a non-nil value has its
   * entry; no key has two entries.
   */
  lemma MetafieldsExactly(ps: Params)
    ensures forall m :: m in Metafields(ps) ==>
      m.namespace == "measurements" && m.valueType == "string" &&
      m.key in ParamNames && ParamValue(ps, m.key) == Some(m.value)
    ensures forall n :: n in ParamNames && ParamValue(ps, n).Some? ==>
      Measurement(n, ParamValue(ps, n).value) in Metafields(ps)
    ensures forall i, j :: 0 <= i < j < |Metafields(ps)| ==> Metafields(ps)[i].key != Metafields(ps)[j].key
  {
    ParamNamesAreAttributeNames();
    var entries := SliceCompact(ps, ParamNames);
    var ms := Metafields(ps);
    forall n | n in ParamNames && ParamValue(ps, n).Some?
      ensures Measurement(n, ParamValue(ps, n).value) in ms
    {
      assert HasEntry(entries, n);
      var i :| 0 <= i < |entries| && entries[i].0 == n;
      assert ms[i] == Measurement(n, ParamValue(ps, n).value);
    }
  }

  /*
   * GET
   */

  datatype GetResult = NotFound | Shown(customer: Option<Customer>)

  const Favicon: string := "favicon.ico"

  /**
   * GET: with a `customer_id` parameter, `favicon.ico` halts with 404 before
   * any lookup, and any other value shows the row with that `customer_id` or
   * nil; without one there is nothing to show. The table is only read.
   */
  method Get(t: CustomerTable, ps: Params) returns (r: GetResult)
    requires t.Valid()
    ensures r == NotFound <==> ParamValue(ps, "customer_id") == Some(Favicon)
    ensures ParamValue(ps, "customer_id").None? ==> r == Shown(None)
    ensures var key := ParamValue(ps, "customer_id");
      key.Some? && key.value != Favicon ==>
        r.Shown? &&
        (r.customer.Some? <==> exists i :: i in t.rows && t.rows[i].customerId == key) &&
        (forall i :: i in t.rows && t.rows[i].customerId == key ==> r.customer == Some(t.rows[i]))
  {
    r := Shown(None);
    var key := ParamValue(ps, "customer_id");
    if key.Some? {
      if key.value == Favicon {
        return NotFound;
      }
      FindSound(t.State(), key);
      var found := Find(t.State(), key);
      if found.Some? {
        r := Shown(Some(t.rows[found.value]));
      }
      forall i | i in t.rows && t.rows[i].customerId == key ensures r.customer == Some(t.rows[i]) {
        FindUnique(t.State(), key, i);
      }
    }
  }

  /*
   * POST
   */

  datatype PostResult = BadRequest | ServerError(error: Error) | Rendered(customer: Customer)

  /** What a POST answers, the table it leaves, the metafields it emits, and whether it issued an UPDATE. */
  datatype PostOutcome = PostOutcome(result: PostResult, table: TableState, metafields: seq<Metafield>, updated: bool)

  /**
   * `@customer.changed?` after the merge: some attribute holds a new value, or
   * `weight` was non-nil and was assigned text that does not look numeric
   * (ActiveModel's numeric dirty check counts that as a change even when the
   * cast value is the same).
   */
  predicate MergeChanged(row: Customer, merged: Customer, ps: seq<Param>) {
    merged != row || NonNumericOverNumber(row, ParamValue(ps, "weight"))
  }

  /** The `weight` parameter is text that is neither blank nor numeric, such as "abc". */
  predicate NonNumericWeight(ps: seq<Param>) {
    var raw := ParamValue(ps, "weight");
    raw.Some? && !Blank(raw.value) && !NumericText(raw.value)
  }

  /**
   * The merge into row `id`, and the UPDATE issued only when the record
   * counts as changed; an UPDATE of a weight outside the column's range
   * raises before it is sent.
   */
  function Reconcile(s: TableState, id: nat, ps: seq<Param>): PostOutcome
    requires id in s.rows
  {
    match Merge(s.rows[id], ps, ParamNames)
    case Err(e) => PostOutcome(ServerError(e), s, [], false)
    case Ok(c) =>
      if !MergeChanged(s.rows[id], c, ps) then PostOutcome(Rendered(c), s, Metafields(ps), false)
      else if !Storable(c) then PostOutcome(ServerError(RangeError(c.weight.value)), s, [], false)
      else PostOutcome(Rendered(c), s.(rows := s.rows[id := c]), Metafields(ps), true)
  }

  /** The whole POST branch of the customer route. */
  function PostSpec(s: TableState, ps: seq<Param>, acceptsJson: bool): PostOutcome {
    if acceptsJson && !HasKey(ps, "customer_id") then PostOutcome(BadRequest, s, [], false)
    else
      var key := ParamValue(ps, "customer_id");
      match Find(s, key)
      case Some(id) => Reconcile(s, id, ps)
      case None =>
        match CreateWith(key, ps)
        case Err(e) => PostOutcome(ServerError(e), s, [], false)
        case Ok(c) =>
          if !Storable(c) then PostOutcome(ServerError(RangeError(c.weight.value)), s, [], false)
          else Reconcile(Inserted(s, c), s.nextId, ps)
  }

  /**
   * POST: `required_params :customer_id` for JSON requests, then
   * `find_or_create_by`, the merge, the UPDATE when the record counts as
   * changed, and the metafields. The class's `updates` counter records the
   * UPDATEs issued.
   */
  method Post(t: CustomerTable, ps: Params, acceptsJson: bool) returns (r: PostResult, metafields: seq<Metafield>)
    requires t.Valid()
    modifies t
    ensures t.Valid()
    ensures var o := PostSpec(old(t.State()), ps, acceptsJson);
      r == o.result && t.State() == o.table && metafields == o.metafields &&
      t.updates == old(t.updates) + (if o.updated then 1 else 0)
  {
    metafields := [];
    if acceptsJson && !HasKey(ps, "customer_id") {
      return BadRequest, [];
    }
    var key := ParamValue(ps, "customer_id");
    var found := Find(t.State(), key);
    var id: nat;
    if found.Some? {
      id := found.value;
      PostOfFound(t.State(), ps, acceptsJson, id);
    } else {
      var created := CreateWith(key, ps);
      if created.Err? {
        return ServerError(created.error), [];
      }
      CreateWithKeepsKey(key, ps);
      FindSound(t.State(), key);
      var inserted := t.Insert(created.value);
      if inserted.Err? {
        return ServerError(inserted.error), [];
      }
      id := inserted.value;
      PostOfCreated(old(t.State()), ps, acceptsJson);
    }
    ghost var s1 := t.State();
    assert PostSpec(old(t.State()), ps, acceptsJson) == Reconcile(s1, id, ps);
    ReconcileResult(s1, id, ps);
    var record := t.rows[id];
    assert record.customerId == key;
    var merged := Merge(record, ps, ParamNames);
    if merged.Err? {
      return ServerError(merged.error), [];
    }
    if MergeChanged(record, merged.value, ps) {
      MergeKeepsCustomerId(record, ps);
      var saved := t.Update(id, merged.value);
      if saved.Err? {
        return ServerError(saved.error), [];
      }
    }
    r := Rendered(merged.value);
    metafields := EmitMetafields(ps);
  }

  /*
   * Properties of POST
   */

  /** A record `find_or_create_by` creates carries the `customer_id` it was created for. */
  lemma CreateWithKeepsKey(key: Option<string>, ps: seq<Param>)
    requires CreateWith(key, ps).Ok?
    ensures CreateWith(key, ps).value.customerId == key
  {
    CreateWithRecord(key, ps);
    TextOfInjective(CreateWith(key, ps).value.customerId, key, Read(CreateWith(key, ps).value, CustomerId));
  }

  lemma OverwriteWithSame(rows: Rows, id: nat)
    requires id in rows
    ensures rows[id := rows[id]] == rows
  {
  }

  lemma OverwriteKeepsKeys(rows: Rows, id: nat, c: Customer)
    requires id in rows
    ensures rows[id := c].Keys == rows.Keys
  {
  }

  /**
   * A record whose `weight` was just cast from the `weight` parameter counts
   * as changed by assigning that parameter again exactly when the parameter
   * is non-blank text that does not look numeric: it then holds 0.
   */
  lemma ReassignedWeightCountsAsChange(c: Customer, ps: seq<Param>)
    requires ParamValue(ps, "weight").Some? ==>
      Read(c, Weight) == Cast(Weight, ParamValue(ps, "weight").value).value
    ensures NonNumericOverNumber(c, ParamValue(ps, "weight")) <==> NonNumericWeight(ps)
    ensures NonNumericWeight(ps) ==> c.weight == Some(0) && Storable(c)
  {
  }

  /** After a merge, `weight` holds the cast of a non-nil `weight` parameter. */
  lemma MergedWeightIsCast(c: Customer, ps: seq<Param>)
    requires Merge(c, ps, ParamNames).Ok?
    ensures ParamValue(ps, "weight").Some? ==>
      Read(Merge(c, ps, ParamNames).value, Weight) == Cast(Weight, ParamValue(ps, "weight").value).value
  {
    MergeParams(c, ps);
    WeightOfMergedValues(c, Merge(c, ps, ParamNames).value, ps);
  }

  lemma WeightOfMergedValues(c: Customer, m: Customer, ps: seq<Param>)
    requires forall a :: Read(m, a) == MergedValue(a, ParamValue(ps, AttributeName(a)), Read(c, a))
    ensures ParamValue(ps, "weight").Some? ==>
      Read(m, Weight) == Cast(Weight, ParamValue(ps, "weight").value).value
  {
    var raw := ParamValue(ps, AttributeName(Weight));
    assert Read(m, Weight) == MergedValue(Weight, raw, Read(c, Weight));
    MergedWeightValue(raw, Read(c, Weight));
  }

  lemma MergedWeightValue(raw: Option<string>, current: Value)
    ensures raw.Some? ==> MergedValue(Weight, raw, current) == Cast(Weight, raw.value).value
  {
  }

  /**
   * A row that already holds what the merge would give it stays as it is; the
   * answer and metafields are the usual ones, and an UPDATE of the same row is
   * issued only for a non-numeric `weight`.
   */
  lemma ReconcileSettled(s: TableState, id: nat, ps: seq<Param>)
    requires id in s.rows && Merge(s.rows[id], ps, ParamNames) == Ok(s.rows[id])
    requires ParamValue(ps, "weight").Some? ==>
      Read(s.rows[id], Weight) == Cast(Weight, ParamValue(ps, "weight").value).value
    ensures Reconcile(s, id, ps) == PostOutcome(Rendered(s.rows[id]), s, Metafields(ps), NonNumericWeight(ps))
  {
    ReassignedWeightCountsAsChange(s.rows[id], ps);
    OverwriteWithSame(s.rows, id);
  }

  /** The merge step touches row `id` only: no row is added or removed and no other row changes. */
  lemma ReconcileFrame(s: TableState, id: nat, ps: seq<Param>)
    requires id in s.rows
    ensures var o := Reconcile(s, id, ps);
      o.table.nextId == s.nextId && o.table.rows.Keys == s.rows.Keys &&
      (forall j :: j in s.rows && j != id ==> o.table.rows[j] == s.rows[j])
  {
    ReconcileResult(s, id, ps);
    var o := Reconcile(s, id, ps);
    if o.result.Rendered? {
      OverwriteKeepsKeys(s.rows, id, o.result.customer);
    }
  }

  /**
   * The merge step answers with the merge result, stores it in row `id` and
   * emits the metafields, issuing an UPDATE exactly when the record counts as
   * changed; a failed merge, or an UPDATE refused for its weight's range,
   * changes nothing and emits nothing.
   */
  lemma ReconcileResult(s: TableState, id: nat, ps: seq<Param>)
    requires id in s.rows
    ensures var o := Reconcile(s, id, ps);
      var m := Merge(s.rows[id], ps, ParamNames);
      (o.result.Rendered? <==> m.Ok? && (Storable(m.value) || !MergeChanged(s.rows[id], m.value, ps))) &&
      (o.result.Rendered? ==>
        o.result.customer == m.value &&
        o.table == s.(rows := s.rows[id := o.result.customer]) && o.metafields == Metafields(ps) &&
        (o.updated <==> MergeChanged(s.rows[id], m.value, ps))) &&
      (m.Ok? && !o.result.Rendered? ==> o.result == ServerError(RangeError(m.value.weight.value))) &&
      (!o.result.Rendered? ==> o.table == s && o.metafields == [] && !o.updated)
  {
    match Merge(s.rows[id], ps, ParamNames)
    case Err(_) =>
    case Ok(c) =>
      if !MergeChanged(s.rows[id], c, ps) {
        OverwriteWithSame(s.rows, id);
      }
  }

  /** Merging into the row `find_by` returned leaves `find_by` returning that row. */
  lemma ReconcileKeepsFind(s: TableState, id: nat, ps: seq<Param>)
    requires Find(s, ParamValue(ps, "customer_id")) == Some(id)
    ensures id in s.rows
    ensures Find(Reconcile(s, id, ps).table, ParamValue(ps, "customer_id")) == Some(id)
  {
    var key := ParamValue(ps, "customer_id");
    ReconcileResult(s, id, ps);
    var o := Reconcile(s, id, ps);
    if o.result.Rendered? {
      MergeKeepsCustomerId(s.rows[id], ps);
      FindAfterUpdate(s, key, id, o.result.customer);
    }
  }

  /**
   * The merge step a second time changes nothing; it issues an UPDATE again
   * exactly when the `weight` parameter is non-numeric text, which the dirty
   * check counts as a change every time.
   */
  lemma ReconcileIdempotent(s: TableState, id: nat, ps: seq<Param>)
    requires id in s.rows
    requires Reconcile(s, id, ps).result.Rendered?
    ensures id in Reconcile(s, id, ps).table.rows
    ensures Reconcile(Reconcile(s, id, ps).table, id, ps) ==
      Reconcile(s, id, ps).(updated := NonNumericWeight(ps))
  {
    ReconcileResult(s, id, ps);
    var m := Merge(s.rows[id], ps, ParamNames).value;
    var t := Reconcile(s, id, ps).table;
    assert t.rows[id] == m;
    MergeIdempotent(s.rows[id], ps);
    MergedWeightIsCast(s.rows[id], ps);
    ReconcileSettled(t, id, ps);
  }

  /** A JSON POST without `customer_id` is refused with 400 before the table is touched. */
  lemma PostRequiresCustomerId(s: TableState, ps: seq<Param>)
    requires !HasKey(ps, "customer_id")
    ensures PostSpec(s, ps, true) == PostOutcome(BadRequest, s, [], false)
  {
  }

  /**
   * `required_params` only asks that the key be present: a `customer_id`
   * given with a nil value passes, and the POST goes on to look up (or
   * create) a row whose `customer_id` is NULL, as a non-JSON request would.
   */
  lemma PostNilCustomerIdIsNotRefused(s: TableState, ps: seq<Param>)
    requires Lookup(ps, "customer_id") == Some(None)
    ensures PostSpec(s, ps, true) == PostSpec(s, ps, false)
    ensures PostSpec(s, ps, true).result != BadRequest
  {
    assert HasKey(ps, "customer_id");
    var key := ParamValue(ps, "customer_id");
    match Find(s, key)
    case Some(id) =>
      ReconcileResult(s, id, ps);
    case None =>
      if CreateWith(key, ps).Ok? && Storable(CreateWith(key, ps).value) {
        ReconcileResult(Inserted(s, CreateWith(key, ps).value), s.nextId, ps);
      }
  }

  /** The merge into a row `find_or_create_by` just inserted finds it settled. */
  lemma CreatedThenSettled(s: TableState, ps: seq<Param>)
    requires CreateWith(ParamValue(ps, "customer_id"), ps).Ok?
    ensures var c := CreateWith(ParamValue(ps, "customer_id"), ps).value;
      Reconcile(Inserted(s, c), s.nextId, ps) ==
        PostOutcome(Rendered(c), Inserted(s, c), Metafields(ps), NonNumericWeight(ps))
  {
    var key := ParamValue(ps, "customer_id");
    var c := CreateWith(key, ps).value;
    CreateWithRecord(key, ps);
    assert "weight" == AttributeName(Weight);
    CreateThenMergeUnchanged(key, ps);
    ReconcileSettled(Inserted(s, c), s.nextId, ps);
  }

  /**
   * An unknown `customer_id` inserts exactly one row, under the next primary
   * key, with that `customer_id` and every other attribute cast from its
   * parameter (nil when absent); nothing else changes. An invalid `gender`,
   * or a `weight` outside its column's range, inserts nothing. The merge that
   * follows finds the values it assigns already in place, so an UPDATE is
   * issued only for a non-numeric `weight`, and it writes the same row.
   */
  lemma PostCreatesWhenAbsent(s: TableState, ps: seq<Param>, acceptsJson: bool)
    requires !(acceptsJson && !HasKey(ps, "customer_id"))
    requires Find(s, ParamValue(ps, "customer_id")).None?
    ensures var o := PostSpec(s, ps, acceptsJson);
      var key := ParamValue(ps, "customer_id");
      var weight := AssignedValue(Weight, ParamValue(ps, "weight"));
      if Rejects(GenderCode, ParamValue(ps, "gender")) then
        o.result.ServerError? && o.table == s && o.metafields == [] && !o.updated
      else if !InColumnRange(weight) then
        o == PostOutcome(ServerError(RangeError(weight.number)), s, [], false)
      else
        o.result.Rendered? && (o.updated <==> NonNumericWeight(ps)) &&
        o.table == Inserted(s, o.result.customer) &&
        o.metafields == Metafields(ps) &&
        Read(o.result.customer, CustomerId) == TextOf(key) &&
        forall a :: a != CustomerId ==> Read(o.result.customer, a) == AssignedValue(a, ParamValue(ps, AttributeName(a)))
  {
    var key := ParamValue(ps, "customer_id");
    CreateWithRecord(key, ps);
    if CreateWith(key, ps).Ok? {
      var c := CreateWith(key, ps).value;
      assert Read(c, Weight) == AssignedValue(Weight, ParamValue(ps, "weight"));
      if Storable(c) {
        CreatedThenSettled(s, ps);
      }
    }
  }

  /**
   * A known `customer_id` inserts nothing and ignores the `create_with`
   * values: the row found gets the non-nil PARAMS parameters and keeps its
   * other attributes, no other row changes, and the UPDATE is issued exactly
   * when the record counts as changed. An invalid `gender`, or an UPDATE
   * whose weight is outside its column's range, changes nothing.
   */
  lemma PostMergesWhenPresent(s: TableState, ps: seq<Param>, acceptsJson: bool, id: nat)
    requires !(acceptsJson && !HasKey(ps, "customer_id"))
    requires Find(s, ParamValue(ps, "customer_id")) == Some(id)
    ensures id in s.rows
    ensures var o := PostSpec(s, ps, acceptsJson);
      o.table.nextId == s.nextId && o.table.rows.Keys == s.rows.Keys &&
      (forall j :: j in s.rows && j != id ==> o.table.rows[j] == s.rows[j]) &&
      if Rejects(GenderCode, ParamValue(ps, "gender")) then
        o.result.ServerError? && o.table == s && o.metafields == [] && !o.updated
      else
        Merge(s.rows[id], ps, ParamNames).Ok? &&
        var m := Merge(s.rows[id], ps, ParamNames).value;
        (forall a :: Read(m, a) == MergedValue(a, ParamValue(ps, AttributeName(a)), Read(s.rows[id], a))) &&
        (o.updated <==> MergeChanged(s.rows[id], m, ps) && Storable(m)) &&
        if MergeChanged(s.rows[id], m, ps) && !Storable(m) then
          o == PostOutcome(ServerError(RangeError(m.weight.value)), s, [], false)
        else
          o.result == Rendered(m) && o.table.rows[id] == m && o.metafields == Metafields(ps)
  {
    ReconcileFrame(s, id, ps);
    ReconcileResult(s, id, ps);
    MergeParams(s.rows[id], ps);
  }

  /**
   * POSTing the same parameters again finds the same row, changes nothing,
   * and answers and emits as the first POST did; it issues an UPDATE again
   * exactly when the `weight` parameter is non-numeric text.
   */
  lemma PostIdempotent(s: TableState, ps: seq<Param>, acceptsJson: bool)
    requires PostSpec(s, ps, acceptsJson).result.Rendered?
    ensures var o := PostSpec(s, ps, acceptsJson);
      PostSpec(o.table, ps, acceptsJson) == o.(updated := NonNumericWeight(ps))
  {
    var key := ParamValue(ps, "customer_id");
    match Find(s, key)
    case Some(id) =>
      ReconcileKeepsFind(s, id, ps);
      ReconcileIdempotent(s, id, ps);
    case None =>
      var c := CreateWith(key, ps).value;
      CreateWithKeepsKey(key, ps);
      FindAfterInsert(s, c);
      ReconcileKeepsFind(Inserted(s, c), s.nextId, ps);
      ReconcileIdempotent(Inserted(s, c), s.nextId, ps);
  }

  /** A POST that is not refused and finds row `id` is the merge step on that row. */
  lemma PostOfFound(s: TableState, ps: seq<Param>, acceptsJson: bool, id: nat)
    requires !(acceptsJson && !HasKey(ps, "customer_id"))
    requires Find(s, ParamValue(ps, "customer_id")) == Some(id)
    ensures id in s.rows && PostSpec(s, ps, acceptsJson) == Reconcile(s, id, ps)
  {
  }

  /** A POST that is not refused and creates a storable record is the merge step on the new row. */
  lemma PostOfCreated(s: TableState, ps: seq<Param>, acceptsJson: bool)
    requires !(acceptsJson && !HasKey(ps, "customer_id"))
    requires Find(s, ParamValue(ps, "customer_id")).None?
    requires CreateWith(ParamValue(ps, "customer_id"), ps).Ok?
    requires Storable(CreateWith(ParamValue(ps, "customer_id"), ps).value)
    ensures PostSpec(s, ps, acceptsJson) ==
      Reconcile(Inserted(s, CreateWith(ParamValue(ps, "customer_id"), ps).value), s.nextId, ps)
  {
  }

  /** Merging values a row already holds gives the row back. */
  lemma MergeOfCurrentValues(row: Customer, ps: seq<Param>)
    requires !Rejects(GenderCode, ParamValue(ps, "gender"))
    requires forall a :: ParamValue(ps, AttributeName(a)).Some? ==>
      AssignedValue(a, ParamValue(ps, AttributeName(a))) == Read(row, a)
    ensures Merge(row, ps, ParamNames) == Ok(row)
    ensures ParamValue(ps, "weight").Some? ==>
      Read(row, Weight) == Cast(Weight, ParamValue(ps, "weight").value).value
  {
    MergeParams(row, ps);
    var m := Merge(row, ps, ParamNames).value;
    forall a ensures Read(m, a) == Read(row, a) {
      MergedValueOfCurrent(a, ParamValue(ps, AttributeName(a)), Read(row, a));
    }
    ReadDetermines(m, row);
    MergedWeightIsCast(row, ps);
  }

  lemma MergedValueOfCurrent(a: Attribute, raw: Option<string>, current: Value)
    requires raw.Some? ==> AssignedValue(a, raw) == current
    ensures MergedValue(a, raw, current) == current
  {
  }

  /**
   * Re-POSTing a row's current values, or any subset of them, leaves the
   * table as it was; it issues an UPDATE only when a non-numeric `weight`
   * is given over a non-nil weight.
   */
  lemma PostCurrentValuesNoWrite(s: TableState, ps: seq<Param>, acceptsJson: bool, id: nat)
    requires !(acceptsJson && !HasKey(ps, "customer_id"))
    requires Find(s, ParamValue(ps, "customer_id")) == Some(id)
    requires !Rejects(GenderCode, ParamValue(ps, "gender"))
    requires forall a :: ParamValue(ps, AttributeName(a)).Some? ==>
      AssignedValue(a, ParamValue(ps, AttributeName(a))) == Read(s.rows[id], a)
    ensures PostSpec(s, ps, acceptsJson).updated <==> NonNumericOverNumber(s.rows[id], ParamValue(ps, "weight"))
    ensures PostSpec(s, ps, acceptsJson).table == s
  {
    PostOfFound(s, ps, acceptsJson, id);
    MergeOfCurrentValues(s.rows[id], ps);
    ReconcileSettled(s, id, ps);
    ReassignedWeightCountsAsChange(s.rows[id], ps);
  }

  /** A POST keeps the table well formed: the unique index holds and every weight fits its column. */
  lemma PostKeepsWellFormed(s: TableState, ps: seq<Param>, acceptsJson: bool)
    requires WellFormed(s)
    ensures WellFormed(PostSpec(s, ps, acceptsJson).table)
  {
    if !(acceptsJson && !HasKey(ps, "customer_id")) {
      var key := ParamValue(ps, "customer_id");
      match Find(s, key)
      case Some(id) =>
        PostOfFound(s, ps, acceptsJson, id);
        ReconcileKeepsWellFormed(s, id, ps);
      case None =>
        CreateKeepsWellFormed(s, ps);
    }
  }

  /** The merge step on the row `find_by` returned keeps the table well formed. */
  lemma ReconcileKeepsWellFormed(s: TableState, id: nat, ps: seq<Param>)
    requires WellFormed(s) && Find(s, ParamValue(ps, "customer_id")) == Some(id)
    ensures id in s.rows && WellFormed(Reconcile(s, id, ps).table)
  {
    ReconcileResult(s, id, ps);
    if Merge(s.rows[id], ps, ParamNames).Ok? {
      var m := Merge(s.rows[id], ps, ParamNames).value;
      MergeKeepsCustomerId(s.rows[id], ps);
      if Storable(m) {
        UpdatedWellFormed(s, id, m);
      }
    }
  }

  /** The create path of a POST keeps the table well formed. */
  lemma CreateKeepsWellFormed(s: TableState, ps: seq<Param>)
    requires WellFormed(s) && Find(s, ParamValue(ps, "customer_id")).None?
    ensures var key := ParamValue(ps, "customer_id");
      WellFormed(
        match CreateWith(key, ps)
        case Err(_) => s
        case Ok(c) => if !Storable(c) then s else Reconcile(Inserted(s, c), s.nextId, ps).table)
  {
    var key := ParamValue(ps, "customer_id");
    if CreateWith(key, ps).Ok? && Storable(CreateWith(key, ps).value) {
      var c := CreateWith(key, ps).value;
      CreateWithKeepsKey(key, ps);
      FindSound(s, key);
      InsertedWellFormed(s, c);
      CreatedThenSettled(s, ps);
    }
  }

  /** The record `find_or_create_by` builds holds the cast `weight` parameter. */
  lemma CreatedWeight(key: Option<string>, ps: seq<Param>)
    requires CreateWith(key, ps).Ok?
    ensures Read(CreateWith(key, ps).value, Weight) == AssignedValue(Weight, ParamValue(ps, "weight"))
  {
    CreateWithRecord(key, ps);
    assert "weight" == AttributeName(Weight);
  }

  /**
   * A `weight` that does not fit the 4-byte column makes the INSERT of a new
   * customer raise: the POST answers with the range error and stores nothing.
   * The decimal text of any integer outside the range, 3000000000 say, is
   * such a weight, since `to_i` reads it back (DecimalString).
   */
  lemma OutOfRangeWeightIsRefused(s: TableState, ps: seq<Param>, acceptsJson: bool, w: string)
    requires !(acceptsJson && !HasKey(ps, "customer_id"))
    requires Find(s, ParamValue(ps, "customer_id")).None?
    requires !Rejects(GenderCode, ParamValue(ps, "gender"))
    requires ParamValue(ps, "weight") == Some(w) && !Blank(w)
    requires ToI(w) < -0x8000_0000 || 0x8000_0000 <= ToI(w)
    ensures PostSpec(s, ps, acceptsJson) == PostOutcome(ServerError(RangeError(ToI(w))), s, [], false)
  {
    var key := ParamValue(ps, "customer_id");
    CreateWithRecordOk(key, ps);
    CreatedWeight(key, ps);
    AssignedWeightOfText(w);
    WeightOfRead(CreateWith(key, ps).value, ToI(w));
    PostOfUnstorableCreate(s, ps, acceptsJson);
  }

  lemma AssignedWeightOfText(w: string)
    requires !Blank(w)
    ensures AssignedValue(Weight, Some(w)) == Number(ToI(w))
  {
  }

  lemma WeightOfRead(c: Customer, n: int)
    requires Read(c, Weight) == Number(n)
    ensures c.weight == Some(n)
  {
  }

  /** A POST whose new record cannot be stored is the range error, with nothing changed. */
  lemma PostOfUnstorableCreate(s: TableState, ps: seq<Param>, acceptsJson: bool)
    requires !(acceptsJson && !HasKey(ps, "customer_id"))
    requires Find(s, ParamValue(ps, "customer_id")).None?
    requires CreateWith(ParamValue(ps, "customer_id"), ps).Ok?
    requires !Storable(CreateWith(ParamValue(ps, "customer_id"), ps).value)
    ensures PostSpec(s, ps, acceptsJson) == PostOutcome(
      ServerError(RangeError(CreateWith(ParamValue(ps, "customer_id"), ps).value.weight.value)), s, [], false)
  {
  }

  /** The record `find_or_create_by` builds is refused only for an invalid `gender`. */
  lemma CreateWithRecordOk(key: Option<string>, ps: seq<Param>)
    ensures CreateWith(key, ps).Ok? <==> !Rejects(GenderCode, ParamValue(ps, "gender"))
  {
    CreateWithRecord(key, ps);
  }

  /**
   * A row holding weight 0 that is POSTed `weight=abc`: the cast gives 0
   * again, yet the dirty check counts the assignment as a change, so an
   * UPDATE of the unchanged row is issued.
   */
  lemma NonNumericWeightOverZeroIsWritten(s: TableState, acceptsJson: bool, id: nat)
    requires Find(s, Some("A1")) == Some(id)
    requires s.rows[id] == NewCustomer.(customerId := Some("A1"), weight := Some(0))
    ensures var ps := [Param("customer_id", Some("A1")), Param("weight", Some("abc"))];
      PostSpec(s, ps, acceptsJson).updated && PostSpec(s, ps, acceptsJson).table == s
  {
    var ps := [Param("customer_id", Some("A1")), Param("weight", Some("abc"))];
    AbcParams(ps);
    AbcIsNonNumeric();
    forall a | ParamValue(ps, AttributeName(a)).Some?
      ensures AssignedValue(a, ParamValue(ps, AttributeName(a))) == Read(s.rows[id], a)
    {
      OnlyListedNamesHaveValues(ps, a);
    }
    PostCurrentValuesNoWrite(s, ps, acceptsJson, id);
  }

  lemma AbcParams(ps: seq<Param>)
    requires ps == [Param("customer_id", Some("A1")), Param("weight", Some("abc"))]
    ensures HasKey(ps, "customer_id") && ParamValue(ps, "customer_id") == Some("A1")
    ensures ParamValue(ps, "gender") == None && ParamValue(ps, "weight") == Some("abc")
  {
    var rest := ps[1..];
    assert rest == [Param("weight", Some("abc"))] && rest[1..] == [];
    assert Lookup(rest, "gender") == Lookup(rest[1..], "gender") == None;
    assert Lookup(ps, "gender") == None;
    assert Lookup(ps, "weight") == Lookup(rest, "weight") == Some(Some("abc"));
  }

  lemma AbcIsNonNumeric()
    ensures !NumericText("abc") && !Blank("abc") && ToI("abc") == 0
  {
    assert DropSpaces("abc") == "abc" by { assert !IsSpace("abc"[0]); }
    assert !IsWhiteSpace("abc"[0]);
  }

  /** Of the two parameters above, only `customer_id` and `weight` name attributes. */
  lemma OnlyListedNamesHaveValues(ps: seq<Param>, a: Attribute)
    requires ps == [Param("customer_id", Some("A1")), Param("weight", Some("abc"))]
    requires ParamValue(ps, AttributeName(a)).Some?
    ensures a == CustomerId || a == Weight
  {
    var n := AttributeName(a);
    LookupSound(ps, n);
    var i :| 0 <= i < |ps| && ps[i].key == n;
    assert n == "customer_id" || n == "weight";
    assert AttributeOfName(n) == Some(a);
  }
}
