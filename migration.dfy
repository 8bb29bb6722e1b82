/**
 * The `CreateCustomers` migration: the definition `up` gives the customer
 * table (its columns, their types and the unique index on `customer_id`) and
 * the catalog change made by `up` and undone by `down`.
 */
module Migration {
  import opened Wrappers
  import opened Exceptions
  import opened CustomerModel

  datatype ColumnType = PrimaryKey | StringType | IntegerType | DateTimeType

  datatype Column = Column(name: string, kind: ColumnType, nullable: bool)

  datatype Index = Index(name: string, column: string, unique: bool)

  datatype TableDef = TableDef(columns: seq<Column>, indexes: seq<Index>)

  /** `@@table = Customer.table_name`. */
  const MigratedTable: string := TableName

  /** The migration creates the table the model reads and writes: "customer". */
  lemma MigratedTableIsModelTable()
    ensures MigratedTable == TableName && MigratedTable == "customer"
  {
  }

  /**
   * The table `create_table` builds: the implicit `id` primary key, the
   * fourteen declared columns (no `null: false` on any of them), the two
   * non-null timestamps, and the unique index on `customer_id`.
   */
  function CustomersTable(): TableDef {
    TableDef(
      [ Column("id", PrimaryKey, false),
        Column("customer_id", StringType, true),
        Column("customer_name", StringType, true),
        Column("gender", IntegerType, true),
        Column("height", StringType, true),
        Column("weight", IntegerType, true),
        Column("neck", StringType, true),
        Column("shoulder_width", StringType, true),
        Column("sleeve_length", StringType, true),
        Column("bicep_circumference", StringType, true),
        Column("wrist_circumference", StringType, true),
        Column("chest_bust_circumference", StringType, true),
        Column("waist_circumference", StringType, true),
        Column("lower_waist", StringType, true),
        Column("hips_seat", StringType, true),
        Column("created_at", DateTimeType, false),
        Column("updated_at", DateTimeType, false) ],
      [ Index("customer_id_unique_index", "customer_id", true) ])
  }

  /** The type of the column that holds an attribute. */
  function ColumnTypeOf(a: Attribute): ColumnType {
    if IsInteger(a) then IntegerType else StringType
  }

  /** The attributes in the order of their columns. */
  const AttributeOrder: seq<Attribute> :=
    [ CustomerId, CustomerName, GenderCode, Height, Weight, Neck, ShoulderWidth, SleeveLength,
      BicepCircumference, WristCircumference, ChestBustCircumference, WaistCircumference,
      LowerWaist, HipsSeat ]

  /** The column that holds an attribute. */
  function AttributeColumn(a: Attribute): Column {
    Column(AttributeName(a), ColumnTypeOf(a), true)
  }

  lemma AttributeOrderIsComplete(a: Attribute)
    ensures a in AttributeOrder
  {
  }

  /** No attribute has two columns. */
  lemma AttributeOrderDistinct(i: nat, j: nat)
    requires i < j < |AttributeOrder|
    ensures AttributeOrder[i] != AttributeOrder[j]
  {
  }

  /** Columns 1 to 4 hold attributes 0 to 3 of AttributeOrder. */
  lemma AttributeColumnsFrom1(i: nat)
    requires i < 4
    ensures CustomersTable().columns[i + 1] == AttributeColumn(AttributeOrder[i])
  {
    var cols := CustomersTable().columns;
    if i == 0 { assert cols[1] == AttributeColumn(CustomerId); }
    else if i == 1 { assert cols[2] == AttributeColumn(CustomerName); }
    else if i == 2 { assert cols[3] == AttributeColumn(GenderCode); }
    else { assert cols[4] == AttributeColumn(Height); }
  }

  /** Columns 5 to 7 hold attributes 4 to 6 of AttributeOrder. */
  lemma AttributeColumnsFrom5(i: nat)
    requires 4 <= i < 7
    ensures CustomersTable().columns[i + 1] == AttributeColumn(AttributeOrder[i])
  {
    var cols := CustomersTable().columns;
    if i == 4 { assert cols[5] == AttributeColumn(Weight); }
    else if i == 5 { assert cols[6] == AttributeColumn(Neck); }
    else { assert cols[7] == AttributeColumn(ShoulderWidth); }
  }

  /** Columns 8 to 11 hold attributes 7 to 10 of AttributeOrder. */
  lemma AttributeColumnsFrom8(i: nat)
    requires 7 <= i < 11
    ensures CustomersTable().columns[i + 1] == AttributeColumn(AttributeOrder[i])
  {
    var cols := CustomersTable().columns;
    if i == 7 { assert cols[8] == AttributeColumn(SleeveLength); }
    else if i == 8 { assert cols[9] == AttributeColumn(BicepCircumference); }
    else if i == 9 { assert cols[10] == AttributeColumn(WristCircumference); }
    else { assert cols[11] == AttributeColumn(ChestBustCircumference); }
  }

  /** Columns 12 to 14 hold attributes 11 to 13 of AttributeOrder. */
  lemma AttributeColumnsFrom12(i: nat)
    requires 11 <= i < 14
    ensures CustomersTable().columns[i + 1] == AttributeColumn(AttributeOrder[i])
  {
    var cols := CustomersTable().columns;
    if i == 11 { assert cols[12] == AttributeColumn(WaistCircumference); }
    else if i == 12 { assert cols[13] == AttributeColumn(LowerWaist); }
    else { assert cols[14] == AttributeColumn(HipsSeat); }
  }

  /** Columns 1 to 14 are the attribute columns, in order. */
  lemma AttributeColumnsInOrder(i: nat)
    requires i < 14
    ensures i + 1 < |CustomersTable().columns|
    ensures CustomersTable().columns[i + 1] == AttributeColumn(AttributeOrder[i])
  {
    if i < 4 {
      AttributeColumnsFrom1(i);
    } else if i < 7 {
      AttributeColumnsFrom5(i);
    } else if i < 11 {
      AttributeColumnsFrom8(i);
    } else {
      AttributeColumnsFrom12(i);
    }
  }

  /**
   * The record shape agrees with the migration: the columns are the `id`
   * primary key, then one nullable column per attribute (under the attribute's
   * name, integer for `gender` and `weight`, string for the rest), then the
   * two non-null timestamps; so every attribute has its column.
   */
  lemma ColumnsAreAttributes()
    ensures |CustomersTable().columns| == 17
    ensures CustomersTable().columns[0] == Column("id", PrimaryKey, false)
    ensures forall i :: 1 <= i <= 14 ==>
      CustomersTable().columns[i] == AttributeColumn(AttributeOrder[i - 1])
    ensures CustomersTable().columns[15] == Column("created_at", DateTimeType, false)
    ensures CustomersTable().columns[16] == Column("updated_at", DateTimeType, false)
    ensures forall a :: AttributeColumn(a) in CustomersTable().columns
  {
    DataColumnsInOrder();
    EveryAttributeHasColumn();
  }

  /** Columns 1 to 14, in order, hold the attributes. */
  lemma DataColumnsInOrder()
    ensures |CustomersTable().columns| == 17
    ensures forall i :: 1 <= i <= 14 ==>
      CustomersTable().columns[i] == AttributeColumn(AttributeOrder[i - 1])
  {
    forall i | 1 <= i <= 14 ensures CustomersTable().columns[i] == AttributeColumn(AttributeOrder[i - 1]) {
      AttributeColumnsInOrder(i - 1);
    }
  }

  /** Every attribute has its column. */
  lemma EveryAttributeHasColumn()
    ensures forall a :: AttributeColumn(a) in CustomersTable().columns
  {
    forall a ensures AttributeColumn(a) in CustomersTable().columns {
      AttributeOrderIsComplete(a);
      var i :| 0 <= i < 14 && AttributeOrder[i] == a;
      AttributeColumnsInOrder(i);
    }
  }

  /**
   * The only index is the unique one on `customer_id`, and that column is
   * nullable: the index constrains only the non-null values.
   */
  lemma CustomerIdIndexIsUniqueAndNullable()
    ensures CustomersTable().indexes == [Index("customer_id_unique_index", "customer_id", true)]
    ensures Column("customer_id", StringType, true) in CustomersTable().columns
  {
    assert CustomersTable().columns[1] == Column("customer_id", StringType, true);
  }

  /** The database catalog: the tables that exist, by name. */
  class Catalog {
    var tables: map<string, TableDef>

    constructor (tables: map<string, TableDef>)
      ensures this.tables == tables
    {
      this.tables := tables;
    }

    /** `up`: `create_table` fails when the table already exists. */
    method Up() returns (r: Result<(), Error>)
      modifies this
      ensures r.Err? <==> MigratedTable in old(tables)
      ensures r.Err? ==> r.error == TableExists(MigratedTable) && tables == old(tables)
      ensures r.Ok? ==> tables == old(tables)[MigratedTable := CustomersTable()]
    {
      if MigratedTable in tables {
        r := Err(TableExists(MigratedTable));
      } else {
        tables := tables[MigratedTable := CustomersTable()];
        r := Ok(());
      }
    }

    /** `down`: `drop_table ..., if_exists: true` never fails. */
    method Down()
      modifies this
      ensures tables == old(tables) - {MigratedTable}
    {
      tables := tables - {MigratedTable};
    }
  }

  /** `up` then `down` on a catalog without the table leaves the catalog as it was. */
  method UpThenDown(c: Catalog) returns (r: Result<(), Error>)
    requires MigratedTable !in c.tables
    modifies c
    ensures r.Ok? && c.tables == old(c.tables)
  {
    r := c.Up();
    assert MigratedTable in c.tables;
    c.Down();
    assert c.tables == old(c.tables);
  }

  /** `down` twice is `down` once: the second drop finds no table and is a no-op. */
  method DownTwice(c: Catalog)
    modifies c
    ensures c.tables == old(c.tables) - {MigratedTable}
    ensures MigratedTable !in c.tables
  {
    c.Down();
    c.Down();
  }
}
