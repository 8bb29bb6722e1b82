/**
 * The `Customer` ActiveRecord model: the record shape (one field per column
 * of the customer table besides the store-assigned id and timestamps), the
 * `gender` enum, the `name` alias of `customer_name`, the table name, and the
 * way a raw request value is cast when it is assigned to an attribute.
 */
module CustomerModel {
  import opened Wrappers
  import opened Exceptions
  import opened RubyText

  /** `self.table_name`. */
  const TableName: string := "customer"

  /** `enum gender: [:male, :female]`. */
  datatype Gender = Male | Female

  /** The integer the enum stores for a gender. */
  function GenderValue(g: Gender): (n: int)
    ensures n == 0 || n == 1
    ensures GenderOfValue(n) == Some(g)
  {
    match g
    case Male => 0
    case Female => 1
  }

  /** The gender an integer column value names, if any: only 0 and 1 do. */
  function GenderOfValue(n: int): (g: Option<Gender>)
    ensures g.Some? <==> n == 0 || n == 1
  {
    if n == 0 then Some(Male) else if n == 1 then Some(Female) else None
  }

  /** The enum label of a gender. */
  function GenderLabel(g: Gender): string {
    match g
    case Male => "male"
    case Female => "female"
  }

  /** The gender a label names, if any. */
  function GenderOfLabel(s: string): Option<Gender> {
    if s == "male" then Some(Male) else if s == "female" then Some(Female) else None
  }

  lemma GenderLabelRoundTrip(g: Gender, s: string)
    ensures GenderOfLabel(GenderLabel(g)) == Some(g)
    ensures GenderOfLabel(s) == Some(g) <==> s == GenderLabel(g)
  {
  }

  /** One row of the customer table, without the store-assigned id and timestamps. */
  datatype Customer = Customer(
    customerId: Option<string>,
    customerName: Option<string>,
    gender: Option<Gender>,
    height: Option<string>,
    weight: Option<int>,
    neck: Option<string>,
    shoulderWidth: Option<string>,
    sleeveLength: Option<string>,
    bicepCircumference: Option<string>,
    wristCircumference: Option<string>,
    chestBustCircumference: Option<string>,
    waistCircumference: Option<string>,
    lowerWaist: Option<string>,
    hipsSeat: Option<string>)

  /** `Customer.new`: every attribute nil. */
  const NewCustomer: Customer :=
    Customer(None, None, None, None, None, None, None, None, None, None, None, None, None, None)

  /** The attributes of a customer, one per column. */
  datatype Attribute =
    | CustomerId | CustomerName | GenderCode | Height | Weight | Neck | ShoulderWidth
    | SleeveLength | BicepCircumference | WristCircumference | ChestBustCircumference
    | WaistCircumference | LowerWaist | HipsSeat

  /** The attributes held in integer columns; all the others are strings. */
  predicate IsInteger(a: Attribute) {
    a == GenderCode || a == Weight
  }

  /** A column value as the database holds it. */
  datatype Value = Nil | Text(text: string) | Number(number: int)

  /** `v` can be stored in the column of `a`. */
  predicate Fits(a: Attribute, v: Value) {
    match v
    case Nil => true
    case Text(_) => !IsInteger(a)
    case Number(n) => a == Weight || (a == GenderCode && (n == 0 || n == 1))
  }

  function TextOf(s: Option<string>): Value {
    match s
    case None => Nil
    case Some(t) => Text(t)
  }

  function TextValue(v: Value): Option<string>
    requires !v.Number?
  {
    match v
    case Nil => None
    case Text(t) => Some(t)
  }

  /** The value of an attribute as its column stores it (the gender as its integer code). */
  function Read(c: Customer, a: Attribute): (v: Value)
    ensures Fits(a, v)
  {
    match a
    case CustomerId => TextOf(c.customerId)
    case CustomerName => TextOf(c.customerName)
    case GenderCode => if c.gender.Some? then Number(GenderValue(c.gender.value)) else Nil
    case Height => TextOf(c.height)
    case Weight => if c.weight.Some? then Number(c.weight.value) else Nil
    case Neck => TextOf(c.neck)
    case ShoulderWidth => TextOf(c.shoulderWidth)
    case SleeveLength => TextOf(c.sleeveLength)
    case BicepCircumference => TextOf(c.bicepCircumference)
    case WristCircumference => TextOf(c.wristCircumference)
    case ChestBustCircumference => TextOf(c.chestBustCircumference)
    case WaistCircumference => TextOf(c.waistCircumference)
    case LowerWaist => TextOf(c.lowerWaist)
    case HipsSeat => TextOf(c.hipsSeat)
  }

  /** A record is determined by the values of its attributes. */
  lemma ReadDetermines(c: Customer, d: Customer)
    requires forall a :: Read(c, a) == Read(d, a)
    ensures c == d
  {
    assert c.customerId == d.customerId by { TextOfInjective(c.customerId, d.customerId, Read(c, CustomerId)); }
    assert c.customerName == d.customerName by { TextOfInjective(c.customerName, d.customerName, Read(c, CustomerName)); }
    assert c.gender == d.gender by {
      assert Read(c, GenderCode) == Read(d, GenderCode);
      if c.gender.Some? && d.gender.Some? {
        assert GenderOfValue(GenderValue(c.gender.value)) == c.gender;
        assert GenderOfValue(GenderValue(d.gender.value)) == d.gender;
      }
    }
    assert c.height == d.height by { TextOfInjective(c.height, d.height, Read(c, Height)); }
    assert c.weight == d.weight by { assert Read(c, Weight) == Read(d, Weight); }
    assert c.neck == d.neck by { TextOfInjective(c.neck, d.neck, Read(c, Neck)); }
    assert c.shoulderWidth == d.shoulderWidth by { TextOfInjective(c.shoulderWidth, d.shoulderWidth, Read(c, ShoulderWidth)); }
    assert c.sleeveLength == d.sleeveLength by { TextOfInjective(c.sleeveLength, d.sleeveLength, Read(c, SleeveLength)); }
    assert c.bicepCircumference == d.bicepCircumference by {
      TextOfInjective(c.bicepCircumference, d.bicepCircumference, Read(c, BicepCircumference));
    }
    assert c.wristCircumference == d.wristCircumference by {
      TextOfInjective(c.wristCircumference, d.wristCircumference, Read(c, WristCircumference));
    }
    assert c.chestBustCircumference == d.chestBustCircumference by {
      TextOfInjective(c.chestBustCircumference, d.chestBustCircumference, Read(c, ChestBustCircumference));
    }
    assert c.waistCircumference == d.waistCircumference by {
      TextOfInjective(c.waistCircumference, d.waistCircumference, Read(c, WaistCircumference));
    }
    assert c.lowerWaist == d.lowerWaist by { TextOfInjective(c.lowerWaist, d.lowerWaist, Read(c, LowerWaist)); }
    assert c.hipsSeat == d.hipsSeat by { TextOfInjective(c.hipsSeat, d.hipsSeat, Read(c, HipsSeat)); }
  }

  lemma TextOfInjective(s: Option<string>, t: Option<string>, v: Value)
    requires TextOf(s) == v && TextOf(t) == v
    ensures s == t
  {
  }

  /** Stores `v` in the column of `a`; the other attributes keep their values. */
  function Write(c: Customer, a: Attribute, v: Value): (d: Customer)
    requires Fits(a, v)
    ensures Read(d, a) == v
    ensures forall b :: b != a ==> Read(d, b) == Read(c, b)
  {
    match a
    case CustomerId => c.(customerId := TextValue(v))
    case CustomerName => c.(customerName := TextValue(v))
    case GenderCode => c.(gender := if v.Number? then GenderOfValue(v.number) else None)
    case Height => c.(height := TextValue(v))
    case Weight => c.(weight := if v.Number? then Some(v.number) else None)
    case Neck => c.(neck := TextValue(v))
    case ShoulderWidth => c.(shoulderWidth := TextValue(v))
    case SleeveLength => c.(sleeveLength := TextValue(v))
    case BicepCircumference => c.(bicepCircumference := TextValue(v))
    case WristCircumference => c.(wristCircumference := TextValue(v))
    case ChestBustCircumference => c.(chestBustCircumference := TextValue(v))
    case WaistCircumference => c.(waistCircumference := TextValue(v))
    case LowerWaist => c.(lowerWaist := TextValue(v))
    case HipsSeat => c.(hipsSeat := TextValue(v))
  }

  /**
   * The type cast of a non-nil raw value assigned to `a`: string columns keep
   * the text; `weight` is nil when blank and `to_i` otherwise; `gender` is nil
   * when blank, the code of a label, and raises on anything else.
   */
  function Cast(a: Attribute, raw: string): (r: Result<Value, Error>)
    ensures r.Ok? ==> Fits(a, r.value)
    ensures r.Err? <==> a == GenderCode && !Blank(raw) && GenderOfLabel(raw).None?
    ensures !IsInteger(a) ==> r == Ok(Text(raw))
    ensures a == Weight ==> r == (if Blank(raw) then Ok(Nil) else Ok(Number(ToI(raw))))
    ensures a == GenderCode && Blank(raw) ==> r == Ok(Nil)
  {
    match a
    case Weight => if Blank(raw) then Ok(Nil) else Ok(Number(ToI(raw)))
    case GenderCode =>
      if Blank(raw) then Ok(Nil)
      else (match GenderOfLabel(raw)
        case Some(g) => Ok(Number(GenderValue(g)))
        case None => Err(ArgumentError("'" + raw + "' is not a valid gender")))
    case _ => Ok(Text(raw))
  }

  /** The cast of a raw value that may be nil; nil stays nil. */
  function CastOption(a: Attribute, raw: Option<string>): (r: Result<Value, Error>)
    ensures r.Ok? ==> Fits(a, r.value)
  {
    match raw
    case None => Ok(Nil)
    case Some(s) => Cast(a, s)
  }

  /** `c.a = raw`: the cast value is stored, or the cast raises and nothing is stored. */
  function Assign(c: Customer, a: Attribute, raw: Option<string>): (r: Result<Customer, Error>)
    ensures r.Ok? <==> CastOption(a, raw).Ok?
    ensures r.Ok? ==> Read(r.value, a) == CastOption(a, raw).value
    ensures r.Ok? ==> forall b :: b != a ==> Read(r.value, b) == Read(c, b)
  {
    match CastOption(a, raw)
    case Ok(v) => Ok(Write(c, a, v))
    case Err(e) => Err(e)
  }

  /** The column name of an attribute. */
  function AttributeName(a: Attribute): (n: string)
    ensures AttributeOfName(n) == Some(a)
  {
    match a
    case CustomerId => "customer_id"
    case CustomerName => "customer_name"
    case GenderCode => "gender"
    case Height => "height"
    case Weight => "weight"
    case Neck => "neck"
    case ShoulderWidth => "shoulder_width"
    case SleeveLength => "sleeve_length"
    case BicepCircumference => "bicep_circumference"
    case WristCircumference => "wrist_circumference"
    case ChestBustCircumference => "chest_bust_circumference"
    case WaistCircumference => "waist_circumference"
    case LowerWaist => "lower_waist"
    case HipsSeat => "hips_seat"
  }

  /** The attribute an attribute name denotes: a column name, or the alias `name`. */
  function AttributeOfName(n: string): Option<Attribute> {
    if n == "customer_id" then Some(CustomerId)
    else if n == "customer_name" || n == "name" then Some(CustomerName)
    else if n == "gender" then Some(GenderCode)
    else if n == "height" then Some(Height)
    else if n == "weight" then Some(Weight)
    else if n == "neck" then Some(Neck)
    else if n == "shoulder_width" then Some(ShoulderWidth)
    else if n == "sleeve_length" then Some(SleeveLength)
    else if n == "bicep_circumference" then Some(BicepCircumference)
    else if n == "wrist_circumference" then Some(WristCircumference)
    else if n == "chest_bust_circumference" then Some(ChestBustCircumference)
    else if n == "waist_circumference" then Some(WaistCircumference)
    else if n == "lower_waist" then Some(LowerWaist)
    else if n == "hips_seat" then Some(HipsSeat)
    else None
  }

  /** Distinct attributes have distinct column names. */
  lemma AttributeNameInjective(a: Attribute, b: Attribute)
    ensures AttributeName(a) == AttributeName(b) ==> a == b
  {
    assert AttributeOfName(AttributeName(a)) == Some(a);
  }

  /**
   * The value of an attribute named by its column name or alias, as the
   * column stores it (the gender as its integer code); nil for any other
   * name.
   */
  function ReadAttribute(c: Customer, name: string): Value {
    match AttributeOfName(name)
    case Some(a) => Read(c, a)
    case None => Nil
  }

  /** `c.send("#{name}=", raw)`: raises for a name that is not an attribute. */
  function AssignAttribute(c: Customer, name: string, raw: Option<string>): Result<Customer, Error> {
    match AttributeOfName(name)
    case Some(a) => Assign(c, a, raw)
    case None => Err(UnknownAttribute(name))
  }

  /** `alias_attribute :name, :customer_name`, read side: `name` reads `customer_name`. */
  lemma NameReadsCustomerName(c: Customer)
    ensures ReadAttribute(c, "name") == ReadAttribute(c, "customer_name") == TextOf(c.customerName)
  {
  }

  /**
   * `alias_attribute :name, :customer_name`, write side: writing `name` never
   * raises, sets `customer_name` to the value written and changes nothing else.
   */
  lemma NameWritesCustomerName(c: Customer, raw: Option<string>)
    ensures AssignAttribute(c, "name", raw) == AssignAttribute(c, "customer_name", raw)
    ensures AssignAttribute(c, "name", raw).Ok?
    ensures AssignAttribute(c, "name", raw).value == c.(customerName := raw)
  {
    var d := AssignAttribute(c, "name", raw).value;
    forall b ensures Read(d, b) == Read(c.(customerName := raw), b) {
      assert Read(c.(customerName := raw), b) == if b == CustomerName then TextOf(raw) else Read(c, b);
    }
    ReadDetermines(d, c.(customerName := raw));
  }

  /** The enum round trip through the stored column value. */
  lemma GenderCodeRoundTrip(c: Customer, g: Gender)
    ensures Assign(c, GenderCode, Some(GenderLabel(g))).Ok?
    ensures Assign(c, GenderCode, Some(GenderLabel(g))).value.gender == Some(g)
  {
    assert !IsWhiteSpace(GenderLabel(g)[0]);
    var d := Assign(c, GenderCode, Some(GenderLabel(g))).value;
    assert Read(d, GenderCode) == Number(GenderValue(g));
  }

  /**
   * Both integer columns are 4-byte integers (the migration gives them no
   * `limit`), and ActiveModel refuses to serialize a number outside
   * [-2^31, 2^31) before any SQL is sent.
   */
  predicate InColumnRange(v: Value) {
    !v.Number? || -0x8000_0000 <= v.number < 0x8000_0000
  }

  /** A record every column of which can be written: its weight, if any, is in range. */
  predicate Storable(c: Customer) {
    c.weight.None? || -0x8000_0000 <= c.weight.value < 0x8000_0000
  }

  /** The gender column holds only 0 or 1, so only `weight` can be out of range. */
  lemma StorableIsWeightInRange(c: Customer)
    ensures Storable(c) <==> forall a :: InColumnRange(Read(c, a))
  {
    assert InColumnRange(Read(c, GenderCode));
    assert Read(c, Weight) == if c.weight.Some? then Number(c.weight.value) else Nil;
  }

  /**
   * ActiveModel's extra dirty check for numeric columns: assigning text that
   * does not look like a number over a non-nil `weight` marks the attribute
   * changed, whatever value it casts to.
   */
  predicate NonNumericOverNumber(c: Customer, raw: Option<string>) {
    raw.Some? && c.weight.Some? && !NumericText(raw.value)
  }

  /** Such an assignment casts to nil (blank) or 0, and either is storable. */
  lemma NonNumericAssignmentIsStorable(c: Customer, raw: Option<string>)
    requires NonNumericOverNumber(c, raw)
    ensures Assign(c, Weight, raw).Ok?
    ensures Storable(Assign(c, Weight, raw).value)
    ensures Assign(c, Weight, raw).value.weight == if Blank(raw.value) then None else Some(0)
  {
    var d := Assign(c, Weight, raw).value;
    assert Read(d, Weight) == Cast(Weight, raw.value).value;
  }

  /** `blank?` knows Unicode white space, so a no-break space casts to nil. */
  lemma UnicodeSpaceIsBlank()
    ensures Blank("\U{00A0}") && Blank("\U{3000} \t")
    ensures Cast(GenderCode, "\U{00A0}") == Ok(Nil)
    ensures Cast(Weight, "\U{00A0}") == Ok(Nil)
    ensures !Blank("\U{200B}")
  {
    assert IsWhiteSpace("\U{00A0}"[0]);
    assert !IsWhiteSpace("\U{200B}"[0]);
  }
}
