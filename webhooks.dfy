/**
 * The `/webhook/customer` namespace: the `before` filter that checks the
 * request's HMAC header and parses the body, and the `create` and `destroy`
 * routes the e-commerce platform calls when a customer is created or deleted.
 */
module Webhooks {
  import opened Wrappers
  import opened Exceptions
  import opened RubyText
  import opened CustomerModel
  import opened Store

  newtype byte = b: int | 0 <= b < 256

  /**
   * The shared secret and the two library primitives `verify_webhook` calls:
   * HMAC-SHA256 (key, message) and strict Base64 encoding (section 4 of
   * RFC 4648), both left uninterpreted.
   */
  datatype Config = Config(
    sharedSecret: seq<byte>,
    hmacSha256: (seq<byte>, seq<byte>) -> seq<byte>,
    strictEncode64: seq<byte> -> string)

  /** The header value a genuine request with body `data` carries. */
  function ExpectedHmac(cfg: Config, data: seq<byte>): string {
    cfg.strictEncode64(cfg.hmacSha256(cfg.sharedSecret, data))
  }

  /**
   * `verify_webhook(data, hmac_header)`: true exactly when the header is the
   * Base64 of the HMAC of the body; `secure_compare` raises when the header
   * is missing.
   */
  function VerifyWebhook(cfg: Config, data: seq<byte>, header: Option<string>): (r: Result<bool, Error>)
    ensures r.Err? <==> header.None?
    ensures r == Ok(true) <==> header == Some(ExpectedHmac(cfg, data))
  {
    match header
    case None => Err(TypeError("no implicit conversion of nil into String"))
    case Some(h) => Ok(h == ExpectedHmac(cfg, data))
  }

  /** Only one header value verifies a given body. */
  lemma AtMostOneHeaderVerifies(cfg: Config, data: seq<byte>, h1: string, h2: string)
    requires VerifyWebhook(cfg, data, Some(h1)) == Ok(true)
    requires VerifyWebhook(cfg, data, Some(h2)) == Ok(true)
    ensures h1 == h2
  {
  }

  /*
   * The parsed body
   */

  /** The JSON values the routes read (floats, arrays and objects are not modelled). */
  datatype Json = JNull | JBool(b: bool) | JInteger(n: int) | JString(s: string)

  /** `@params = JSON.parse(data)`: a JSON object. */
  type Payload = map<string, Json>

  /** `@params[k]`: nil when the key is absent. */
  function Field(p: Payload, k: string): Json {
    if k in p then p[k] else JNull
  }

  /** `to_s` as `Array#join` applies it; nil joins as the empty string. */
  function ToS(j: Json): string {
    match j
    case JNull => ""
    case JBool(b) => if b then "true" else "false"
    case JInteger(n) => DecimalString(n)
    case JString(s) => s
  }

  /** `[@params["first_name"], @params["last_name"]].join(" ")`. */
  function FullName(p: Payload): string {
    ToS(Field(p, "first_name")) + " " + ToS(Field(p, "last_name"))
  }

  /** A payload without names still yields a name: the separator alone. */
  lemma FullNameOfMissingNames(p: Payload)
    requires "first_name" !in p && "last_name" !in p
    ensures FullName(p) == " "
  {
  }

  /** Two string names join around a single space. */
  lemma FullNameOfStrings(p: Payload, first: string, last: string)
    requires Field(p, "first_name") == JString(first) && Field(p, "last_name") == JString(last)
    ensures |FullName(p)| == |first| + 1 + |last|
    ensures FullName(p)[..|first|] == first && FullName(p)[|first|] == ' '
    ensures FullName(p)[|first| + 1..] == last
  {
  }

  /** The payload `id` cast for the string column `customer_id`; nil stays nil. */
  function CustomerIdOf(j: Json): (r: Option<string>)
    ensures r.None? <==> j.JNull?
    ensures j.JString? ==> r == Some(j.s)
    ensures j.JInteger? ==> r.Some? && ToI(r.value) == j.n
  {
    match j
    case JNull => None
    case JBool(b) => Some(if b then "t" else "f")
    case JInteger(n) => Some(DecimalString(n))
    case JString(s) => Some(s)
  }

  /** Distinct numeric ids select distinct customers. */
  lemma NumericIdsAreDistinct(m: int, n: int)
    requires CustomerIdOf(JInteger(m)) == CustomerIdOf(JInteger(n))
    ensures m == n
  {
    assert ToI(DecimalString(m)) == m;
    assert ToI(DecimalString(n)) == n;
  }

  /** A numeric id and its decimal string select the same customer. */
  lemma NumericIdIsItsDecimalString(n: int)
    ensures CustomerIdOf(JInteger(n)) == CustomerIdOf(JString(DecimalString(n)))
    ensures ToI(CustomerIdOf(JInteger(n)).value) == n
  {
  }

  /*
   * The routes
   */

  /** The record `create_with(customer_name: ...).find_or_create_by(customer_id: ...)` builds. */
  function NewFromPayload(p: Payload): Customer {
    NewCustomer.(customerId := CustomerIdOf(Field(p, "id")), customerName := Some(FullName(p)))
  }

  /** `post '/create'`: find or create by the payload `id`; a found row is left as it is. */
  function CreateFromPayload(s: TableState, p: Payload): TableState {
    match Find(s, CustomerIdOf(Field(p, "id")))
    case Some(_) => s
    case None => Inserted(s, NewFromPayload(p))
  }

  datatype WebhookOutcome = WebhookOutcome(result: Result<(), Error>, table: TableState)

  /** `post '/destroy'`: destroy the row `find_by` returns; `nil.destroy` raises. */
  function DestroyFromPayload(s: TableState, p: Payload): WebhookOutcome {
    match Find(s, CustomerIdOf(Field(p, "id")))
    case Some(i) => WebhookOutcome(Ok(()), s.(rows := s.rows - {i}))
    case None => WebhookOutcome(Err(NoMethodError("undefined method `destroy' for nil")), s)
  }

  datatype Action = CreateCustomer | DestroyCustomer

  /**
   * A webhook request: the `before` filter runs `verify_webhook` and ignores
   * its answer, so only a missing header stops the request; then the route.
   */
  function WebhookSpec(cfg: Config, s: TableState, data: seq<byte>, header: Option<string>, p: Payload, action: Action): WebhookOutcome {
    match VerifyWebhook(cfg, data, header)
    case Err(e) => WebhookOutcome(Err(e), s)
    case Ok(_) =>
      match action
      case CreateCustomer => WebhookOutcome(Ok(()), CreateFromPayload(s, p))
      case DestroyCustomer => DestroyFromPayload(s, p)
  }

  /** `post '/create'` against the table. */
  method Create(t: CustomerTable, p: Payload)
    requires t.Valid()
    modifies t
    ensures t.Valid()
    ensures t.State() == CreateFromPayload(old(t.State()), p)
    ensures t.updates == old(t.updates)
  {
    var key := CustomerIdOf(Field(p, "id"));
    var found := Find(t.State(), key);
    if found.None? {
      FindSound(t.State(), key);
      var inserted := t.Insert(NewFromPayload(p));
    }
  }

  /** `post '/destroy'` against the table. */
  method Destroy(t: CustomerTable, p: Payload) returns (r: Result<(), Error>)
    requires t.Valid()
    modifies t
    ensures t.Valid()
    ensures var o := DestroyFromPayload(old(t.State()), p);
      r == o.result && t.State() == o.table
    ensures t.updates == old(t.updates)
  {
    var found := Find(t.State(), CustomerIdOf(Field(p, "id")));
    if found.None? {
      return Err(NoMethodError("undefined method `destroy' for nil"));
    }
    t.Delete(found.value);
    r := Ok(());
  }

  /** A webhook request: the `before` filter, then the route. */
  method Webhook(t: CustomerTable, cfg: Config, data: seq<byte>, header: Option<string>, p: Payload, action: Action)
    returns (r: Result<(), Error>)
    requires t.Valid()
    modifies t
    ensures t.Valid()
    ensures var o := WebhookSpec(cfg, old(t.State()), data, header, p, action);
      r == o.result && t.State() == o.table
    ensures t.updates == old(t.updates)
  {
    var verified := VerifyWebhook(cfg, data, header);
    if verified.Err? {
      return Err(verified.error);
    }
    match action
    case CreateCustomer =>
      Create(t, p);
      r := Ok(());
    case DestroyCustomer =>
      r := Destroy(t, p);
  }

  /*
   * Properties of the webhooks
   */

  /** Any header that is present lets the request through: a forged one acts as a genuine one. */
  lemma HeaderValueIsIgnored(cfg: Config, s: TableState, data: seq<byte>, h1: string, h2: string, p: Payload, action: Action)
    ensures WebhookSpec(cfg, s, data, Some(h1), p, action) == WebhookSpec(cfg, s, data, Some(h2), p, action)
    ensures WebhookSpec(cfg, s, data, None, p, action) == WebhookOutcome(Err(TypeError("no implicit conversion of nil into String")), s)
  {
  }

  /** Create leaves an existing customer untouched. */
  lemma CreateKeepsExisting(s: TableState, p: Payload)
    requires Find(s, CustomerIdOf(Field(p, "id"))).Some?
    ensures CreateFromPayload(s, p) == s
  {
  }

  /**
   * Create for an unknown `id` inserts exactly one row, under the next
   * primary key, with that `customer_id`, `customer_name` = first name, a
   * space, last name, and every other attribute nil; `find_by` then finds it.
   */
  lemma CreateInsertsOne(s: TableState, p: Payload)
    requires Find(s, CustomerIdOf(Field(p, "id"))).None?
    ensures var t := CreateFromPayload(s, p);
      var c := t.rows[s.nextId];
      t.nextId == s.nextId + 1 && t.rows == s.rows[s.nextId := c] &&
      c.customerId == CustomerIdOf(Field(p, "id")) &&
      c.customerName == Some(ToS(Field(p, "first_name")) + " " + ToS(Field(p, "last_name"))) &&
      (forall a :: a != CustomerId && a != CustomerName ==> Read(c, a) == Nil) &&
      Find(t, c.customerId) == Some(s.nextId)
  {
    var c := NewFromPayload(p);
    FindAfterInsert(s, c);
  }

  /** A repeated create webhook changes nothing. */
  lemma CreateIdempotent(s: TableState, p: Payload)
    ensures CreateFromPayload(CreateFromPayload(s, p), p) == CreateFromPayload(s, p)
  {
    if Find(s, CustomerIdOf(Field(p, "id"))).None? {
      FindAfterInsert(s, NewFromPayload(p));
    }
  }

  /**
   * Destroy removes exactly the row `find_by` returns and nothing else; with
   * a non-nil `id` no row with that `customer_id` remains.
   */
  lemma DestroyRemovesOnlyThatRow(s: TableState, p: Payload, i: nat)
    requires WellFormed(s)
    requires Find(s, CustomerIdOf(Field(p, "id"))) == Some(i)
    ensures var o := DestroyFromPayload(s, p);
      o.result.Ok? && o.table.nextId == s.nextId &&
      o.table.rows.Keys == s.rows.Keys - {i} &&
      (forall j :: j in o.table.rows ==> o.table.rows[j] == s.rows[j])
    ensures CustomerIdOf(Field(p, "id")).Some? ==>
      Find(DestroyFromPayload(s, p).table, CustomerIdOf(Field(p, "id"))).None?
  {
    var key := CustomerIdOf(Field(p, "id"));
    var t := DestroyFromPayload(s, p).table;
    if key.Some? {
      DeletedWellFormed(s, i);
      FindSound(s, key);
      assert forall j :: j in t.rows ==> t.rows[j].customerId != key;
      FindSound(t, key);
    }
  }

  /** Destroy for an `id` no row has fails with `NoMethodError` and changes nothing. */
  lemma DestroyUnknownFails(s: TableState, p: Payload)
    requires Find(s, CustomerIdOf(Field(p, "id"))).None?
    ensures DestroyFromPayload(s, p) == WebhookOutcome(Err(NoMethodError("undefined method `destroy' for nil")), s)
  {
  }

  /** A second destroy for the same non-nil `id` fails: destroy is not idempotent. */
  lemma DestroyTwiceFails(s: TableState, p: Payload)
    requires WellFormed(s)
    requires CustomerIdOf(Field(p, "id")).Some?
    requires DestroyFromPayload(s, p).result.Ok?
    ensures DestroyFromPayload(DestroyFromPayload(s, p).table, p).result.Err?
  {
    DestroyRemovesOnlyThatRow(s, p, Find(s, CustomerIdOf(Field(p, "id"))).value);
  }

  /** Creating an unknown customer and then destroying it restores the rows. */
  lemma CreateThenDestroy(s: TableState, p: Payload)
    requires WellFormed(s)
    requires Find(s, CustomerIdOf(Field(p, "id"))).None?
    ensures var o := DestroyFromPayload(CreateFromPayload(s, p), p);
      o.result.Ok? && o.table.rows == s.rows && o.table.nextId == s.nextId + 1
  {
    var c := NewFromPayload(p);
    FindAfterInsert(s, c);
    assert s.rows[s.nextId := c] - {s.nextId} == s.rows;
  }

  /** Both webhooks keep the table well formed: the unique index holds. */
  lemma WebhookKeepsWellFormed(cfg: Config, s: TableState, data: seq<byte>, header: Option<string>, p: Payload, action: Action)
    requires WellFormed(s)
    ensures WellFormed(WebhookSpec(cfg, s, data, header, p, action).table)
  {
    var key := CustomerIdOf(Field(p, "id"));
    if header.Some? {
      match action
      case CreateCustomer =>
        if Find(s, key).None? {
          FindSound(s, key);
          InsertedWellFormed(s, NewFromPayload(p));
        }
      case DestroyCustomer =>
        if Find(s, key).Some? {
          DeletedWellFormed(s, Find(s, key).value);
        }
    }
  }
}
