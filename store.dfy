/**
 * The rows of the customer table and the ActiveRecord queries the routes
 * issue against it: `find_by(customer_id: ...)`, INSERT, UPDATE and DELETE.
 * Rows are keyed by the store-assigned primary key; `customer_id` is
 * nullable, so several rows may have a nil `customer_id`, while the unique
 * index keeps the non-nil ones distinct.
 */
module Store {
  import opened Wrappers
  import opened Exceptions
  import opened CustomerModel

  type Rows = map<nat, Customer>

  /** The table's contents and the next primary key the store will assign. */
  datatype TableState = TableState(rows: Rows, nextId: nat)

  /** `customer_id_unique_index`: no two rows share a non-nil `customer_id`. */
  ghost predicate UniqueCustomerIds(rows: Rows) {
    forall i, j :: i in rows && j in rows && i != j && rows[i].customerId.Some? ==>
      rows[i].customerId != rows[j].customerId
  }

  /**
   * The store invariant: primary keys are below `nextId`, the index holds,
   * and every stored weight fits its 4-byte column.
   */
  ghost predicate WellFormed(s: TableState) {
    (forall i :: i in s.rows ==> i < s.nextId) && UniqueCustomerIds(s.rows) &&
    (forall i :: i in s.rows ==> Storable(s.rows[i]))
  }

  /** The empty table `up` creates. */
  const EmptyTable: TableState := TableState(map[], 0)

  /** Some row other than `except` has the non-nil `customer_id` `key`. */
  predicate KeyTaken(rows: Rows, key: Option<string>, except: Option<nat>) {
    key.Some? && exists j :: j in rows && Some(j) != except && rows[j].customerId == key
  }

  /** The row with the smallest primary key below `n` whose `customer_id` is `key`. */
  function FirstMatch(rows: Rows, key: Option<string>, n: nat): (r: Option<nat>)
    ensures r.Some? ==> r.value < n && r.value in rows && rows[r.value].customerId == key
    ensures r.Some? ==> forall j :: j in rows && j < r.value ==> rows[j].customerId != key
    ensures r.None? ==> forall j :: j in rows && j < n ==> rows[j].customerId != key
  {
    if n == 0 then None
    else
      match FirstMatch(rows, key, n - 1)
      case Some(i) => Some(i)
      case None => if n - 1 in rows && rows[n - 1].customerId == key then Some(n - 1) else None
  }

  /**
   * `Customer.find_by(customer_id: key)`: a matching row, or nil; `key` nil
   * looks for a row whose `customer_id` is NULL. The query has no ORDER BY;
   * the model answers with the smallest matching primary key.
   */
  function Find(s: TableState, key: Option<string>): (r: Option<nat>)
    ensures r.Some? ==> r.value in s.rows && s.rows[r.value].customerId == key
  {
    FirstMatch(s.rows, key, s.nextId)
  }

  /** `find_by` finds a row exactly when one matches, and what it finds matches. */
  lemma FindSound(s: TableState, key: Option<string>)
    requires WellFormed(s)
    ensures Find(s, key).Some? <==> exists i :: i in s.rows && s.rows[i].customerId == key
    ensures Find(s, key).Some? ==> Find(s, key).value in s.rows && s.rows[Find(s, key).value].customerId == key
  {
    if exists i :: i in s.rows && s.rows[i].customerId == key {
      var i :| i in s.rows && s.rows[i].customerId == key;
      assert i < s.nextId;
    }
  }

  /** For a non-nil key the unique index makes the match exact. */
  lemma FindUnique(s: TableState, key: Option<string>, i: nat)
    requires WellFormed(s) && key.Some?
    requires i in s.rows && s.rows[i].customerId == key
    ensures Find(s, key) == Some(i)
  {
    FindSound(s, key);
  }

  /** A row that matches and has no matching row before it is the one `find_by` returns. */
  lemma FindIsFirst(s: TableState, key: Option<string>, i: nat)
    requires i < s.nextId && i in s.rows && s.rows[i].customerId == key
    requires forall j :: j in s.rows && j < i ==> s.rows[j].customerId != key
    ensures Find(s, key) == Some(i)
  {
  }

  /** The table after an INSERT of `c` under a fresh primary key. */
  function Inserted(s: TableState, c: Customer): TableState {
    TableState(s.rows[s.nextId := c], s.nextId + 1)
  }

  /** After an UPDATE of the row `find_by` returned that keeps its `customer_id`, `find_by` still returns it. */
  lemma FindAfterUpdate(s: TableState, key: Option<string>, id: nat, c: Customer)
    requires Find(s, key) == Some(id) && c.customerId == key
    ensures Find(s.(rows := s.rows[id := c]), key) == Some(id)
  {
    FindIsFirst(s.(rows := s.rows[id := c]), key, id);
  }

  /** After an INSERT of a `customer_id` no row had, `find_by` returns the new row. */
  lemma FindAfterInsert(s: TableState, c: Customer)
    requires Find(s, c.customerId).None?
    ensures Find(Inserted(s, c), c.customerId) == Some(s.nextId)
  {
    FindIsFirst(Inserted(s, c), c.customerId, s.nextId);
  }

  /** An INSERT of a storable row whose `customer_id` no row has keeps the store invariant. */
  lemma InsertedWellFormed(s: TableState, c: Customer)
    requires WellFormed(s) && Storable(c) && !KeyTaken(s.rows, c.customerId, None)
    ensures WellFormed(Inserted(s, c))
    ensures s.nextId !in s.rows
  {
  }

  /** A storable UPDATE of row `i` that keeps its `customer_id` keeps the store invariant. */
  lemma UpdatedWellFormed(s: TableState, i: nat, c: Customer)
    requires WellFormed(s) && i in s.rows && c.customerId == s.rows[i].customerId && Storable(c)
    ensures WellFormed(s.(rows := s.rows[i := c]))
    ensures !KeyTaken(s.rows, c.customerId, Some(i))
  {
  }

  /** A DELETE keeps the store invariant. */
  lemma DeletedWellFormed(s: TableState, i: nat)
    requires WellFormed(s)
    ensures WellFormed(s.(rows := s.rows - {i}))
  {
  }

  /** The customer table, updated in place by the queries the routes issue. */
  class CustomerTable {
    var rows: Rows
    var nextId: nat
    /** The number of UPDATE statements issued so far. */
    ghost var updates: nat

    function State(): TableState
      reads this
    {
      TableState(rows, nextId)
    }

    ghost predicate Valid()
      reads this
    {
      WellFormed(State())
    }

    /** The table as `up` creates it. */
    constructor ()
      ensures Valid() && State() == EmptyTable
    {
      rows := map[];
      nextId := 0;
      updates := 0;
    }

    /**
     * INSERT: a weight outside the column's range raises before any SQL is
     * sent; otherwise the unique index refuses a `customer_id` another row
     * already has.
     */
    method Insert(c: Customer) returns (r: Result<nat, Error>)
      requires Valid()
      modifies this
      ensures Valid()
      ensures r.Err? <==> !Storable(c) || KeyTaken(old(rows), c.customerId, None)
      ensures !Storable(c) ==> r == Err(RangeError(c.weight.value))
      ensures Storable(c) && r.Err? ==> r == Err(RecordNotUnique)
      ensures r.Err? ==> State() == old(State())
      ensures r.Ok? ==> r.value == old(nextId) && State() == Inserted(old(State()), c)
      ensures updates == old(updates)
    {
      if !Storable(c) {
        r := Err(RangeError(c.weight.value));
      } else if KeyTaken(rows, c.customerId, None) {
        r := Err(RecordNotUnique);
      } else {
        InsertedWellFormed(State(), c);
        r := Ok(nextId);
        rows := rows[nextId := c];
        nextId := nextId + 1;
      }
    }

    /**
     * UPDATE of row `id`: a weight outside the column's range raises before
     * any SQL is sent; otherwise the statement is issued and the unique index
     * refuses a `customer_id` another row has.
     */
    method Update(id: nat, c: Customer) returns (r: Result<(), Error>)
      requires Valid() && id in rows
      modifies this
      ensures Valid()
      ensures r.Err? <==> !Storable(c) || KeyTaken(old(rows), c.customerId, Some(id))
      ensures !Storable(c) ==> r == Err(RangeError(c.weight.value)) && updates == old(updates)
      ensures Storable(c) ==> updates == old(updates) + 1
      ensures Storable(c) && r.Err? ==> r == Err(RecordNotUnique)
      ensures r.Err? ==> State() == old(State())
      ensures r.Ok? ==> State() == old(State()).(rows := old(rows)[id := c])
    {
      if !Storable(c) {
        r := Err(RangeError(c.weight.value));
        return;
      }
      updates := updates + 1;
      if KeyTaken(rows, c.customerId, Some(id)) {
        r := Err(RecordNotUnique);
      } else {
        rows := rows[id := c];
        r := Ok(());
      }
    }

    /** DELETE of row `id`. */
    method Delete(id: nat)
      requires Valid()
      modifies this
      ensures Valid()
      ensures State() == old(State()).(rows := old(rows) - {id})
      ensures updates == old(updates)
    {
      DeletedWellFormed(State(), id);
      rows := rows - {id};
    }
  }
}
