/**
 * The in-memory customer repository
 * (repository/in_memory_customer_repository.py): a Python dict from
 * customer id to Customer, which remembers the order in which its keys were
 * first inserted.
 */
module Repository {
  import opened Wrappers
  import opened Domain

  /**
   * The abstract value of the dict: its entries, and its keys in
   * first-insertion order (the order in which the dict iterates).
   */
  datatype Table = Table(entries: map<int, Customer>, order: seq<int>)

  predicate NoDuplicates(s: seq<int>) {
    forall i, j :: 0 <= i < j < |s| ==> s[i] != s[j]
  }

  /**
   * Every customer is stored under its own id, and the order lists every
   * key exactly once and nothing else.
   */
  ghost predicate WellFormed(t: Table) {
    (forall id :: id in t.entries ==> t.entries[id].customer_id == id)
    && NoDuplicates(t.order)
    && (forall i :: 0 <= i < |t.order| ==> t.order[i] in t.entries)
    && (forall id :: id in t.entries ==> id in t.order)
  }

  /** The dict `{}` built by `__init__`. */
  const Empty: Table := Table(map[], [])

  /** `dict.get(id)`: the stored customer, or None when the id is missing. */
  function Lookup(t: Table, customer_id: int): (r: Option<Customer>)
    ensures r.None? <==> customer_id !in t.entries
    ensures WellFormed(t) && r.Some? ==> r.value.customer_id == customer_id
  {
    if customer_id in t.entries then Some(t.entries[customer_id]) else None
  }

  /**
   * `d[c.customer_id] = c`: inserts or overwrites. A new key goes to the end
   * of the iteration order; an existing key keeps its place.
   */
  function Put(t: Table, c: Customer): (r: Table)
    ensures Lookup(r, c.customer_id) == Some(c)
    ensures forall id :: id != c.customer_id ==> Lookup(r, id) == Lookup(t, id)
    ensures WellFormed(t) ==> WellFormed(r)
  {
    var order := if c.customer_id in t.entries then t.order else t.order + [c.customer_id];
    Table(t.entries[c.customer_id := c], order)
  }

  /** `list(d.values())`: the stored customers in key iteration order. */
  function Values(t: Table): (r: seq<Customer>)
    requires WellFormed(t)
    ensures |r| == |t.order|
    ensures forall id :: id in t.entries ==> t.entries[id] in r
    ensures forall i, j :: 0 <= i < j < |r| ==> r[i].customer_id != r[j].customer_id
  {
    var r := seq(|t.order|, i requires 0 <= i < |t.order| => t.entries[t.order[i]]);
    assert forall id :: id in t.entries ==> t.entries[id] in r by {
      forall id | id in t.entries ensures t.entries[id] in r {
        var i :| 0 <= i < |t.order| && t.order[i] == id;
        assert r[i] == t.entries[id];
      }
    }
    r
  }

  /** The table after adding `cs` one after the other, starting from `t`. */
  function PutAll(t: Table, cs: seq<Customer>): Table
    decreases |cs|
  {
    if cs == [] then t else Put(PutAll(t, cs[..|cs| - 1]), cs[|cs| - 1])
  }

  function Ids(cs: seq<Customer>): seq<int> {
    seq(|cs|, i requires 0 <= i < |cs| => cs[i].customer_id)
  }

  /** Position of the first occurrence of `x` in `ids`. */
  function FirstIndex(ids: seq<int>, x: int): (k: nat)
    requires x in ids
    ensures k < |ids| && ids[k] == x && x !in ids[..k]
  {
    if ids[0] == x then 0 else 1 + FirstIndex(ids[1..], x)
  }

  /** Position of the last occurrence of `x` in `ids`. */
  function LastIndex(ids: seq<int>, x: int): (k: nat)
    requires x in ids
    ensures k < |ids| && ids[k] == x && x !in ids[k + 1..]
  {
    if ids[|ids| - 1] == x then |ids| - 1 else LastIndex(ids[..|ids| - 1], x)
  }

  lemma {:induction false} DistinctCardinality(s: seq<int>)
    requires NoDuplicates(s)
    ensures |set k | k in s| == |s|
    decreases |s|
  {
    if s != [] {
      var init, last := s[..|s| - 1], s[|s| - 1];
      assert s == init + [last];
      DistinctCardinality(init);
      assert (set k | k in s) == (set k | k in init) + {last};
    }
  }

  /** `list_all` has exactly one element per distinct stored id. */
  lemma ValuesLength(t: Table)
    requires WellFormed(t)
    ensures |Values(t)| == |t.entries|
  {
    DistinctCardinality(t.order);
    forall k | k in t.order ensures k in t.entries {
      var i :| 0 <= i < |t.order| && t.order[i] == k;
    }
    var keys := set k | k in t.order;
    assert forall k :: k in keys <==> k in t.entries.Keys;
    assert keys == t.entries.Keys;
  }

  /** Overwriting an existing id keeps the order and replaces only that entry. */
  lemma PutExisting(t: Table, c: Customer)
    requires WellFormed(t) && c.customer_id in t.entries
    ensures Put(t, c).order == t.order
    ensures |Values(Put(t, c))| == |Values(t)|
    ensures forall i :: 0 <= i < |t.order| ==>
              Values(Put(t, c))[i] == if t.order[i] == c.customer_id then c else Values(t)[i]
  {
  }

  /** A new id is listed last, after everything listed before. */
  lemma PutNew(t: Table, c: Customer)
    requires WellFormed(t) && c.customer_id !in t.entries
    ensures Values(Put(t, c)) == Values(t) + [c]
  {
  }

  lemma {:induction false} FirstIndexAppend(ids: seq<int>, y: int, x: int)
    requires x in ids
    ensures FirstIndex(ids + [y], x) == FirstIndex(ids, x)
  {
    if ids[0] != x {
      assert (ids + [y])[1..] == ids[1..] + [y];
      FirstIndexAppend(ids[1..], y, x);
    }
  }

  /**
   * The table holds exactly the ids of `ids`, and lists them in the order of
   * their first occurrence in `ids`.
   */
  ghost predicate OrderedByFirstAdd(t: Table, ids: seq<int>) {
    WellFormed(t)
    && (forall id :: id in t.entries <==> id in ids)
    && forall i, j :: 0 <= i < j < |t.order| ==>
         t.order[i] in ids && t.order[j] in ids
         && FirstIndex(ids, t.order[i]) < FirstIndex(ids, t.order[j])
  }

  lemma PutKeepsFirstAddOrder(t: Table, ids: seq<int>, c: Customer)
    requires OrderedByFirstAdd(t, ids)
    ensures OrderedByFirstAdd(Put(t, c), ids + [c.customer_id])
  {
    var r, ids' := Put(t, c), ids + [c.customer_id];
    forall id ensures id in r.entries <==> id in ids' {
      assert id in ids' <==> id in ids || id == c.customer_id;
    }
    forall i, j | 0 <= i < j < |r.order|
      ensures r.order[i] in ids' && r.order[j] in ids'
      ensures FirstIndex(ids', r.order[i]) < FirstIndex(ids', r.order[j])
    {
      assert r.order[i] in t.entries;
      FirstIndexAppend(ids, c.customer_id, r.order[i]);
      if j < |t.order| {
        FirstIndexAppend(ids, c.customer_id, r.order[j]);
      } else {
        // r.order[j] is the id just added, new to the table.
        assert ids'[..|ids|] == ids;
        assert FirstIndex(ids', c.customer_id) == |ids|;
      }
    }
  }

  /**
   * `list_all` order is the order in which ids were first added: of two
   * listed ids, the one listed earlier was first added earlier; and the
   * listed ids are exactly the ids added.
   */
  lemma {:induction false} PutAllOrder(cs: seq<Customer>)
    ensures OrderedByFirstAdd(PutAll(Empty, cs), Ids(cs))
    decreases |cs|
  {
    if cs != [] {
      var init := cs[..|cs| - 1];
      PutAllOrder(init);
      assert Ids(cs) == Ids(init) + [cs[|cs| - 1].customer_id];
      PutKeepsFirstAddOrder(PutAll(Empty, init), Ids(init), cs[|cs| - 1]);
    }
  }

  /** Last write wins: each id maps to the customer added last with that id. */
  lemma {:induction false} PutAllLatest(cs: seq<Customer>, customer_id: int)
    requires customer_id in Ids(cs)
    ensures Lookup(PutAll(Empty, cs), customer_id) == Some(cs[LastIndex(Ids(cs), customer_id)])
    decreases |cs|
  {
    var init, c := cs[..|cs| - 1], cs[|cs| - 1];
    assert Ids(cs) == Ids(init) + [c.customer_id];
    if c.customer_id != customer_id {
      assert Ids(cs)[..|cs| - 1] == Ids(init);
      PutAllLatest(init, customer_id);
    }
  }

  class InMemoryCustomerRepository {
    var customers: map<int, Customer>
    // The dict's key iteration order.
    var order: seq<int>

    function Model(): Table
      reads this
    {
      Table(customers, order)
    }

    ghost predicate Valid()
      reads this
    {
      WellFormed(Model())
    }

    /** A new repository holds no customers. */
    constructor ()
      ensures Valid() && Model() == Empty
    {
      customers := map[];
      order := [];
    }

    /** Stores `customer` under its id, overwriting any earlier entry; never fails. */
    method Add(customer: Customer)
      requires Valid()
      modifies this
      ensures Valid() && Model() == Put(old(Model()), customer)
    {
      if customer.customer_id !in customers {
        order := order + [customer.customer_id];
      }
      customers := customers[customer.customer_id := customer];
    }

    /** The very object stored under `customer_id`, or None; changes nothing. */
    method GetById(customer_id: int) returns (r: Option<Customer>)
      requires Valid()
      ensures r.Some? <==> customer_id in customers
      ensures r.Some? ==> r.value == customers[customer_id]
      ensures r == Lookup(Model(), customer_id)
      ensures r.Some? ==> r.value.customer_id == customer_id
    {
      if customer_id in customers {
        r := Some(customers[customer_id]);
      } else {
        r := None;
      }
    }

    /** Every stored customer once, in first-insertion order of ids; changes nothing. */
    method ListAll() returns (r: seq<Customer>)
      requires Valid()
      ensures r == Values(Model())
      ensures |r| == |customers|
      ensures forall i :: 0 <= i < |r| ==> order[i] in customers && r[i] == customers[order[i]]
      ensures forall i, j :: 0 <= i < j < |r| ==> r[i].customer_id != r[j].customer_id
    {
      r := Values(Model());
      ValuesLength(Model());
    }
  }
}
