# Customer repository, modelled in Dafny

This project models a small in-memory data-access layer for one entity, the
`Customer`. A customer is a record with an integer id, a name and an email,
plus a display string (`__repr__`). The repository stores customers in a
Python dict keyed by id. Its three operations are:

- `add` inserts a customer, or overwrites the one already stored under that id;
- `get_by_id` returns the stored customer, or `None`;
- `list_all` returns every stored customer, in the dict's iteration order.

Files:

- `wrappers.dfy` (`Wrappers`): the `Option` type that stands for `Optional[Customer]`.
- `decimal.dfy` (`Decimal`): the decimal rendering of Python's `str(int)`, which the display string uses
  for the id. Python's limit on the number of digits is not modelled (see "## Left out").
  It also holds a reader `ParseInt` that is the partner definition the rendering is proved against.
- `customer.dfy` (`Domain`): the `Customer` class and its display string `Repr`.
  `ParseHead` and `ParseRepr` read a display string back into fields.
- `repository.dfy` (`Repository`): the dict's abstract value `Table` and its operations `Put`, `Lookup`
  and `Values`. Also the class `InMemoryCustomerRepository`, whose methods are proved against them.
- `scenarios.dfy` (`Scenarios`): the repository's test cases and usage scenarios.
  Each is a client method whose result follows from the class contracts alone.

Modelling decisions:

- **Customer identity.** `Customer` is a class, and the repository stores and returns references.
  `GetById` returns the very object that `Add` stored. Python's `Customer` defines no `__eq__`,
  so the test's `repo.get_by_id(1) == customer` is object identity.
- **Customer fields are constants.** No code in the modelled files assigns a customer's fields
  after `__init__`. Python would allow it.
- **Dict state.** The dict becomes a `map<int, Customer>` and a `seq<int>` of keys in first-insertion
  order. That is the order in which a Python dict iterates its values. Overwriting an existing key
  does not move it.
- **Read-only queries.** `GetById` and `ListAll` have no `modifies` clause, so Dafny guarantees they
  change nothing. `Add` may change only the repository object (`modifies this`), never a customer.
- **Display format.** The display string is `Customer(id=<id>, name='<name>', email='<email>')`.
  It starts with `Customer(` and ends with `)`.
- **Lookup result.** A lookup returns the stored object itself, not merely a customer with equal fields.
- **Invariant.** Every customer is stored under its own id, because `add` keys the dict by
  `customer.customer_id`. So a lookup of id `k` returns a customer whose id is `k`, and the listing never
  holds two customers with the same id.

## Model

| member | source | states |
|---|---|---|
| `Domain.Customer.constructor` | domain/customer.py:2-5 | stores id, name and email exactly as given; there is no precondition, so any integer and any strings are accepted and no error path exists |
| `Domain.Customer.Repr` | domain/customer.py:7-8 | the id can be read back from the display string, together with the text after `name='`; when the name holds no quote, the name and email are read back exactly; as a function it changes no field |
| `Domain.ReprEqualIff` | domain/customer.py:8 | two customers print alike if and only if their ids agree and their name and email agree once joined by `', email='`; because nothing is escaped, different records can print alike |
| `Decimal.NatToString` | domain/customer.py:8 | the rendering of a non-negative id is a non-empty string of decimal digits with no leading zero |
| `Decimal.IntToString` | domain/customer.py:8 | `str(customer_id)` inside the f-string: a non-empty string of `-` and decimal digits; its value is stated by `Decimal.IntToStringRoundTrip` |
| `Decimal.IntToStringRoundTrip` | domain/customer.py:8 | reading back the rendering of any integer id, negative ones included, gives that integer |
| `Decimal.ParseIntOnlyRenderings` | domain/customer.py:8 | the reader accepts only canonical renderings: no leading zeros and no `-0`; any string it reads as `i` is exactly the rendering of `i` |
| `Domain.HeadOnlyRenderings` | domain/customer.py:8 | any string the display-string reader accepts is the prefix, the rendering of the id read, and `, name='`, followed by the tail; so the id part of the display string is determined exactly |
| `Decimal.IntToStringInjective` | domain/customer.py:8 | two ids render the same if and only if they are equal |
| `Repository.Put` | repository/in_memory_customer_repository.py:10 | after storing `c`, a lookup of `c`'s id gives `c`, every other id looks up as before, and a well-formed table stays well-formed: each customer under its own id, every key listed once |
| `Repository.Lookup` | repository/in_memory_customer_repository.py:13 | `dict.get`: None exactly when the id is not stored; in a well-formed table a found customer has the id looked up; `Repository.Put` and `Repository.PutAllLatest` state what it returns after adds |
| `Repository.Values` | repository/in_memory_customer_repository.py:16 | `list(d.values())` on a well-formed table: one element per listed key, every stored customer present, no two with the same id; `Repository.ValuesLength`, `Repository.PutNew`, `Repository.PutExisting` and `Repository.PutAllOrder` state its length and order |
| `Repository.ValuesLength` | repository/in_memory_customer_repository.py:16 | the listing has exactly one element per distinct stored id |
| `Repository.PutExisting` | repository/in_memory_customer_repository.py:10-16 | overwriting an id already present keeps the key order and the listing length; only that id's position changes, to the new customer |
| `Repository.PutNew` | repository/in_memory_customer_repository.py:10-16 | adding a new id appends its customer at the end of the listing |
| `Repository.PutKeepsFirstAddOrder` | repository/in_memory_customer_repository.py:10 | one insert keeps the invariant: the stored ids are exactly the ids added, listed in order of first addition |
| `Repository.PutAllOrder` | repository/in_memory_customer_repository.py:9-16 | after any sequence of adds to an empty repository, the stored ids are exactly the ids added, and they are listed in order of first addition |
| `Repository.PutAllLatest` | repository/in_memory_customer_repository.py:9-13 | after any sequence of adds to an empty repository, each id looks up to the customer added last under it (last write wins) |
| `Repository.InMemoryCustomerRepository.constructor` | repository/in_memory_customer_repository.py:6-7 | a new repository holds the empty dict: every lookup gives None and the listing is empty |
| `Repository.InMemoryCustomerRepository.Add` | repository/in_memory_customer_repository.py:9-10 | the new state is the old one with the customer stored under its id (insert or overwrite, never an error); the invariant is kept |
| `Repository.InMemoryCustomerRepository.GetById` | repository/in_memory_customer_repository.py:12-13 | returns the stored object for a present id and None for a missing one, without failing and without changing the state; a customer found under `k` has id `k` |
| `Repository.InMemoryCustomerRepository.ListAll` | repository/in_memory_customer_repository.py:15-16 | returns one customer per stored id, each the one stored for the id at that position of the key order, no two with the same id; changes nothing |
| `Scenarios.AddAndRetrieve` | tests/test_customer_repository.py:4-8 | adding a customer to a fresh repository and looking its id up returns that same object |
| `Scenarios.ListTwo` | tests/test_customer_repository.py:10-15 | after adding ids 1 and 2 the listing has length 2, Alice before Bob, and a lookup of id 1 gives the listed Alice object |
| `Scenarios.LookupInFresh` | repository/in_memory_customer_repository.py:6-16 | on a fresh repository any lookup gives None and the listing is empty |
| `Scenarios.Overwrite` | repository/in_memory_customer_repository.py:9-16 | re-adding an id replaces the stored customer; the lookup gives the new one and the listing still has one element |

## Left out

- Domain.Customer.Repr: renders every id. Python 3.11 and later (and some security releases of 3.7 to 3.10)
  raise `ValueError` when `str` converts an int of more than 4300 digits. That limit is configurable at run time
  (`sys.set_int_max_str_digits`), so for such an id `__repr__` can fail where `Repr` does not.
- Decimal.IntToString: has no digit limit, for the same reason as `Domain.Customer.Repr` above.

- The abstract base class `CustomerRepository` (repository/customer_repository.py:5-16) is not a
  separate Dafny type, because this model uses no traits. Its three abstract signatures are those of
  `InMemoryCustomerRepository`:
  `Add` takes a customer and returns nothing; `GetById` takes an int and returns `Option<Customer>`;
  `ListAll` takes nothing and returns a sequence. So nothing in the model checks that a second
  implementation would supply all three.
- Python's `abc` enforcement, dict hashing and `typing` annotations are runtime machinery, not behaviour.
- The demo driver `app.py` only prints results (console I/O).
  Its two adds, its lookup of id 1 and its listing are the calls in `Scenarios.ListTwo`.
- Python's `str` of a string inside the f-string is the string itself. Unicode details of `str`
  (code points beyond `char`) are not modelled: strings are `seq<char>`.
- Assigning a customer's attributes after construction is possible in Python but done nowhere in the
  code. It is not modelled, because the fields are constants.
