/**
 * The repository's own test cases (tests/test_customer_repository.py), and
 * the behaviours they and the record's users rely on, derived from the
 * contracts of InMemoryCustomerRepository alone.
 */
module Scenarios {
  import opened Wrappers
  import opened Domain
  import opened Repository

  /** A customer that was added is found again by its id: the same object. */
  method AddAndRetrieve(customer_id: int, name: string, email: string)
    returns (added: Customer, found: Option<Customer>)
    ensures added.customer_id == customer_id && added.name == name && added.email == email
    ensures found == Some(added)
  {
    var repo := new InMemoryCustomerRepository();
    added := new Customer(customer_id, name, email);
    repo.Add(added);
    found := repo.GetById(customer_id);
  }

  /**
   * Two customers with ids 1 and 2 are both listed, Alice before Bob, and
   * looking up id 1 gives Alice.
   */
  method ListTwo() returns (found: Option<Customer>, all: seq<Customer>)
    ensures |all| == 2
    ensures found == Some(all[0])
    ensures all[0].customer_id == 1 && all[0].name == "Alice" && all[0].email == "alice@example.com"
    ensures all[1].customer_id == 2 && all[1].name == "Bob" && all[1].email == "bob@example.com"
  {
    var repo := new InMemoryCustomerRepository();
    var alice := new Customer(1, "Alice", "alice@example.com");
    var bob := new Customer(2, "Bob", "bob@example.com");
    repo.Add(alice);
    repo.Add(bob);
    found := repo.GetById(1);
    all := repo.ListAll();
  }

  /** A fresh repository finds nothing and lists nothing. */
  method LookupInFresh(customer_id: int) returns (found: Option<Customer>, all: seq<Customer>)
    ensures found == None && all == []
  {
    var repo := new InMemoryCustomerRepository();
    found := repo.GetById(customer_id);
    all := repo.ListAll();
  }

  /**
   * Adding a second customer under an id already present replaces the
   * first: the lookup returns the second, and the listing still has one
   * element.
   */
  method Overwrite(customer_id: int, first: Customer, second: Customer)
    returns (found: Option<Customer>, all: seq<Customer>)
    requires first.customer_id == customer_id && second.customer_id == customer_id
    ensures found == Some(second) && all == [second]
  {
    var repo := new InMemoryCustomerRepository();
    repo.Add(first);
    repo.Add(second);
    found := repo.GetById(customer_id);
    all := repo.ListAll();
  }
}
