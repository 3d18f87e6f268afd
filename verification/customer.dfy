/**
 * The Customer record (domain/customer.py): three fields stored as given,
 * and the display string of `__repr__`.
 */
module Domain {
  import opened Wrappers
  import opened Decimal

  /** The fields a display string can be read back into. */
  datatype CustomerData = CustomerData(customer_id: int, name: string, email: string)

  const ReprOpen := "Customer(id="
  const NameOpen := ", name='"
  const EmailOpen := "', email='"
  const ReprClose := "')"

  class Customer {
    // Nothing in the repository or the record itself reassigns these after
    // construction, so they are constants here.
    const customer_id: int
    const name: string
    const email: string

    /** Any integer id and any strings are accepted; there is no validation. */
    constructor (customer_id: int, name: string, email: string)
      ensures this.customer_id == customer_id
      ensures this.name == name
      ensures this.email == email
    {
      this.customer_id := customer_id;
      this.name := name;
      this.email := email;
    }

    /**
     * `Customer(id=<id>, name='<name>', email='<email>')`, with name and email
     * inserted without escaping. The id can always be read back, and so can
     * all three fields when the name holds no quote character.
     */
    function Repr(): (s: string)
      ensures ParseHead(s) == Some((customer_id, name + EmailOpen + email + ReprClose))
      ensures '\'' !in name ==> ParseRepr(s) == Some(CustomerData(customer_id, name, email))
    {
      var s := ReprOpen + IntToString(customer_id) + NameOpen + name + EmailOpen + email + ReprClose;
      ReprReadsBack(customer_id, name, email, s);
      s
    }
  }

  /**
   * Splits `s` before the first occurrence of `sep`; None when `sep` does
   * not occur.
   */
  function SplitAtFirst(s: string, sep: char): (r: Option<(string, string)>)
    ensures r.Some? ==> r.value.0 + r.value.1 == s && sep !in r.value.0
                        && |r.value.1| > 0 && r.value.1[0] == sep
    ensures r.None? ==> sep !in s
  {
    if |s| == 0 then None
    else if s[0] == sep then Some(([], s))
    else match SplitAtFirst(s[1..], sep)
      case None => None
      case Some((before, after)) => Some(([s[0]] + before, after))
  }

  /** Reads the id of a display string and returns what follows ", name='". */
  function ParseHead(s: string): Option<(int, string)> {
    if !(ReprOpen <= s) then None
    else match SplitAtFirst(s[|ReprOpen|..], ',')
      case None => None
      case Some((idText, rest)) =>
        match ParseInt(idText)
        case None => None
        case Some(id) => if NameOpen <= rest then Some((id, rest[|NameOpen|..])) else None
  }

  /**
   * Reads the name and email from what follows ", name='", taking the name
   * to end at its first quote character.
   */
  function ParseBody(body: string): Option<(string, string)> {
    match SplitAtFirst(body, '\'')
    case None => None
    case Some((name, rest)) =>
      if EmailOpen <= rest && |rest| >= |EmailOpen| + |ReprClose|
         && rest[|rest| - |ReprClose|..] == ReprClose
      then Some((name, rest[|EmailOpen|..|rest| - |ReprClose|]))
      else None
  }

  /** Reads all three fields of a display string. */
  function ParseRepr(s: string): Option<CustomerData> {
    match ParseHead(s)
    case None => None
    case Some((id, body)) =>
      match ParseBody(body)
      case None => None
      case Some((name, email)) => Some(CustomerData(id, name, email))
  }

  /** A split point is determined by the text: the first separator wins. */
  lemma {:induction false} SplitAtFirstUnique(before: string, after: string, sep: char)
    requires sep !in before && |after| > 0 && after[0] == sep
    ensures SplitAtFirst(before + after, sep) == Some((before, after))
    decreases |before|
  {
    if before != [] {
      assert (before + after)[1..] == before[1..] + after;
      SplitAtFirstUnique(before[1..], after, sep);
      assert [before[0]] + before[1..] == before;
    } else {
      assert before + after == after;
    }
  }

  lemma HeadReadsBack(id: int, body: string)
    ensures ParseHead(ReprOpen + IntToString(id) + NameOpen + body) == Some((id, body))
  {
    var idText := IntToString(id);
    var rest := NameOpen + body;
    var s := ReprOpen + IntToString(id) + NameOpen + body;
    assert s == ReprOpen + (idText + rest);
    assert s[|ReprOpen|..] == idText + rest;
    assert ',' !in idText;
    SplitAtFirstUnique(idText, rest, ',');
    IntToStringRoundTrip(id);
    assert rest[|NameOpen|..] == body;
  }

  /**
   * ParseHead accepts only display strings: whatever it reads as an id and a
   * tail is the rendering of that id followed by that tail.
   */
  lemma HeadOnlyRenderings(s: string, id: int, body: string)
    requires ParseHead(s) == Some((id, body))
    ensures s == ReprOpen + IntToString(id) + NameOpen + body
  {
    var (idText, rest) := SplitAtFirst(s[|ReprOpen|..], ',').value;
    ParseIntOnlyRenderings(idText, id);
    assert rest == NameOpen + body;
    assert s == ReprOpen + s[|ReprOpen|..];
  }

  lemma BodyReadsBack(name: string, email: string)
    requires '\'' !in name
    ensures ParseBody(name + EmailOpen + email + ReprClose) == Some((name, email))
  {
    var tail := EmailOpen + email + ReprClose;
    assert name + EmailOpen + email + ReprClose == name + tail;
    SplitAtFirstUnique(name, tail, '\'');
    assert tail[|tail| - |ReprClose|..] == ReprClose;
    assert tail[|EmailOpen|..|tail| - |ReprClose|] == email;
  }

  lemma ReprReadsBack(id: int, name: string, email: string, s: string)
    requires s == ReprOpen + IntToString(id) + NameOpen + name + EmailOpen + email + ReprClose
    ensures ParseHead(s) == Some((id, name + EmailOpen + email + ReprClose))
    ensures '\'' !in name ==> ParseRepr(s) == Some(CustomerData(id, name, email))
  {
    var body := name + EmailOpen + email + ReprClose;
    Regroup(ReprOpen + IntToString(id) + NameOpen, name, EmailOpen, email, ReprClose);
    HeadReadsBack(id, body);
    if '\'' !in name {
      BodyReadsBack(name, email);
      FieldsFromParts(s, id, body, name, email);
    }
  }

  lemma Regroup(head: string, a: string, b: string, c: string, d: string)
    ensures head + a + b + c + d == head + (a + b + c + d)
  {
  }

  lemma FieldsFromParts(s: string, id: int, body: string, name: string, email: string)
    requires ParseHead(s) == Some((id, body))
    requires ParseBody(body) == Some((name, email))
    ensures ParseRepr(s) == Some(CustomerData(id, name, email))
  {
  }

  /**
   * Two customers print the same exactly when their ids agree and their
   * names and emails agree once joined by the "', email='" separator. So a
   * name containing that separator makes two different records print alike:
   * name "a', email='b" with email "c" and name "a" with email
   * "b', email='c" both print as Customer(id=1, name='a', email='b', email='c').
   */
  lemma ReprEqualIff(c1: Customer, c2: Customer)
    ensures c1.Repr() == c2.Repr() <==>
            c1.customer_id == c2.customer_id
            && c1.name + EmailOpen + c1.email == c2.name + EmailOpen + c2.email
  {
    var j1 := c1.name + EmailOpen + c1.email;
    var j2 := c2.name + EmailOpen + c2.email;
    if c1.Repr() == c2.Repr() {
      assert (c1.customer_id, j1 + ReprClose) == (c2.customer_id, j2 + ReprClose);
      DropClose(j1, j2);
    }
    ReprJoined(c1);
    ReprJoined(c2);
  }

  lemma DropClose(j1: string, j2: string)
    requires j1 + ReprClose == j2 + ReprClose
    ensures j1 == j2
  {
    assert (j1 + ReprClose)[..|j1|] == j1;
    assert (j2 + ReprClose)[..|j2|] == j2;
  }

  lemma ReprJoined(c: Customer)
    ensures c.Repr() == ReprOpen + IntToString(c.customer_id) + NameOpen
                        + (c.name + EmailOpen + c.email) + ReprClose
  {
    var head := ReprOpen + IntToString(c.customer_id) + NameOpen;
    assert c.Repr() == head + c.name + EmailOpen + c.email + ReprClose;
    JoinMiddle(head, c.name, EmailOpen, c.email, ReprClose);
  }

  lemma JoinMiddle(head: string, a: string, b: string, c: string, d: string)
    ensures head + a + b + c + d == head + (a + b + c) + d
  {
  }
}
