/**
 * The contact table as the service sees it: an existence test by email and an
 * insert that either succeeds or fails with a reason. Which inserts fail is
 * not visible from the service, so a fault oracle decides: each entry is
 * consumed by one insert, `Some(reason)` makes that insert fail, and once the
 * oracle is used up every insert succeeds.
 */
module ContactStore {
  import opened Prelude
  import opened RowDecoder

  /** What one insert reports back. */
  datatype Insertion = Inserted | Failed(reason: string)

  /** The store's contents (keyed by email) and the inserts still to fail or succeed. */
  datatype StoreState = StoreState(contacts: map<string, Contact>, faults: seq<Option<string>>)

  /** The oracle after one insert has consumed its entry. */
  function Consume(faults: seq<Option<string>>): (rest: seq<Option<string>>) {
    if faults == [] then [] else faults[1..]
  }

  /** The outcome of inserting `c` into a store in state `s`, and the state afterwards. */
  function CreateEffect(s: StoreState, c: Contact): (r: (Insertion, StoreState)) {
    if s.faults != [] && s.faults[0].Some? then
      (Failed(s.faults[0].value), StoreState(s.contacts, Consume(s.faults)))
    else
      (Inserted, StoreState(s.contacts[c.email := c], Consume(s.faults)))
  }

  class Store {
    var contacts: map<string, Contact>
    var faults: seq<Option<string>>

    /** The store's abstract state. */
    function State(): StoreState
      reads this
    {
      StoreState(contacts, faults)
    }

    constructor (contacts: map<string, Contact>, faults: seq<Option<string>>)
      ensures State() == StoreState(contacts, faults)
    {
      this.contacts := contacts;
      this.faults := faults;
    }

    /** `Contact::create(c)`: stores `c` under its email unless the oracle makes it fail. */
    method Create(c: Contact) returns (r: Insertion)
      modifies this
      ensures (r, State()) == CreateEffect(old(State()), c)
      ensures r.Inserted? ==> contacts == old(contacts)[c.email := c]
      ensures r.Failed? ==> contacts == old(contacts)
    {
      if faults != [] && faults[0].Some? {
        r := Failed(faults[0].value);
      } else {
        r := Inserted;
        contacts := contacts[c.email := c];
      }
      faults := Consume(faults);
    }
  }
}
