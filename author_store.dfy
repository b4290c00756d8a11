/** The authors table seen through validate_name: a name reaches the table only
    when validate_name accepts it against the names already stored, which is
    what keeps authors.name unique (server/models.py:9, 14-25). */
module AuthorStore {
  import opened Validation
  import opened AuthorValidators

  class AuthorTable {
    /** The name column of the stored rows, in insertion order. */
    var names: seq<string>

    ghost predicate Valid()
      reads this
    {
      WellFormedNames(names)
    }

    constructor ()
      ensures Valid() && names == []
    {
      names := [];
    }

    /** Assigning the name of a new Author: the new row is stored only when
        validate_name accepts the name against the rows already stored. The
        phone number is validated on its own, by ValidatePhoneNumber. */
    method Create(name: string) returns (r: Result<string>)
      requires Valid()
      modifies this
      ensures Valid()
      ensures r == ValidateName(name, old(names))
      ensures names == if r.Ok? then old(names) + [name] else old(names)
    {
      r := ValidateName(name, names);
      if r.Ok? {
        AcceptedNameKeepsTable(names, name);
        names := names + [name];
      }
    }

    /** Assigning a new name to the stored author at index k: validate_name
        runs again, against every stored row, that author's own included. */
    method Rename(k: nat, name: string) returns (r: Result<string>)
      requires Valid() && k < |names|
      modifies this
      ensures Valid()
      ensures r == ValidateName(name, old(names))
      ensures names == if r.Ok? then old(names)[k := name] else old(names)
    {
      r := ValidateName(name, names);
      if r.Ok? {
        RenamedKeepsTable(names, k, name);
        names := names[k := name];
      }
    }
  }

  /** Creating "Jane Doe" twice through the table: the first succeeds, the
      second is rejected and leaves the table as it was. */
  method JaneDoeTwice() returns (first: Result<string>, second: Result<string>, stored: seq<string>)
    ensures first == Ok("Jane Doe")
    ensures second == Err(NameNotUnique)
    ensures stored == ["Jane Doe"]
  {
    var table := new AuthorTable();
    JaneDoeScenario();
    first := table.Create("Jane Doe");
    second := table.Create("Jane Doe");
    stored := table.names;
  }
}
