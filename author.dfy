/** The validators of Author (server/models.py:5-35). The database lookup that
    validate_name performs is replaced by the sequence of names the authors
    table already holds, passed in explicitly. */
module AuthorValidators {
  import opened Text
  import opened Validation

  /** Python's `not name or name.strip() == ""`. */
  predicate IsBlank(name: string) {
    |name| == 0 || Strip(name) == ""
  }

  /** validate_name: the "required" check first, then the uniqueness check
      against the stored names; an accepted name is returned unchanged. */
  function ValidateName(name: string, stored: seq<string>): (r: Result<string>)
    ensures r == Err(NameRequired) <==> AllSpace(name)
    ensures r == Err(NameNotUnique) <==> !AllSpace(name) && name in stored
    ensures r.Ok? <==> !AllSpace(name) && name !in stored
    ensures r.Ok? ==> r.value == name
  {
    StripEmptyIff(name);
    if IsBlank(name) then Err(NameRequired)
    else if name in stored then Err(NameNotUnique)
    else Ok(name)
  }

  /** validate_phone_number: exactly ten characters and all of them digits. */
  function ValidatePhoneNumber(phone: string): (r: Result<string>)
    ensures r.Ok? <==> |phone| == 10 && forall i :: 0 <= i < |phone| ==> IsDigit(phone[i])
    ensures r.Ok? ==> r.value == phone
    ensures r.Err? ==> r.error == BadPhone
  {
    if |phone| != 10 || !IsDigitString(phone) then Err(BadPhone)
    else Ok(phone)
  }

  /** No name occurs twice: the unique=True constraint on authors.name. */
  predicate Distinct(names: seq<string>) {
    forall i, j :: 0 <= i < j < |names| ==> names[i] != names[j]
  }

  /** The authors table as validate_name leaves it: names are distinct
      (unique=True) and none of them is blank (the "required" check). */
  ghost predicate WellFormedNames(names: seq<string>) {
    Distinct(names) && forall i :: 0 <= i < |names| ==> !AllSpace(names[i])
  }

  /** Appending a name that validate_name accepted keeps the table well formed. */
  lemma AcceptedNameKeepsTable(stored: seq<string>, name: string)
    requires WellFormedNames(stored)
    requires ValidateName(name, stored).Ok?
    ensures WellFormedNames(stored + [name])
  {
    var t := stored + [name];
    forall i, j | 0 <= i < j < |t| ensures t[i] != t[j] {
      if j == |stored| {
        assert t[i] == stored[i];
      }
    }
  }

  /** Re-assigning the name of the author at index k to a name that
      validate_name accepted keeps the table well formed. */
  lemma RenamedKeepsTable(stored: seq<string>, k: nat, name: string)
    requires WellFormedNames(stored)
    requires k < |stored|
    requires ValidateName(name, stored).Ok?
    ensures WellFormedNames(stored[k := name])
  {
    var t := stored[k := name];
    forall i, j | 0 <= i < j < |t| ensures t[i] != t[j] {
      if i == k {
        assert t[j] == stored[j];
      } else if j == k {
        assert t[i] == stored[i];
      }
    }
  }

  /** Every name of a well-formed table is rejected as not unique, including
      when it is assigned again to the author that already holds it: the
      lookup sees that author's own row. */
  lemma StoredNameRejected(stored: seq<string>, k: nat)
    requires WellFormedNames(stored)
    requires k < |stored|
    ensures ValidateName(stored[k], stored) == Err(NameNotUnique)
  {
  }

  /** Whatever the table holds, a blank name is reported as missing rather
      than as a duplicate: the "required" check runs first. */
  lemma RequiredBeforeUnique(name: string, stored: seq<string>)
    requires name in stored
    ensures ValidateName(name, stored).Err?
    ensures ValidateName(name, stored).error == NameRequired <==> Strip(name) == ""
  {
    StripEmptyIff(name);
  }

  /** Creating "Jane Doe" with phone "5551234567" in an empty table succeeds;
      creating "Jane Doe" a second time fails as not unique. */
  lemma JaneDoeScenario()
    ensures ValidateName("Jane Doe", []) == Ok("Jane Doe")
    ensures ValidatePhoneNumber("5551234567") == Ok("5551234567")
    ensures ValidateName("Jane Doe", ["Jane Doe"]) == Err(NameNotUnique)
  {
    assert !IsSpace("Jane Doe"[0]);
  }
}
