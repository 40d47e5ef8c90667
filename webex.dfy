/** The values the scripts receive from the Webex SDK, reduced to the fields
    they read, and the `agent_name` helper both queue scripts define. */
module Webex {

  datatype Option<T> = None | Some(value: T)

  datatype Result<T, E> = Ok(value: T) | Err(error: E)

  /** `f'{first_name} {last_name}'`: the display name used to match agents and
      users by name. */
  function FullName(firstName: string, lastName: string): (r: string)
    ensures |r| == |firstName| + 1 + |lastName|
    ensures r[|firstName|] == ' '
  {
    firstName + " " + lastName
  }

  /** Matching by name identifies a person only as long as first names hold
      no blank: then the name determines both parts. */
  lemma {:induction false} FullNameInjective(f1: string, l1: string, f2: string, l2: string)
    requires ' ' !in f1 && ' ' !in f2
    requires FullName(f1, l1) == FullName(f2, l2)
    ensures f1 == f2 && l1 == l2
  {
    var n := FullName(f1, l1);
    if |f1| < |f2| {
      assert false;
    } else if |f2| < |f1| {
      assert false;
    }
    assert f1 == n[..|f1|] == f2;
    assert l1 == n[|f1| + 1..] == l2;
  }

  /** A call-queue agent (`wxc_sdk.telephony.hg_and_cq.Agent`). */
  datatype Agent = Agent(agentId: string, firstName: string, lastName: string, joinEnabled: bool)
  {
    function Name(): string { FullName(firstName, lastName) }
  }

  /** A user as returned by the people API (`wxc_sdk.people.Person`). */
  datatype Person = Person(personId: string, firstName: string, lastName: string)
  {
    function Name(): string { FullName(firstName, lastName) }
  }
}
