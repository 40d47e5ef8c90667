/** The decisions of the call-queue command-line helper: which locations and
    queues to act on, which users to add, and how a queue's agent list is
    rewritten for the requested join, unjoin, remove and add operations.
    The SDK calls are replaced by their results, given as inputs. */
module QueueHelper {
  import opened Webex
  import opened Seqs

  /** The word that stands for every agent of the queue. */
  const All: string := "all"

  function AgentNames(agents: seq<Agent>): set<string>
  {
    set a | a in agents :: a.Name()
  }

  function AgentIds(agents: seq<Agent>): set<string>
  {
    set a | a in agents :: a.agentId
  }

  // ---------------------------------------------------------------------------
  // Validating the names given for join, unjoin and remove

  /** `validate_agents`: the requested names that are agents of the queue
      (the others are reported as not found), or every agent when `all` is
      among the requested names. */
  function ValidateAgents(names: seq<string>, agentNames: set<string>): (r: set<string>)
    ensures All in names ==> r == agentNames
    ensures All !in names ==> forall n :: n in r <==> n in names && n in agentNames
    ensures r <= agentNames
  {
    if All in names then agentNames
    else
      var notFound := Filter(names, n => n !in agentNames);
      set n | n in names && n !in notFound
  }

  // ---------------------------------------------------------------------------
  // Filtering the users to add

  /** `agent_exists`: the names of the users asked for whose person id already
      is an agent id on the queue. */
  function AlreadyAgents(addUsers: seq<Person>, agentIds: set<string>): (r: seq<string>)
    ensures forall n :: n in r <==> exists u :: u in addUsers && u.personId in agentIds && u.Name() == n
  {
    if addUsers == [] then []
    else
      var u := addUsers[|addUsers| - 1];
      assert addUsers == addUsers[..|addUsers| - 1] + [u];
      AlreadyAgents(addUsers[..|addUsers| - 1], agentIds) + (if u.personId in agentIds then [u.Name()] else [])
  }

  /** No user asked for under this name already is an agent of the queue. */
  predicate NameFree(name: string, addUsers: seq<Person>, agentIds: set<string>)
  {
    forall v :: v in addUsers && v.Name() == name ==> v.personId !in agentIds
  }

  /** The test the users to add must pass: no user asked for under the same
      name already is an agent of the queue. */
  function AddWanted(addUsers: seq<Person>, agents: seq<Agent>): Person -> bool
  {
    (u: Person) => NameFree(u.Name(), addUsers, AgentIds(agents))
  }

  /** `to_add`: the users to add, without those that already are agents.
      Users are dropped by name, so a user that shares its name with one
      that already is an agent is dropped too; a user asked for twice is
      kept twice. */
  function UsersToAdd(addUsers: seq<Person>, agents: seq<Agent>): (r: seq<Person>)
    ensures r == Filter(addUsers, AddWanted(addUsers, agents))
    ensures IsSubsequence(r, addUsers)
    ensures forall u :: u in r ==> u.personId !in AgentIds(agents)
    ensures forall u :: u in r <==> u in addUsers && NameFree(u.Name(), addUsers, AgentIds(agents))
    ensures forall u :: u in addUsers && NameFree(u.Name(), addUsers, AgentIds(agents)) ==>
      multiset(r)[u] == multiset(addUsers)[u]
  {
    var agentExists := AlreadyAgents(addUsers, AgentIds(agents));
    if agentExists != [] then
      var keep := (u: Person) => u.Name() !in agentExists;
      FilterAgrees(addUsers, keep, AddWanted(addUsers, agents));
      Filter(addUsers, keep)
    else
      assert forall v :: v in addUsers && v.personId in AgentIds(agents) ==> v.Name() in agentExists;
      FilterKeepsAll(addUsers, AddWanted(addUsers, agents));
      addUsers
  }

  // ---------------------------------------------------------------------------
  // Rewriting the agent list

  /** One entry of the agent list sent with the update: a copy of an agent the
      queue has, or a new agent given only by its person id. */
  datatype QueueAgent = Existing(agent: Agent) | Added(personId: string)

  /** The join state an agent ends with: unjoin is applied after join, so it
      takes precedence; an agent named in neither keeps its state. */
  function FinalJoin(a: Agent, toJoin: set<string>, toUnjoin: set<string>): bool
  {
    if a.Name() in toUnjoin then false
    else if a.Name() in toJoin then true
    else a.joinEnabled
  }

  function Updated(a: Agent, toJoin: set<string>, toUnjoin: set<string>): Agent
  {
    a.(joinEnabled := FinalJoin(a, toJoin, toUnjoin))
  }

  /** The agent makes the update necessary: joining flips its flag, unjoining
      flips it (possibly right after a join), or it is removed. */
  predicate Touched(a: Agent, toJoin: set<string>, toUnjoin: set<string>, toRemove: set<string>)
  {
    (a.Name() in toJoin && !a.joinEnabled)
    || (a.Name() in toUnjoin && (a.joinEnabled || a.Name() in toJoin))
    || a.Name() in toRemove
  }

  /** The agents that stay on the queue, in their order, with their final
      join state. */
  function Retained(agents: seq<Agent>, toJoin: set<string>, toUnjoin: set<string>, toRemove: set<string>): seq<QueueAgent>
  {
    if agents == [] then []
    else
      var a := agents[|agents| - 1];
      Retained(agents[..|agents| - 1], toJoin, toUnjoin, toRemove)
        + (if a.Name() in toRemove then [] else [Existing(Updated(a, toJoin, toUnjoin))])
  }

  /** The agents appended for the users to add, in their order. */
  function NewEntries(toAdd: seq<Person>): seq<QueueAgent>
  {
    seq(|toAdd|, i requires 0 <= i < |toAdd| => Added(toAdd[i].personId))
  }

  /** The agent list unchanged. */
  function AsIs(agents: seq<Agent>): seq<QueueAgent>
  {
    seq(|agents|, i requires 0 <= i < |agents| => Existing(agents[i]))
  }

  /** The loop of `act_on_queue` over copies of the queue's agents: flags are
      flipped one step at a time, removed agents are skipped, new agents are
      appended, and `update_needed` records whether any step changed
      something. */
  method UpdateAgents(agents: seq<Agent>, toJoin: set<string>, toUnjoin: set<string>,
                      toRemove: set<string>, toAdd: seq<Person>)
    returns (newAgents: seq<QueueAgent>, updateNeeded: bool)
    ensures newAgents == Retained(agents, toJoin, toUnjoin, toRemove) + NewEntries(toAdd)
    ensures updateNeeded <==> exists i :: 0 <= i < |agents| && Touched(agents[i], toJoin, toUnjoin, toRemove)
  {
    newAgents := [];
    updateNeeded := false;
    var i := 0;
    while i < |agents|
      invariant 0 <= i <= |agents|
      invariant newAgents == Retained(agents[..i], toJoin, toUnjoin, toRemove)
      invariant updateNeeded <==> exists k :: 0 <= k < i && Touched(agents[k], toJoin, toUnjoin, toRemove)
    {
      var agent := agents[i];
      var name := agent.Name();
      if name in toJoin && !agent.joinEnabled {
        updateNeeded := true;
        agent := agent.(joinEnabled := true);
      }
      if name in toUnjoin && agent.joinEnabled {
        updateNeeded := true;
        agent := agent.(joinEnabled := false);
      }
      assert agents[..i + 1][..i] == agents[..i];
      if name in toRemove {
        updateNeeded := true;
      } else {
        newAgents := newAgents + [Existing(agent)];
      }
      i := i + 1;
    }
    assert agents[..i] == agents;
    newAgents := newAgents + NewEntries(toAdd);
  }

  /** An agent is kept exactly when it is not removed, and then with its final
      join state. */
  lemma {:induction false} RetainedMembers(agents: seq<Agent>, toJoin: set<string>, toUnjoin: set<string>, toRemove: set<string>)
    ensures forall e :: e in Retained(agents, toJoin, toUnjoin, toRemove) <==>
      exists a :: a in agents && a.Name() !in toRemove && e == Existing(Updated(a, toJoin, toUnjoin))
  {
    if agents != [] {
      var init := agents[..|agents| - 1];
      assert agents == init + [agents[|agents| - 1]];
      RetainedMembers(init, toJoin, toUnjoin, toRemove);
    }
  }

  /** No agent named for removal is left in the new agent list. */
  lemma RemovedAbsent(agents: seq<Agent>, toJoin: set<string>, toUnjoin: set<string>,
                      toRemove: set<string>, toAdd: seq<Person>)
    ensures forall e :: e in Retained(agents, toJoin, toUnjoin, toRemove) + NewEntries(toAdd) && e.Existing? ==>
      e.agent.Name() !in toRemove
  {
  }

  /** An agent named in none of the requests is kept exactly as it was. */
  lemma UntouchedUnchanged(agents: seq<Agent>, toJoin: set<string>, toUnjoin: set<string>, toRemove: set<string>, a: Agent)
    requires a in agents
    requires a.Name() !in toJoin && a.Name() !in toUnjoin && a.Name() !in toRemove
    ensures Existing(a) in Retained(agents, toJoin, toUnjoin, toRemove)
  {
  }

  /** The kept agents appear in the order they had on the queue. */
  lemma {:induction false} RetainedInOrder(agents: seq<Agent>, toJoin: set<string>, toUnjoin: set<string>, toRemove: set<string>)
    ensures IsSubsequence(Retained(agents, toJoin, toUnjoin, toRemove),
                          seq(|agents|, i requires 0 <= i < |agents| => Existing(Updated(agents[i], toJoin, toUnjoin))))
  {
    var all := seq(|agents|, i requires 0 <= i < |agents| => Existing(Updated(agents[i], toJoin, toUnjoin)));
    if agents != [] {
      var init := agents[..|agents| - 1];
      var allInit := seq(|init|, i requires 0 <= i < |init| => Existing(Updated(init[i], toJoin, toUnjoin)));
      assert all[..|all| - 1] == allInit;
      RetainedInOrder(init, toJoin, toUnjoin, toRemove);
      var r := Retained(agents, toJoin, toUnjoin, toRemove);
      var a := agents[|agents| - 1];
      if a.Name() !in toRemove {
        assert r[..|r| - 1] == Retained(init, toJoin, toUnjoin, toRemove);
      } else if r != [] {
        assert r == Retained(init, toJoin, toUnjoin, toRemove);
      }
    }
  }

  /** When no agent is touched the loop reproduces the agent list unchanged. */
  lemma {:induction false} UntouchedListUnchanged(agents: seq<Agent>, toJoin: set<string>, toUnjoin: set<string>, toRemove: set<string>)
    requires forall i :: 0 <= i < |agents| ==> !Touched(agents[i], toJoin, toUnjoin, toRemove)
    ensures Retained(agents, toJoin, toUnjoin, toRemove) == AsIs(agents)
  {
    if agents != [] {
      var init := agents[..|agents| - 1];
      UntouchedListUnchanged(init, toJoin, toUnjoin, toRemove);
      var a := agents[|agents| - 1];
      assert !Touched(a, toJoin, toUnjoin, toRemove);
      assert Updated(a, toJoin, toUnjoin) == a;
      assert AsIs(agents) == AsIs(init) + [Existing(a)];
    }
  }

  /** What `act_on_queue` decides for one queue. */
  datatype QueuePlan = QueuePlan(
    toJoin: set<string>, toUnjoin: set<string>, toRemove: set<string>,
    toAdd: seq<Person>, newAgents: seq<QueueAgent>,
    updateNeeded: bool, sendUpdate: bool)

  /** `act_on_queue` up to the update request: validate the names, filter the
      users to add, rewrite the agent list, and decide whether to send it. */
  method ActOnQueue(agents: seq<Agent>, joinAgents: seq<string>, unjoinAgents: seq<string>,
                    removeUsers: seq<string>, addUsers: seq<Person>, dryRun: bool)
    returns (plan: QueuePlan)
    ensures plan.toJoin == ValidateAgents(joinAgents, AgentNames(agents))
    ensures plan.toUnjoin == ValidateAgents(unjoinAgents, AgentNames(agents))
    ensures plan.toRemove == ValidateAgents(removeUsers, AgentNames(agents))
    ensures plan.toAdd == UsersToAdd(addUsers, agents)
    ensures plan.newAgents == Retained(agents, plan.toJoin, plan.toUnjoin, plan.toRemove) + NewEntries(plan.toAdd)
    ensures plan.updateNeeded <==>
      exists i :: 0 <= i < |agents| && Touched(agents[i], plan.toJoin, plan.toUnjoin, plan.toRemove)
    ensures plan.sendUpdate <==> (plan.updateNeeded || plan.toAdd != []) && !dryRun
    ensures !dryRun && !plan.sendUpdate ==> plan.newAgents == AsIs(agents)
  {
    var agentNames := AgentNames(agents);
    var toJoin := ValidateAgents(joinAgents, agentNames);
    var toUnjoin := ValidateAgents(unjoinAgents, agentNames);
    var toRemove := ValidateAgents(removeUsers, agentNames);
    var toAdd := UsersToAdd(addUsers, agents);
    var newAgents, updateNeeded := UpdateAgents(agents, toJoin, toUnjoin, toRemove, toAdd);
    var sendUpdate := (updateNeeded || toAdd != []) && !dryRun;
    if !updateNeeded {
      UntouchedListUnchanged(agents, toJoin, toUnjoin, toRemove);
    }
    plan := QueuePlan(toJoin, toUnjoin, toRemove, toAdd, newAgents, updateNeeded, sendUpdate);
  }

  // ---------------------------------------------------------------------------
  // Selecting locations and queues

  datatype Location = Location(locationId: string, name: string)

  /** A queue as listed: enough to filter it and to fetch its details. */
  datatype QueueRef = QueueRef(id: string, name: string, locationId: string)

  /** Locations to work on: all of them when no name is given, otherwise
      those whose name is given. */
  function SelectLocations(locations: seq<Location>, locationNames: seq<string>): (r: seq<Location>)
    ensures forall l :: l in r <==> l in locations && (locationNames == [] || l.name in locationNames)
    ensures IsSubsequence(r, locations)
  {
    Filter(locations, LocationWanted(locationNames))
  }

  function LocationWanted(locationNames: seq<string>): Location -> bool
  {
    (l: Location) => locationNames == [] || l.name in locationNames
  }

  lemma NoLocationNamesSelectsAll(locations: seq<Location>)
    ensures SelectLocations(locations, []) == locations
  {
    FilterKeepsAll(locations, LocationWanted([]));
  }

  /** Queues to act on: those named (all when no `--queue` is given) in one of
      the selected locations. */
  function SelectQueues(queues: seq<QueueRef>, queueNames: Option<seq<string>>, locationIds: set<string>): (r: seq<QueueRef>)
    ensures forall q :: q in r <==>
      q in queues && (queueNames.None? || q.name in queueNames.value) && q.locationId in locationIds
    ensures IsSubsequence(r, queues)
  {
    Filter(queues, (q: QueueRef) => (queueNames.None? || q.name in queueNames.value) && q.locationId in locationIds)
  }

  /** Why `main` stops before acting on any queue: no location matched, or no
      queue matched (the width computation `max` then fails on an empty
      sequence). */
  datatype SelectError = NoLocations | NoQueues

  datatype Targets = Targets(locations: seq<Location>, queues: seq<QueueRef>)

  function LocationIds(locations: seq<Location>): set<string>
  {
    set l | l in locations :: l.locationId
  }

  /** The selection in `main`, with its two ways to stop. */
  function SelectTargets(locations: seq<Location>, locationNames: seq<string>,
                         queues: seq<QueueRef>, queueNames: Option<seq<string>>): (r: Result<Targets, SelectError>)
    ensures r == Err(NoLocations) <==>
      forall l :: l in locations ==> locationNames != [] && l.name !in locationNames
    ensures r == Err(NoQueues) <==>
      SelectLocations(locations, locationNames) != []
      && SelectQueues(queues, queueNames, LocationIds(SelectLocations(locations, locationNames))) == []
    ensures r.Ok? ==> r.value.locations == SelectLocations(locations, locationNames)
    ensures r.Ok? ==> r.value.queues != []
    ensures r.Ok? ==> forall q :: q in r.value.queues ==>
      exists l :: l in r.value.locations && l.locationId == q.locationId
    ensures r.Ok? ==> forall q :: q in r.value.queues <==>
      q in queues && (queueNames.None? || q.name in queueNames.value)
      && exists l :: l in locations && (locationNames == [] || l.name in locationNames) && l.locationId == q.locationId
  {
    var selected := SelectLocations(locations, locationNames);
    if selected == [] then
      assert forall l :: l in locations ==> locationNames != [] && l.name !in locationNames;
      Err(NoLocations)
    else
      var chosen := SelectQueues(queues, queueNames, LocationIds(selected));
      if chosen == [] then Err(NoQueues)
      else Ok(Targets(selected, chosen))
  }

  // ---------------------------------------------------------------------------
  // Looking up the users to add

  /** The answer to the people search for one name: the people found, or the
      exception the search raised. */
  datatype PeopleLookup = LookupFailed | Found(people: seq<Person>)

  /** Index of the first person whose name is exactly `name`, or `|people|`. */
  function FirstMatch(name: string, people: seq<Person>): (k: nat)
    ensures k <= |people|
    ensures k < |people| ==> people[k].Name() == name
    ensures forall j :: 0 <= j < k ==> people[j].Name() != name
  {
    if people == [] then 0
    else if people[0].Name() == name then 0
    else 1 + FirstMatch(name, people[1..])
  }

  /** The user `validate_users` takes for one name: none when the search
      raised, otherwise the first person found under exactly that name. */
  function MatchOf(name: string, lookup: PeopleLookup): (r: Option<Person>)
    ensures lookup.LookupFailed? ==> r == None
    ensures lookup.Found? ==> (r.None? <==> forall p :: p in lookup.people ==> p.Name() != name)
    ensures r.Some? ==> exists k ::
      (0 <= k < |lookup.people| && lookup.people[k] == r.value && r.value.Name() == name
       && forall j :: 0 <= j < k ==> lookup.people[j].Name() != name)
  {
    match lookup
    case LookupFailed => None
    case Found(people) =>
      var k := FirstMatch(name, people);
      if k < |people| then Some(people[k]) else None
  }

  /** `validate_users`: for each name, in order, the user `MatchOf` takes for
      it; names without one are reported and skipped. The searches are paired
      with the names as `zip` pairs them. */
  function ValidateUsers(userNames: seq<string>, lookups: seq<PeopleLookup>): (r: seq<Person>)
    ensures |r| <= |userNames|
    ensures forall p :: p in r <==>
      exists i :: 0 <= i < |userNames| && i < |lookups| && MatchOf(userNames[i], lookups[i]) == Some(p)
  {
    if userNames == [] || lookups == [] then []
    else
      var m := MatchOf(userNames[0], lookups[0]);
      var rest := ValidateUsers(userNames[1..], lookups[1..]);
      (if m.Some? then [m.value] else []) + rest
  }

  /** `idx` picks, in increasing order, exactly the names that yield a user,
      and `r[j]` is the user of name `idx[j]`. */
  predicate PicksMatches(idx: seq<nat>, userNames: seq<string>, lookups: seq<PeopleLookup>, r: seq<Person>)
  {
    PicksUsers(idx, userNames, lookups, r) && Increasing(idx) && PicksAll(idx, userNames, lookups)
  }

  predicate PicksUsers(idx: seq<nat>, userNames: seq<string>, lookups: seq<PeopleLookup>, r: seq<Person>)
  {
    |idx| == |r|
    && forall j :: 0 <= j < |idx| ==>
         idx[j] < |userNames| && idx[j] < |lookups| && MatchOf(userNames[idx[j]], lookups[idx[j]]) == Some(r[j])
  }

  predicate Increasing(idx: seq<nat>)
  {
    forall j, k :: 0 <= j < k < |idx| ==> idx[j] < idx[k]
  }

  predicate PicksAll(idx: seq<nat>, userNames: seq<string>, lookups: seq<PeopleLookup>)
  {
    forall i :: 0 <= i < |userNames| && i < |lookups| && MatchOf(userNames[i], lookups[i]).Some? ==> i in idx
  }

  /** The users come back in the order of their names, one for each name that
      yields a user and none for a name whose search raised or found no exact
      match. */
  lemma {:induction false} ValidateUsersInOrder(userNames: seq<string>, lookups: seq<PeopleLookup>)
    ensures exists idx :: PicksMatches(idx, userNames, lookups, ValidateUsers(userNames, lookups))
  {
    if userNames == [] || lookups == [] {
      assert PicksMatches([], userNames, lookups, ValidateUsers(userNames, lookups));
    } else {
      var names', lookups' := userNames[1..], lookups[1..];
      var rest := ValidateUsers(names', lookups');
      ValidateUsersInOrder(names', lookups');
      var idx' :| PicksMatches(idx', names', lookups', rest);
      var m := MatchOf(userNames[0], lookups[0]);
      var idx := Shift(idx', m.Some?);
      var r := (if m.Some? then [m.value] else []) + rest;
      ShiftPicksUsers(idx', userNames, lookups, rest, m);
      ShiftIncreasing(idx', m.Some?);
      ShiftPicksAll(idx', userNames, lookups, m.Some?);
      assert ValidateUsers(userNames, lookups) == r;
      assert PicksMatches(idx, userNames, lookups, r);
    }
  }

  /** The picks for the names after the first, as positions in the whole list,
      behind position 0 if the first name is picked too. */
  function Shift(idx': seq<nat>, first: bool): (idx: seq<nat>)
    ensures |idx| == |idx'| + (if first then 1 else 0)
    ensures first ==> idx[0] == 0
    ensures forall j :: (if first then 1 else 0) <= j < |idx| ==> idx[j] == idx'[j - (if first then 1 else 0)] + 1
  {
    var shifted := seq(|idx'|, j requires 0 <= j < |idx'| => idx'[j] + 1);
    if first then [0] + shifted else shifted
  }

  lemma ShiftPicksUsers(idx': seq<nat>, userNames: seq<string>, lookups: seq<PeopleLookup>, rest: seq<Person>, m: Option<Person>)
    requires userNames != [] && lookups != []
    requires m == MatchOf(userNames[0], lookups[0])
    requires PicksUsers(idx', userNames[1..], lookups[1..], rest)
    ensures PicksUsers(Shift(idx', m.Some?), userNames, lookups, (if m.Some? then [m.value] else []) + rest)
  {
    var idx := Shift(idx', m.Some?);
    var r := (if m.Some? then [m.value] else []) + rest;
    var d := if m.Some? then 1 else 0;
    forall j | d <= j < |idx|
      ensures idx[j] < |userNames| && idx[j] < |lookups| && MatchOf(userNames[idx[j]], lookups[idx[j]]) == Some(r[j])
    {
      assert idx[j] == idx'[j - d] + 1 && r[j] == rest[j - d];
      assert userNames[idx[j]] == userNames[1..][idx'[j - d]];
      assert lookups[idx[j]] == lookups[1..][idx'[j - d]];
    }
  }

  lemma ShiftIncreasing(idx': seq<nat>, first: bool)
    requires Increasing(idx')
    ensures Increasing(Shift(idx', first))
  {
    var idx := Shift(idx', first);
    var d := if first then 1 else 0;
    forall j, k | 0 <= j < k < |idx| ensures idx[j] < idx[k] {
      if j >= d { assert idx'[j - d] < idx'[k - d]; }
    }
  }

  lemma ShiftPicksAll(idx': seq<nat>, userNames: seq<string>, lookups: seq<PeopleLookup>, first: bool)
    requires userNames != [] && lookups != []
    requires first == MatchOf(userNames[0], lookups[0]).Some?
    requires PicksAll(idx', userNames[1..], lookups[1..])
    ensures PicksAll(Shift(idx', first), userNames, lookups)
  {
    var idx := Shift(idx', first);
    var d := if first then 1 else 0;
    forall i | 0 <= i < |userNames| && i < |lookups| && MatchOf(userNames[i], lookups[i]).Some?
      ensures i in idx
    {
      if i == 0 {
        assert idx[0] == 0;
      } else {
        assert userNames[i] == userNames[1..][i - 1] && lookups[i] == lookups[1..][i - 1];
        var j :| 0 <= j < |idx'| && idx'[j] == i - 1;
        assert idx[j + d] == i;
      }
    }
  }

  /** When every search succeeded and found someone under exactly the name
      searched for, every name yields its user, in order. */
  lemma {:induction false} ValidateUsersFindsAll(userNames: seq<string>, lookups: seq<PeopleLookup>)
    requires |lookups| == |userNames|
    requires forall i :: 0 <= i < |lookups| ==>
      lookups[i].Found? && exists p :: p in lookups[i].people && p.Name() == userNames[i]
    ensures |ValidateUsers(userNames, lookups)| == |userNames|
    ensures forall i :: 0 <= i < |userNames| ==> ValidateUsers(userNames, lookups)[i].Name() == userNames[i]
  {
    if userNames != [] {
      var people := lookups[0].people;
      var p :| p in people && p.Name() == userNames[0];
      var j :| 0 <= j < |people| && people[j] == p;
      assert FirstMatch(userNames[0], people) <= j;
      ValidateUsersFindsAll(userNames[1..], lookups[1..]);
    }
  }
}
