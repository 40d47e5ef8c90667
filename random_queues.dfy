/** Creating or deleting the ten demo call queues of one location. Each queue
    is looked up by name first: an existing queue is not created again and a
    missing one is not deleted. A new queue gets up to ten agents sampled from
    the calling users, and its creation is retried while the service answers
    with status 502, for at most three attempts. The answers of the service
    and the random sample are inputs. */
module RandomQueues {
  import opened Webex
  import opened Seqs

  const QueueNames: seq<string> :=
    ["word support", "dc escalation", "office support", "hr", "it",
     "registration", "billing", "payroll", "events", "travel"]
  const FirstExtension: int := 7500
  /** The most agents a new queue is created with. */
  const Agents: nat := 10
  const MaxAttempts: nat := 3
  /** The only status on which creating a queue is tried again. */
  const RetryStatus: int := 502

  datatype CallQueue = CallQueue(id: string, name: string, extension: int, agentIds: seq<string>)

  // ---------------------------------------------------------------------------
  // Does the queue exist?

  /** Index of the first listed queue named exactly `name`, or `|listed|`. */
  function FirstNamed(listed: seq<CallQueue>, name: string): (k: nat)
    ensures k <= |listed|
    ensures k < |listed| ==> listed[k].name == name
    ensures forall j :: 0 <= j < k ==> listed[j].name != name
  {
    if listed == [] then 0
    else if listed[0].name == name then 0
    else 1 + FirstNamed(listed[1..], name)
  }

  /** The queue the listing holds under exactly this name, if any. */
  function ExistingQueue(listed: seq<CallQueue>, name: string): (r: Option<CallQueue>)
    ensures r.None? <==> forall q :: q in listed ==> q.name != name
    ensures r.Some? ==> r.value in listed && r.value.name == name
  {
    var k := FirstNamed(listed, name);
    if k < |listed| then Some(listed[k]) else None
  }

  // ---------------------------------------------------------------------------
  // The agents of a new queue

  /** `min(len(calling_users), AGENTS)`. */
  function SampleSize(population: nat): (k: nat)
    ensures k <= population && k <= Agents
    ensures k == population || k == Agents
  {
    if population < Agents then population else Agents
  }

  /** What `random.sample(population, k)` returns, up to its randomness: `k`
      distinct members of a population without repeated elements. */
  predicate IsSample(sample: seq<string>, population: seq<string>, k: nat)
  {
    |sample| == k && Distinct(sample) && forall x :: x in sample ==> x in population
  }

  /** A sample of the required size always exists, so the sample can be an
      input without excluding any population. */
  lemma SampleExists(population: seq<string>)
    requires Distinct(population)
    ensures IsSample(population[..SampleSize(|population|)], population, SampleSize(|population|))
  {
  }

  // ---------------------------------------------------------------------------
  // Creating with retries

  /** The answer to one create request. */
  datatype CreateOutcome = Created(queueId: string) | RestError(status: int)

  /** The attempt whose answer ends the retry loop: the first that is not a
      502 error, or the third. */
  function DecidingAttempt(outcomes: seq<CreateOutcome>): (k: nat)
    requires |outcomes| >= MaxAttempts
    ensures k < MaxAttempts
    ensures forall j :: 0 <= j < k ==> outcomes[j] == RestError(RetryStatus)
    ensures outcomes[k] != RestError(RetryStatus) || k == MaxAttempts - 1
  {
    if outcomes[0] != RestError(RetryStatus) then 0
    else if outcomes[1] != RestError(RetryStatus) then 1
    else 2
  }

  /** What creating ends with: the id of the new queue, or the status of the
      error raised. */
  function CreateResult(outcomes: seq<CreateOutcome>): Result<string, int>
    requires |outcomes| >= MaxAttempts
  {
    match outcomes[DecidingAttempt(outcomes)]
    case Created(queueId) => Ok(queueId)
    case RestError(status) => Err(status)
  }

  /** The retry loop: `outcomes[i]` is the answer to attempt `i`. The loop
      stops at the first success; an error other than 502 is raised at once,
      and a 502 only on the last attempt. */
  method CreateWithRetry(outcomes: seq<CreateOutcome>) returns (result: Result<string, int>, attempts: nat)
    requires |outcomes| >= MaxAttempts
    ensures 1 <= attempts <= MaxAttempts
    ensures forall i :: 0 <= i < attempts - 1 ==> outcomes[i] == RestError(RetryStatus)
    ensures outcomes[attempts - 1].Created? ==> result == Ok(outcomes[attempts - 1].queueId)
    ensures outcomes[attempts - 1].RestError? ==>
      result == Err(outcomes[attempts - 1].status)
      && (outcomes[attempts - 1].status != RetryStatus || attempts == MaxAttempts)
    ensures attempts == DecidingAttempt(outcomes) + 1 && result == CreateResult(outcomes)
  {
    var i := 0;
    while true
      invariant 0 <= i < MaxAttempts
      invariant forall j :: 0 <= j < i ==> outcomes[j] == RestError(RetryStatus)
      decreases MaxAttempts - i
    {
      match outcomes[i]
      case Created(queueId) =>
        return Ok(queueId), i + 1;
      case RestError(status) =>
        if status != RetryStatus || i == MaxAttempts - 1 {
          return Err(status), i + 1;
        }
      i := i + 1;
    }
  }

  /** The attempts end in success exactly when some answer among the first
      three is a success preceded only by 502 errors. */
  lemma RetrySucceedsWhen(outcomes: seq<CreateOutcome>, result: Result<string, int>, attempts: nat)
    requires |outcomes| >= MaxAttempts
    requires 1 <= attempts <= MaxAttempts
    requires forall i :: 0 <= i < attempts - 1 ==> outcomes[i] == RestError(RetryStatus)
    requires outcomes[attempts - 1].Created? ==> result == Ok(outcomes[attempts - 1].queueId)
    requires outcomes[attempts - 1].RestError? ==>
      result == Err(outcomes[attempts - 1].status)
      && (outcomes[attempts - 1].status != RetryStatus || attempts == MaxAttempts)
    ensures result.Ok? <==>
      exists k :: 0 <= k < MaxAttempts && outcomes[k].Created?
        && forall j :: 0 <= j < k ==> outcomes[j] == RestError(RetryStatus)
  {
  }

  // ---------------------------------------------------------------------------
  // One queue

  /** A request the task sends to the service. */
  datatype Call = CreateCall(name: string) | DeleteCall(queueId: string)

  /** What one task ends with: `None`, a queue, or the raised error. */
  datatype TaskResult = Skipped | Done(queue: CallQueue) | Raised(status: int)

  /** The result `create_or_delete_queue` ends with: an existing queue is
      not created again and is deleted on request, a missing queue is not
      deleted, and a new queue has the name, the extension and the sampled
      agents, unless creating it raised. */
  predicate TaskFits(result: TaskResult, create: bool, name: string, extension: int,
                     listed: seq<CallQueue>, sample: seq<string>, outcomes: seq<CreateOutcome>)
  {
    match ExistingQueue(listed, name)
    case Some(queue) => result == (if create then Skipped else Done(queue))
    case None =>
      if !create then result == Skipped
      else
        |outcomes| >= MaxAttempts
        && result == match CreateResult(outcomes)
                     case Ok(queueId) => Done(CallQueue(queueId, name, extension, sample))
                     case Err(status) => Raised(status)
  }

  /** `create_or_delete_queue`, given the listing of the location's queues
      under that name, the calling users, the random sample, and the answers
      to the create requests. `calls` are the requests sent; the details
      request after a create is answered with the settings sent. */
  method CreateOrDeleteQueue(create: bool, name: string, extension: int, listed: seq<CallQueue>,
                             callingUsers: seq<string>, sample: seq<string>, outcomes: seq<CreateOutcome>)
    returns (result: TaskResult, calls: seq<Call>)
    requires IsSample(sample, callingUsers, SampleSize(|callingUsers|))
    requires |outcomes| >= MaxAttempts
    ensures ExistingQueue(listed, name).Some? && create ==> result == Skipped && calls == []
    ensures ExistingQueue(listed, name).Some? && !create ==>
      result == Done(ExistingQueue(listed, name).value)
      && calls == [DeleteCall(ExistingQueue(listed, name).value.id)]
    ensures ExistingQueue(listed, name).None? && !create ==> result == Skipped && calls == []
    ensures ExistingQueue(listed, name).None? && create ==>
      1 <= |calls| <= MaxAttempts
      && (forall c :: c in calls ==> c == CreateCall(name))
      && (forall i :: 0 <= i < |calls| - 1 ==> outcomes[i] == RestError(RetryStatus))
      && (outcomes[|calls| - 1].Created? ==>
            result == Done(CallQueue(outcomes[|calls| - 1].queueId, name, extension, sample)))
      && (outcomes[|calls| - 1].RestError? ==>
            result == Raised(outcomes[|calls| - 1].status)
            && (result.status != RetryStatus || |calls| == MaxAttempts))
    ensures TaskFits(result, create, name, extension, listed, sample, outcomes)
    ensures result.Done? ==> result.queue.name == name
    ensures result.Done? && create ==>
      result.queue.extension == extension
      && IsSample(result.queue.agentIds, callingUsers, SampleSize(|callingUsers|))
  {
    var queue := ExistingQueue(listed, name);
    if queue.Some? {
      if create {
        return Skipped, [];
      } else {
        return Done(queue.value), [DeleteCall(queue.value.id)];
      }
    }
    if !create {
      return Skipped, [];
    }
    var created, attempts := CreateWithRetry(outcomes);
    calls := seq(attempts, _ => CreateCall(name));
    match created
    case Ok(queueId) =>
      result := Done(CallQueue(queueId, name, extension, sample));
    case Err(status) =>
      result := Raised(status);
  }

  // ---------------------------------------------------------------------------
  // All queues

  /** The extensions handed out by the generator, one per queue. */
  function Extensions(n: nat): (r: seq<int>)
    ensures |r| == n
    ensures forall i, j :: 0 <= i < j < n ==> r[i] < r[j]
    ensures forall i :: 0 <= i < n ==> r[i] >= FirstExtension
    ensures n > 0 ==> r[0] == FirstExtension
    ensures forall i :: 0 <= i < n - 1 ==> r[i + 1] == r[i] + 1
  {
    seq(n, i => FirstExtension + i)
  }

  /** What `main` reports: a reason to exit, or the queues worked on. */
  datatype ScriptOutcome = NoCallingUsers | LocationNotFound | Finished(queues: seq<CallQueue>)

  /** The results that are queues, neither `None` nor an exception, in task
      order. */
  function Reported(results: seq<TaskResult>): (r: seq<CallQueue>)
    ensures forall q :: q in r <==> Done(q) in results
    ensures |r| <= |results|
  {
    if results == [] then []
    else
      var init := results[..|results| - 1];
      var last := results[|results| - 1];
      assert results == init + [last];
      Reported(init) + (if last.Done? then [last.queue] else [])
  }

  function AsResults(queues: seq<CallQueue>): seq<TaskResult>
  {
    seq(|queues|, k requires 0 <= k < |queues| => Done(queues[k]))
  }

  /** The reported queues keep the order of their tasks. */
  lemma {:induction false} ReportedInOrder(results: seq<TaskResult>)
    ensures IsSubsequence(AsResults(Reported(results)), results)
  {
    if results != [] {
      var init := results[..|results| - 1];
      var last := results[|results| - 1];
      ReportedInOrder(init);
      var w := AsResults(Reported(results));
      if last.Done? {
        assert w[..|w| - 1] == AsResults(Reported(init));
      } else {
        assert w == AsResults(Reported(init));
      }
    }
  }

  /** `main`: stop without a calling user or without the location, otherwise
      run one task per queue name, with consecutive extensions, and report
      the queues. `listings[i]`, `samples[i]` and `outcomes[i]` are what the
      service and the sampling give task `i`. */
  method RunScript(create: bool, callingUsers: seq<string>, locationFound: bool,
                   listings: seq<seq<CallQueue>>, samples: seq<seq<string>>,
                   outcomes: seq<seq<CreateOutcome>>)
    returns (outcome: ScriptOutcome, results: seq<TaskResult>)
    requires |listings| == |QueueNames| && |samples| == |QueueNames| && |outcomes| == |QueueNames|
    requires forall i :: 0 <= i < |samples| ==> IsSample(samples[i], callingUsers, SampleSize(|callingUsers|))
    requires forall i :: 0 <= i < |outcomes| ==> |outcomes[i]| >= MaxAttempts
    ensures callingUsers == [] ==> outcome == NoCallingUsers && results == []
    ensures callingUsers != [] && !locationFound ==> outcome == LocationNotFound && results == []
    ensures callingUsers != [] && locationFound ==>
      |results| == |QueueNames| && outcome == Finished(Reported(results))
    ensures forall i :: 0 <= i < |results| ==>
      TaskFits(results[i], create, QueueNames[i], FirstExtension + i, listings[i], samples[i], outcomes[i])
    ensures forall i :: 0 <= i < |results| && results[i].Done? ==>
      results[i].queue.name == QueueNames[i]
      && (create ==> results[i].queue.extension == FirstExtension + i)
  {
    if callingUsers == [] {
      return NoCallingUsers, [];
    }
    if !locationFound {
      return LocationNotFound, [];
    }
    var extensions := Extensions(|QueueNames|);
    results := [];
    var i := 0;
    while i < |QueueNames|
      invariant 0 <= i <= |QueueNames| && |results| == i
      invariant forall k :: 0 <= k < i ==>
        TaskFits(results[k], create, QueueNames[k], FirstExtension + k, listings[k], samples[k], outcomes[k])
      invariant forall k :: 0 <= k < i && results[k].Done? ==>
        results[k].queue.name == QueueNames[k]
        && (create ==> results[k].queue.extension == FirstExtension + k)
    {
      var r, _ := CreateOrDeleteQueue(create, QueueNames[i], extensions[i], listings[i],
                                      callingUsers, samples[i], outcomes[i]);
      results := results + [r];
      i := i + 1;
    }
    outcome := Finished(Reported(results));
  }
}
