# Webex call-queue scripts, modelled in Dafny

This project models the decision logic of three scripts that manage Webex
Calling call queues through the `wxc_sdk` Python SDK:

- `queue_helper.py` is a command-line helper. It selects locations and queues
  by name. For every selected queue it validates the agent names given for
  join, unjoin and remove, and it drops the users to add who already are
  agents. It then rewrites the queue's agent list and decides whether to send
  an update.
- `read_queues.py` exports a CSV summary of all queues. Each row has the
  queue's name, location, phone number and extension. The agents go either
  into one comma-separated `agents` column, or into one column per agent name,
  holding that agent's position in the queue.
- `random_queues.py` creates or deletes ten demo queues in one location. A new
  queue gets up to ten agents sampled from the calling users. Its creation is
  retried while the service answers with status 502, for at most three
  attempts.

Every SDK request is replaced by its answer, which the model takes as an
input: listings, details, people searches, and the outcome of each create
attempt. `random.sample` is also an input, constrained to be a valid sample.
SDK objects are Dafny datatypes. Value semantics stand in for the deep copies
that `queue_helper.py` makes of the agents before changing them.

Modules:

- `Seqs` (`seqs.dfy`): subsequences, distinctness, and the list-comprehension
  filter.
- `Text` (`text.dfy`):
  - Python's `<` on `str`;
  - `sorted(set(...))`;
  - `','.join`, and `split` as its inverse.
- `Webex` (`webex.dfy`): the SDK values and `agent_name`.
- `QueueHelper` (`queue_helper.dfy`)
- `ReadQueues` (`read_queues.dfy`)
- `RandomQueues` (`random_queues.dfy`)

Behaviour of the code that the model keeps on purpose:

- **Users to add are dropped by name.** `queue_helper.py` removes a user
  whose name equals that of any user who already is an agent, even if their
  person id differs.
- **No matching queue means a failed run.** When locations match but no queue
  does, `max()` over the empty queue list raises. The model returns
  `Err(NoQueues)` for this case.
- **One agent name can collide with a fixed column.** Every agent name holds a
  blank, so among the fixed columns only `phone number` can also be an agent
  column. Such an agent's cell then overwrites the phone number.

## Model

| member | source | states |
|---|---|---|
| Webex.FullName | queue_helper.py:42-43 | the agent name is first name, one blank, last name: its length and the blank's position |
| Webex.FullNameInjective | read_queues.py:31-35 | if neither first name holds a blank, equal agent names mean equal first and last names |
| QueueHelper.ValidateAgents | queue_helper.py:62-74 | with `all` among the names, every agent of the queue; otherwise exactly the given names that are agents; never a name that is not an agent |
| QueueHelper.AlreadyAgents | queue_helper.py:82-84 | a name is listed iff some user to add has that name and a person id that is already an agent id |
| QueueHelper.UsersToAdd | queue_helper.py:82-94 | equals the list filtered by the name test alone, whatever `agent_exists` held: in order, keeping every copy of a user iff no user with the same name is already an agent; no kept user is already an agent |
| QueueHelper.UpdateAgents | queue_helper.py:97-129 | the new list is the kept agents, in order and with their final join state, followed by the added users; an update is needed iff some agent is joined, unjoined or removed |
| QueueHelper.RetainedMembers | queue_helper.py:107-125 | an agent entry is kept iff the agent is not removed, and then it carries the final join state (unjoin beats join) |
| QueueHelper.RemovedAbsent | queue_helper.py:119-124 | no agent named for removal stays in the new agent list |
| QueueHelper.UntouchedUnchanged | queue_helper.py:102-125 | an agent named in no request is kept exactly as it was |
| QueueHelper.RetainedInOrder | queue_helper.py:107-125 | the kept agents keep their order on the queue |
| QueueHelper.UntouchedListUnchanged | queue_helper.py:107-125 | when no agent is touched, the rewritten list equals the original agent list |
| QueueHelper.ActOnQueue | queue_helper.py:76-132 | each validated name set, the users to add, the new list and the update decision; the update is sent iff something changed or users are added, and it is not a dry run; with no update, the list is unchanged |
| QueueHelper.SelectLocations | queue_helper.py:201-205 | the selected locations, in order: all of them when no names are given, otherwise those whose name is given |
| QueueHelper.NoLocationNamesSelectsAll | queue_helper.py:201-205 | with no location names, every location is selected |
| QueueHelper.SelectQueues | queue_helper.py:224-230 | the queues, in order, that are named (all queues without `--queue`) and lie in a selected location |
| QueueHelper.SelectTargets | queue_helper.py:200-233 | fails with `NoLocations` iff no location matches, and with `NoQueues` (the `max()` at line 233) iff locations match but no queue does; on success the locations are the selection, the queues are non-empty, each lies in a selected location, and they are exactly the matching queues |
| QueueHelper.FirstMatch | queue_helper.py:164 | the first person whose name equals the name searched for, or none |
| QueueHelper.MatchOf | queue_helper.py:160-164 | none when the search raised or found nobody under exactly that name; otherwise the first person found under that name |
| QueueHelper.ValidateUsers | queue_helper.py:153-169 | a person is yielded iff it is the match of some name paired with a search; never more users than names |
| QueueHelper.ValidateUsersInOrder | queue_helper.py:158-168 | the users are the matches of exactly the names that have one, one per such name, in the order of the names |
| QueueHelper.ValidateUsersFindsAll | queue_helper.py:158-168 | when every search succeeds with an exact match, each name yields its user, in order |
| Text.LessIrreflexive | read_queues.py:78 | Python's `<` on `str` (code-point order) never relates a string to itself |
| Text.LessTransitive | read_queues.py:78 | Python's `<` on `str` is transitive |
| Text.LessTotal | read_queues.py:78 | any two different strings are related by `<` one way or the other, so `sorted` has one answer |
| Text.SortedSet | read_queues.py:78-79 | `sorted(set(xs))` is strictly sorted and holds exactly the elements of `xs` |
| Text.SortedUnique | read_queues.py:78-79 | two strictly sorted lists with the same elements are equal, so the sorted name list is unique |
| Text.StrictlySortedDistinct | read_queues.py:78-79 | a strictly sorted list has no repeated name |
| ReadQueues.ChainNames | read_queues.py:78-79 | a name occurs iff it is the name of an agent of some queue |
| ReadQueues.AllAgentNames | read_queues.py:77-79 | strictly sorted, without repeats, and holding exactly the names of the agents of all queues |
| ReadQueues.AgentColumnsMissFixedColumns | read_queues.py:81-87 | no agent column is named `name`, `location`, `extension` or `agents` |
| ReadQueues.FieldNames | read_queues.py:80-87 | the header is the four fixed columns, followed by `agents` or by all agent names |
| ReadQueues.AgentIndex | read_queues.py:110 | its keys are the queue's agent names, and each maps to the last position of that name |
| ReadQueues.BuildRow | read_queues.py:95-112 | the row's columns; the joined `agents` cell, or for each agent column the agent's last position or a blank; fixed cells kept unless an agent column overwrites them |
| ReadQueues.FillAgentCells | read_queues.py:107-112 | the loop adds exactly the agent columns, each holding the agent's last position or a blank, and leaves every other cell as it was |
| ReadQueues.BuildRows | read_queues.py:95-113 | one row per queue, row k built from listing k and details k: its columns, its agent cells and the fixed cells no agent column overwrites |
| ReadQueues.ExportCsv | read_queues.py:77-113 | the header as written, and one row per queue whose columns are exactly the header's, whose agent cells fit its queue, and which shows that queue's name, location and extension (and phone number, unless an agent has that name) |
| ReadQueues.RowShowsQueue | read_queues.py:97-100 | a row whose agent columns miss `name`, `location` and `extension` shows the queue's own values in them |
| ReadQueues.HeaderColumns | read_queues.py:81-87 | the header's columns are the fixed ones plus `agents` or the agent names |
| ReadQueues.AgentsCellRoundTrip | read_queues.py:103-106 | splitting the `agents` cell at commas gives back the queue's agent names, if the queue has agents and no name holds a comma |
| Text.Join | read_queues.py:106 | `','.join`: starts with the first part, has the parts' total length plus one per separator, and holds exactly the parts' characters plus the separator when there are two parts or more |
| Text.SplitJoin | read_queues.py:106 | `split` inverts `join` for a non-empty list of separator-free parts |
| Seqs.Filter | queue_helper.py:204-205 | the list comprehension keeps, in order, every copy of each element that passes the test and nothing else |
| RandomQueues.FirstNamed | random_queues.py:83-84 | the first listed queue with exactly that name, or none |
| RandomQueues.ExistingQueue | random_queues.py:82-84 | none iff no listed queue has that name; otherwise a listed queue with that name |
| RandomQueues.SampleSize | random_queues.py:99 | `min(len(calling_users), AGENTS)`: at most both, and equal to one of them |
| RandomQueues.SampleExists | random_queues.py:99 | a sample of that size exists for every population without repeats |
| RandomQueues.DecidingAttempt | random_queues.py:117-126 | the attempt that ends the loop: every earlier answer was a 502, and it is the first non-502 answer or the third attempt |
| RandomQueues.CreateWithRetry | random_queues.py:117-126 | one to three attempts; every attempt but the last got a 502; a success is returned, and an error is raised only if it is not a 502 or it came on the third attempt; the attempts end at the deciding attempt with its answer |
| RandomQueues.RetrySucceedsWhen | random_queues.py:117-126 | creation succeeds iff one of the first three answers is a success preceded only by 502 errors |
| RandomQueues.CreateOrDeleteQueue | random_queues.py:75-133 | an existing queue is not created again and is deleted on request; a missing queue is not deleted; a created queue has the name, the extension and a sample of the calling users, or the create error is raised; the requests sent (`TaskFits` collects the result part) |
| RandomQueues.Extensions | random_queues.py:152-156 | one extension per queue, consecutive from 7500 on, so strictly increasing |
| RandomQueues.Reported | random_queues.py:158-161 | a queue is reported iff some task returned it; errors and `None` are dropped |
| RandomQueues.ReportedInOrder | random_queues.py:158-161 | the reported queues keep their tasks' order |
| RandomQueues.RunScript | random_queues.py:138-161 | exit without calling users or without the location; otherwise result `i` is what `create_or_delete_queue` decides for queue name `i` with extension 7500 + `i` and task `i`'s answers, and the report is the done queues |

## Left out

- SDK requests (listing, details, update, delete, create, people search, location lookup) are not modelled: their answers are inputs.
- Only the errors of the create requests and of the people searches are modelled. Errors raised by the location and queue listings and by the details, delete and update requests are not.
- Token acquisition and caching are left out: the tokens are obtained before any of the modelled decisions, and the caching logic lives in the SDK's `Integration.get_cached_tokens_from_yml`.
- `asyncio.gather` is not modelled: tasks run one after the other in the model. The tasks share no state the model tracks, so their results do not depend on the interleaving.
- Command-line parsing, `.env` loading, logging, and every `print` are left out. So are the column widths computed for aligned output (`queue_len`, `location_len`, `name_len`), except that an empty queue list gives `NoQueues`.
- The CSV and JSON files are not written: the header and the rows are returned as values.
- The details request repeated after an update, and the summary printed from it, are left out in `queue_helper.py`.
- The details request after creating a queue is answered in the model with the settings sent.
- `get_calling_users` and `get_location` in `random_queues.py` are not modelled. The calling users are an input, and the location is a flag saying whether it was found.
- RandomQueues.CreateOrDeleteQueue: the sample is an input constrained by `IsSample` (size and membership), because `random.sample` is random.
- Optional SDK fields (`None` names, phone numbers or extensions) are not modelled: they are plain strings.
- ReadQueues.BuildRow: the cell holding an agent's position is modelled as a distinct `Position` value. The CSV writer's conversion of it to text is not modelled.
- The messages `validate_users` prints for names not found are not modelled.
- The notification and summary lines printed for each changed agent are not modelled.
