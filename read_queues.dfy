/** The CSV summary of all call queues: one row per queue with its name,
    location, phone number and extension, and its agents either in a single
    comma-separated column or as one column per agent holding the agent's
    position in that queue. Listing and detail requests are replaced by their
    results, given as inputs; the rows are produced instead of written. */
module ReadQueues {
  import opened Webex
  import opened Text
  import Seqs

  /** A queue as listed: the columns the CSV takes from the listing. */
  datatype QueueListing = QueueListing(name: string, locationName: string)

  /** A queue's details: the columns the CSV takes from them. */
  datatype QueueDetails = QueueDetails(phoneNumber: string, extension: string, agents: seq<Agent>)

  /** A CSV cell: a string, or the integer position of an agent. */
  datatype Cell = Str(text: string) | Position(index: nat)

  type Row = map<string, Cell>

  const BaseColumns: seq<string> := ["name", "location", "phone number", "extension"]
  const AgentsColumn: string := "agents"
  /** The one fixed column an agent column can share its name with. */
  const PhoneNumber: string := "phone number"
  const Blank: Cell := Str("")

  function NamesInQueue(d: QueueDetails): seq<string>
  {
    seq(|d.agents|, i requires 0 <= i < |d.agents| => d.agents[i].Name())
  }

  /** The agent names of all queues, one queue after the other. */
  function ChainNames(details: seq<QueueDetails>): (r: seq<string>)
    ensures forall n :: n in r <==> exists d :: d in details && n in NamesInQueue(d)
  {
    if details == [] then []
    else
      var init := details[..|details| - 1];
      assert details == init + [details[|details| - 1]];
      ChainNames(init) + NamesInQueue(details[|details| - 1])
  }

  /** `all_agent_names`: every name of an agent of some queue, once, sorted. */
  function AllAgentNames(details: seq<QueueDetails>): (r: seq<string>)
    ensures StrictlySorted(r) && Seqs.Distinct(r)
    ensures forall n :: n in r <==> exists d :: d in details && n in NamesInQueue(d)
  {
    var r := SortedSet(ChainNames(details));
    StrictlySortedDistinct(r);
    r
  }

  /** Agent names always hold a blank, so of the fixed columns only
      `phone number` can also be the name of an agent column. */
  lemma AgentColumnsMissFixedColumns(details: seq<QueueDetails>)
    ensures forall n :: n in AllAgentNames(details) ==>
      n != "name" && n != "location" && n != "extension" && n != AgentsColumn
  {
    forall n | n in AllAgentNames(details)
      ensures n != "name" && n != "location" && n != "extension" && n != AgentsColumn
    {
      var d :| d in details && n in NamesInQueue(d);
      var i :| 0 <= i < |d.agents| && NamesInQueue(d)[i] == n;
      assert n[|d.agents[i].firstName|] == ' ';
      BlankNotInFixedColumns(n);
    }
  }

  /** A name holding a blank is none of the fixed column names without one. */
  lemma BlankNotInFixedColumns(n: string)
    requires ' ' in n
    ensures n != "name" && n != "location" && n != "extension" && n != AgentsColumn
  {
    if |n| == 4 { assert n != "name"; }
    if |n| == 6 { assert n != AgentsColumn; }
    if |n| == 8 { assert n != "location"; }
    if |n| == 9 { assert n != "extension"; }
  }

  /** The header: the four fixed columns, then `agents` or one column per
      agent name, built by appending to the fixed list. */
  method FieldNames(oneColumn: bool, allNames: seq<string>) returns (fieldNames: seq<string>)
    ensures |fieldNames| >= 4 && fieldNames[..4] == BaseColumns
    ensures oneColumn ==> fieldNames[4..] == [AgentsColumn]
    ensures !oneColumn ==> fieldNames[4..] == allNames
  {
    fieldNames := BaseColumns;
    if oneColumn {
      fieldNames := fieldNames + [AgentsColumn];
    } else {
      fieldNames := fieldNames + allNames;
    }
  }

  /** `agent_idx`: each name of the queue's agents mapped to its position; a
      later position overwrites an earlier one. */
  function AgentIndex(names: seq<string>): (m: map<string, nat>)
    ensures m.Keys == set n | n in names
    ensures forall n :: n in m ==> IsLastPosition(names, n, m[n])
  {
    if names == [] then map[]
    else
      var init := names[..|names| - 1];
      assert names == init + [names[|names| - 1]];
      AgentIndex(init)[names[|names| - 1] := |names| - 1]
  }

  /** `i` is the last position of `n` in `names`. */
  predicate IsLastPosition(names: seq<string>, n: string, i: nat)
  {
    i < |names| && names[i] == n && forall j :: i < j < |names| ==> names[j] != n
  }

  /** Every agent column holds the last position of that name in the queue's
      agent list, or a blank when the name is not an agent of the queue. */
  predicate AgentCellsHold(row: Row, queueNames: seq<string>, allNames: seq<string>)
  {
    forall n :: n in allNames ==> AgentCellHolds(row, queueNames, n)
  }

  predicate AgentCellHolds(row: Row, queueNames: seq<string>, n: string)
  {
    n in row &&
    if n in queueNames then row[n].Position? && IsLastPosition(queueNames, n, row[n].index)
    else row[n] == Blank
  }

  /** The `agents` cell holds the queue's agent names, in order, joined by
      commas. */
  predicate AgentsCellHolds(row: Row, detail: QueueDetails)
  {
    AgentsColumn in row && row[AgentsColumn] == AgentsCell(detail)
  }

  function FixedCells(queue: QueueListing, detail: QueueDetails): Row
  {
    map["name" := Str(queue.name), "location" := Str(queue.locationName),
        "phone number" := Str(detail.phoneNumber), "extension" := Str(detail.extension)]
  }

  /** The row of one queue: the fixed cells, then the agent cells. */
  method BuildRow(queue: QueueListing, detail: QueueDetails, oneColumn: bool, allNames: seq<string>)
    returns (row: Row)
    ensures row.Keys == (set c | c in BaseColumns) + (if oneColumn then {AgentsColumn} else set n | n in allNames)
    ensures oneColumn ==> AgentsCellHolds(row, detail)
    ensures !oneColumn ==> AgentCellsHold(row, NamesInQueue(detail), allNames)
    ensures FixedCellsHold(row, queue, detail, oneColumn, allNames)
  {
    var fixed := FixedCells(queue, detail);
    assert fixed.Keys == set c | c in BaseColumns;
    if oneColumn {
      row := fixed[AgentsColumn := AgentsCell(detail)];
    } else {
      row := FillAgentCells(fixed, NamesInQueue(detail), allNames);
    }
  }

  /** The `agents` cell: the queue's agent names joined by commas. */
  function AgentsCell(detail: QueueDetails): Cell
  {
    Str(Join(NamesInQueue(detail), ','))
  }

  /** The loop over the agent columns: each gets the agent's position in the
      queue, or a blank. */
  method FillAgentCells(fixed: Row, names: seq<string>, allNames: seq<string>) returns (row: Row)
    ensures row.Keys == fixed.Keys + set n | n in allNames
    ensures AgentCellsHold(row, names, allNames)
    ensures forall c :: c in fixed && c !in allNames ==> row[c] == fixed[c]
  {
    row := fixed;
    var agentIdx := AgentIndex(names);
    var i := 0;
    while i < |allNames|
      invariant 0 <= i <= |allNames|
      invariant row.Keys == fixed.Keys + set n | n in allNames[..i]
      invariant AgentCellsHold(row, names, allNames[..i])
      invariant forall c :: c in fixed && c !in allNames[..i] ==> row[c] == fixed[c]
    {
      var name := allNames[i];
      row := row[name := if name in agentIdx then Position(agentIdx[name]) else Blank];
      assert allNames[..i + 1] == allNames[..i] + [name];
      i := i + 1;
    }
    assert allNames[..i] == allNames;
  }

  /** The row of a queue: its columns, its agent cells, and the listing's and
      details' values in every fixed cell no agent column overwrites. */
  predicate RowFits(row: Row, queue: QueueListing, detail: QueueDetails, oneColumn: bool,
                    columns: set<string>, allNames: seq<string>)
  {
    row.Keys == columns
    && (oneColumn ==> AgentsCellHolds(row, detail))
    && (!oneColumn ==> AgentCellsHold(row, NamesInQueue(detail), allNames))
    && FixedCellsHold(row, queue, detail, oneColumn, allNames)
  }

  predicate FixedCellsHold(row: Row, queue: QueueListing, detail: QueueDetails, oneColumn: bool, allNames: seq<string>)
  {
    forall c :: c in FixedCells(queue, detail) && (oneColumn || c !in allNames) ==>
      c in row && row[c] == FixedCells(queue, detail)[c]
  }

  /** The columns of a row: the fixed ones, then `agents` or the agent names. */
  function Columns(oneColumn: bool, allNames: seq<string>): set<string>
  {
    (set c | c in BaseColumns) + (if oneColumn then {AgentsColumn} else set n | n in allNames)
  }

  /** One row per queue, in the order of the queues (`zip(queues, details)`). */
  method BuildRows(queues: seq<QueueListing>, details: seq<QueueDetails>, oneColumn: bool, allNames: seq<string>)
    returns (rows: seq<Row>)
    requires |details| == |queues|
    ensures |rows| == |queues|
    ensures forall k :: 0 <= k < |rows| ==>
      RowFits(rows[k], queues[k], details[k], oneColumn, Columns(oneColumn, allNames), allNames)
  {
    rows := [];
    var k := 0;
    while k < |queues|
      invariant 0 <= k <= |queues| && |rows| == k
      invariant forall j :: 0 <= j < k ==>
        RowFits(rows[j], queues[j], details[j], oneColumn, Columns(oneColumn, allNames), allNames)
    {
      var row := BuildRow(queues[k], details[k], oneColumn, allNames);
      rows := rows + [row];
      k := k + 1;
    }
  }

  /** The header and one row per queue, in the order of the queues. */
  method ExportCsv(queues: seq<QueueListing>, details: seq<QueueDetails>, oneColumn: bool)
    returns (header: seq<string>, rows: seq<Row>)
    requires |details| == |queues|
    ensures |header| >= 4 && header[..4] == BaseColumns
    ensures oneColumn ==> header[4..] == [AgentsColumn]
    ensures !oneColumn ==> header[4..] == AllAgentNames(details)
    ensures |rows| == |queues|
    ensures forall k :: 0 <= k < |rows| ==>
      RowFits(rows[k], queues[k], details[k], oneColumn, (set c | c in header), header[4..])
    ensures forall k :: 0 <= k < |rows| ==> ShowsQueue(rows[k], queues[k], details[k], header[4..])
  {
    var allNames := AllAgentNames(details);
    header := FieldNames(oneColumn, allNames);
    HeaderColumns(header, oneColumn, allNames);
    rows := BuildRows(queues, details, oneColumn, allNames);
    if oneColumn {
      forall k | 0 <= k < |rows|
        ensures RowFits(rows[k], queues[k], details[k], oneColumn, (set c | c in header), header[4..])
      {
        assert RowFits(rows[k], queues[k], details[k], oneColumn, Columns(oneColumn, allNames), allNames);
      }
    }
    AgentColumnsMissFixedColumns(details);
    forall k | 0 <= k < |rows| ensures ShowsQueue(rows[k], queues[k], details[k], header[4..]) {
      RowShowsQueue(rows[k], queues[k], details[k], oneColumn, header);
    }
  }

  /** The row shows the queue's name, location and extension, and its phone
      number unless an agent column has that name. */
  predicate ShowsQueue(row: Row, queue: QueueListing, detail: QueueDetails, agentColumns: seq<string>)
  {
    "name" in row && row["name"] == Str(queue.name)
    && "location" in row && row["location"] == Str(queue.locationName)
    && "extension" in row && row["extension"] == Str(detail.extension)
    && (PhoneNumber !in agentColumns ==> PhoneNumber in row && row[PhoneNumber] == Str(detail.phoneNumber))
  }

  lemma RowShowsQueue(row: Row, queue: QueueListing, detail: QueueDetails, oneColumn: bool, header: seq<string>)
    requires |header| >= 4
    requires RowFits(row, queue, detail, oneColumn, (set c | c in header), header[4..])
    requires "name" !in header[4..] && "location" !in header[4..] && "extension" !in header[4..]
    ensures ShowsQueue(row, queue, detail, header[4..])
  {
    var fixed := FixedCells(queue, detail);
    assert "name" in fixed && "location" in fixed && "extension" in fixed && PhoneNumber in fixed;
  }

  lemma HeaderColumns(header: seq<string>, oneColumn: bool, allNames: seq<string>)
    requires |header| >= 4 && header[..4] == BaseColumns
    requires oneColumn ==> header[4..] == [AgentsColumn]
    requires !oneColumn ==> header[4..] == allNames
    ensures (set c | c in header) == Columns(oneColumn, allNames)
  {
    var tail := if oneColumn then [AgentsColumn] else allNames;
    assert header == BaseColumns + tail;
    assert forall c :: c in header <==> c in BaseColumns || c in tail;
  }

  /** Reading the `agents` cell back with `split(',')` recovers the queue's
      agent names, as long as the queue has agents and no name holds a comma. */
  lemma AgentsCellRoundTrip(detail: QueueDetails)
    requires |detail.agents| > 0
    requires forall a :: a in detail.agents ==> ',' !in a.Name()
    ensures Split(AgentsCell(detail).text, ',') == NamesInQueue(detail)
  {
    var names := NamesInQueue(detail);
    forall k | 0 <= k < |names| ensures ',' !in names[k] {
      assert detail.agents[k] in detail.agents;
    }
    SplitJoin(names, ',');
  }
}
