/**
 * The task service of app.py: the request checks shared by the create and
 * update handlers, the row selection of the list handler, and the five
 * handlers as methods on the `tasks` table. Each handler takes the fields
 * already extracted from the request and returns the HTTP status code and
 * the JSON body it would send.
 */
module Tasks {
  import opened Optional
  import opened Validation

  /** One row of the `tasks` table without its id (columns title, description, status, due_date). */
  datatype Task = Task(title: string, description: Option<string>, status: string, dueDate: Option<string>)

  /** A task as the API reports it: `id`, `titulo`, `descricao`, `status`, `data_vencimento`. */
  datatype TaskRecord = TaskRecord(id: int, task: Task)

  /** The fields `data.get(...)` extracts from a create or update request body. */
  datatype TaskInput = TaskInput(title: Option<string>, description: Option<string>, status: Option<string>, dueDate: Option<string>)

  /** The JSON bodies the handlers send. */
  datatype Body =
    | ErrorBody(error: string)
    | TaskBody(record: TaskRecord)
    | ListBody(records: seq<TaskRecord>)
    | MessageBody(message: string)

  /** Why a create or update request is refused with 400. */
  datatype Rejection = MissingRequired | InvalidStatus | InvalidDueDate {
    function Message(): string
    {
      match this
      case MissingRequired => "T\U{ED}tulo e status s\U{E3}o obrigat\U{F3}rios"
      case InvalidStatus => "Status inv\U{E1}lido"
      case InvalidDueDate => "Data de vencimento inv\U{E1}lida"
    }
  }

  const NotFoundMessage: string := "Tarefa n\U{E3}o encontrada"
  const DeletedMessage: string := "Tarefa exclu\U{ED}da com sucesso"
  const InternalErrorMessage: string := "Erro interno no servidor"

  /**
   * Whether the database driver can pass a row's text values to the server:
   * PostgreSQL text cannot hold the NUL character, and psycopg2 refuses such
   * a parameter before sending the statement, raising an error that the
   * handler turns into 500.
   */
  predicate Storable(t: Task)
  {
    && '\0' !in t.title
    && (t.description.Some? ==> '\0' !in t.description.value)
    && '\0' !in t.status
    && (t.dueDate.Some? ==> '\0' !in t.dueDate.value)
  }

  /**
   * What the application layer guarantees of every stored row: a non-empty
   * title, one of the three status labels, and a due date that is absent,
   * empty or accepted by the date parser.
   */
  predicate WellFormed(t: Task, parses: string -> bool)
  {
    t.title != "" && ValidateStatus(t.status) && ValidateDate(t.dueDate, parses)
  }

  /** The row an accepted request writes: every column is taken from the request. */
  function Stored(input: TaskInput): Task
    requires input.title.Some? && input.status.Some?
  {
    Task(input.title.value, input.description, input.status.value, input.dueDate)
  }

  /**
   * The three checks of the create and update handlers, in their order:
   * title and status must be present and non-empty, then the status must be
   * a known label, then a non-empty due date must parse. `None` means the
   * request is accepted, and then the row it writes is well formed.
   */
  function CheckInput(input: TaskInput, parses: string -> bool): (r: Option<Rejection>)
    ensures r == Some(MissingRequired) <==> !Present(input.title) || !Present(input.status)
    ensures r == Some(InvalidStatus) <==>
      Present(input.title) && Present(input.status) && !ValidateStatus(input.status.value)
    ensures r == Some(InvalidDueDate) <==>
      Present(input.title) && Present(input.status) && ValidateStatus(input.status.value)
      && !ValidateDate(input.dueDate, parses)
    ensures r.None? ==>
      input.title.Some? && input.status.Some? && WellFormed(Stored(input), parses)
    ensures input.dueDate == Some("") || input.dueDate.None? ==> r != Some(InvalidDueDate)
  {
    if !Present(input.title) || !Present(input.status) then
      Some(MissingRequired)
    else if !ValidateStatus(input.status.value) then
      Some(InvalidStatus)
    else if Present(input.dueDate) && !ValidateDate(input.dueDate, parses) then
      Some(InvalidDueDate)
    else
      None
  }

  /**
   * The SELECT of the list handler: only the rows whose status equals the
   * filter when a filter is given and is a known label; every row otherwise.
   */
  function SelectRows(rows: map<int, Task>, statusFilter: Option<string>): (r: map<int, Task>)
    ensures forall k :: k in r ==> k in rows && r[k] == rows[k]
    ensures statusFilter.Some? && ValidateStatus(statusFilter.value) ==>
      forall k :: k in rows ==> (k in r <==> rows[k].status == statusFilter.value)
    ensures statusFilter.None? || !ValidateStatus(statusFilter.value) ==> r == rows
  {
    if Present(statusFilter) && ValidateStatus(statusFilter.value) then
      map k | k in rows && rows[k].status == statusFilter.value :: rows[k]
    else
      rows
  }

  /**
   * In a table of well-formed rows, the three filtered listings split the
   * table: every row is listed under exactly one status.
   */
  lemma SelectionsPartitionTable(rows: map<int, Task>, parses: string -> bool, k: int)
    requires forall j :: j in rows ==> WellFormed(rows[j], parses)
    requires k in rows
    ensures exists st: Status :: k in SelectRows(rows, Some(st.Name()))
    ensures forall a: Status, b: Status ::
      k in SelectRows(rows, Some(a.Name())) && k in SelectRows(rows, Some(b.Name())) ==> a == b
  {
  }

  /** The `tasks` table, with the SERIAL counter that hands out ids. */
  class TaskTable {
    var rows: map<int, Task>
    var nextId: int
    /** The verdict of `datetime.strptime(s, '%Y-%m-%d')` on a string: true when it does not raise. */
    const dateParser: string -> bool

    /** Ids are positive and below the counter; every row is well formed and NUL-free. */
    ghost predicate Valid()
      reads this
    {
      1 <= nextId &&
      forall k :: k in rows ==> 1 <= k < nextId && WellFormed(rows[k], dateParser) && Storable(rows[k])
    }

    /** A freshly created, empty table. */
    constructor (dateParser: string -> bool)
      ensures Valid()
      ensures rows == map[] && nextId == 1 && this.dateParser == dateParser
    {
      rows := map[];
      nextId := 1;
      this.dateParser := dateParser;
    }

    /**
     * `create_task`: a refused request answers 400 and writes nothing; an
     * accepted one whose text the driver refuses answers 500 and writes
     * nothing; any other inserts one row under a fresh id and answers 201
     * with that id and the request's fields.
     */
    method CreateTask(input: TaskInput) returns (code: int, body: Body)
      requires Valid()
      modifies this
      ensures Valid()
      ensures CheckInput(input, dateParser).Some? ==>
        && code == 400
        && body == ErrorBody(CheckInput(input, dateParser).value.Message())
        && rows == old(rows) && nextId == old(nextId)
      ensures CheckInput(input, dateParser).None? && !Storable(Stored(input)) ==>
        && code == 500
        && body == ErrorBody(InternalErrorMessage)
        && rows == old(rows) && nextId == old(nextId)
      ensures CheckInput(input, dateParser).None? && Storable(Stored(input)) ==>
        && code == 201
        && body == TaskBody(TaskRecord(old(nextId), Stored(input)))
        && old(nextId) !in old(rows)
        && rows == old(rows)[old(nextId) := Stored(input)]
        && nextId == old(nextId) + 1
    {
      var rejection := CheckInput(input, dateParser);
      if rejection.Some? {
        return 400, ErrorBody(rejection.value.Message());
      }
      var task := Stored(input);
      if !Storable(task) {
        return 500, ErrorBody(InternalErrorMessage);
      }
      // The insert takes the next SERIAL value as the new row's id.
      var taskId := nextId;
      nextId := nextId + 1;
      rows := rows[taskId := task];
      return 201, TaskBody(TaskRecord(taskId, task));
    }

    /**
     * `list_tasks`: answers 200 with every selected row exactly once; the
     * database returns rows in no particular order, so neither does this.
     */
    method ListTasks(statusFilter: Option<string>) returns (code: int, body: Body)
      ensures code == 200 && body.ListBody?
      ensures forall r :: r in body.records <==>
        r.id in SelectRows(rows, statusFilter) && SelectRows(rows, statusFilter)[r.id] == r.task
      ensures forall i, j :: 0 <= i < j < |body.records| ==> body.records[i].id != body.records[j].id
    {
      var selected := SelectRows(rows, statusFilter);
      var pending := selected.Keys;
      var records: seq<TaskRecord> := [];
      while exists k :: k in pending
        invariant pending <= selected.Keys
        invariant forall r :: r in records <==>
          r.id in selected && r.id !in pending && selected[r.id] == r.task
        invariant forall i, j :: 0 <= i < j < |records| ==> records[i].id != records[j].id
        decreases pending
      {
        var k :| k in pending;
        records := records + [TaskRecord(k, selected[k])];
        pending := pending - {k};
      }
      return 200, ListBody(records);
    }

    /** `get_task`: the row under `id` with 200, or 404; the table is only read. */
    method GetTask(id: nat) returns (code: int, body: Body)
      ensures id in rows ==> code == 200 && body == TaskBody(TaskRecord(id, rows[id]))
      ensures id !in rows ==> code == 404 && body == ErrorBody(NotFoundMessage)
    {
      if id !in rows {
        return 404, ErrorBody(NotFoundMessage);
      }
      return 200, TaskBody(TaskRecord(id, rows[id]));
    }

    /**
     * `update_task`: the request checks come first (400), then the existence
     * check (404), then the driver's refusal of NUL text (500); otherwise all
     * four columns of that row only are replaced and the answer is 200 with
     * the new values.
     */
    method UpdateTask(id: nat, input: TaskInput) returns (code: int, body: Body)
      requires Valid()
      modifies this
      ensures Valid()
      ensures nextId == old(nextId)
      ensures CheckInput(input, dateParser).Some? ==>
        && code == 400
        && body == ErrorBody(CheckInput(input, dateParser).value.Message())
        && rows == old(rows)
      ensures CheckInput(input, dateParser).None? && id !in old(rows) ==>
        code == 404 && body == ErrorBody(NotFoundMessage) && rows == old(rows)
      ensures CheckInput(input, dateParser).None? && id in old(rows) && !Storable(Stored(input)) ==>
        code == 500 && body == ErrorBody(InternalErrorMessage) && rows == old(rows)
      ensures CheckInput(input, dateParser).None? && id in old(rows) && Storable(Stored(input)) ==>
        && code == 200
        && body == TaskBody(TaskRecord(id, Stored(input)))
        && rows == old(rows)[id := Stored(input)]
    {
      var rejection := CheckInput(input, dateParser);
      if rejection.Some? {
        return 400, ErrorBody(rejection.value.Message());
      }
      // The existence check, a query separate from the write.
      if id !in rows {
        return 404, ErrorBody(NotFoundMessage);
      }
      var task := Stored(input);
      if !Storable(task) {
        return 500, ErrorBody(InternalErrorMessage);
      }
      rows := rows[id := task];
      return 200, TaskBody(TaskRecord(id, task));
    }

    /**
     * `delete_task`: 404 and no change for an unknown id; otherwise removes
     * exactly that row and answers 200. Ids are never handed out again.
     */
    method DeleteTask(id: nat) returns (code: int, body: Body)
      requires Valid()
      modifies this
      ensures Valid()
      ensures nextId == old(nextId)
      ensures id !in old(rows) ==>
        code == 404 && body == ErrorBody(NotFoundMessage) && rows == old(rows)
      ensures id in old(rows) ==>
        code == 200 && body == MessageBody(DeletedMessage) && rows == old(rows) - {id}
    {
      // The existence check, a query separate from the removal.
      if id !in rows {
        return 404, ErrorBody(NotFoundMessage);
      }
      rows := rows - {id};
      return 200, MessageBody(DeletedMessage);
    }
  }
}
