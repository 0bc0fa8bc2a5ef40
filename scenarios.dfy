/**
 * Sequences of requests against one table, stated and proved from the
 * handlers' contracts alone, as a client of the service sees them.
 */
module Scenarios {
  import opened Optional
  import opened Validation
  import opened Tasks

  /** Create followed by get on the returned id gives back the created task. */
  method CreateThenGet(t: TaskTable, input: TaskInput)
    returns (createCode: int, createBody: Body, getCode: int, getBody: Body)
    requires t.Valid()
    requires CheckInput(input, t.dateParser).None? && Storable(Stored(input))
    modifies t
    ensures t.Valid()
    ensures createCode == 201 && createBody.TaskBody?
    ensures createBody.record.task == Stored(input)
    ensures getCode == 200 && getBody == createBody
  {
    createCode, createBody := t.CreateTask(input);
    var id: nat := createBody.record.id;
    getCode, getBody := t.GetTask(id);
  }

  /** After an accepted update of an existing id, get returns the new values under the same id. */
  method UpdateThenGet(t: TaskTable, id: nat, input: TaskInput)
    returns (updateCode: int, updateBody: Body, getCode: int, getBody: Body)
    requires t.Valid()
    requires CheckInput(input, t.dateParser).None? && Storable(Stored(input)) && id in t.rows
    modifies t
    ensures t.Valid()
    ensures updateCode == 200 && updateBody == TaskBody(TaskRecord(id, Stored(input)))
    ensures getCode == 200 && getBody == updateBody
  {
    updateCode, updateBody := t.UpdateTask(id, input);
    getCode, getBody := t.GetTask(id);
  }

  /** After a delete, get on that id answers 404, whether or not the id existed. */
  method DeleteThenGet(t: TaskTable, id: nat)
    returns (deleteCode: int, getCode: int, getBody: Body)
    requires t.Valid()
    modifies t
    ensures t.Valid()
    ensures deleteCode == (if id in old(t.rows) then 200 else 404)
    ensures getCode == 404 && getBody == ErrorBody(NotFoundMessage)
  {
    var deleteBody;
    deleteCode, deleteBody := t.DeleteTask(id);
    getCode, getBody := t.GetTask(id);
  }

  /** A refused request leaves the table as it was: get answers as before. */
  method RefusedCreateWritesNothing(t: TaskTable, input: TaskInput, id: nat)
    returns (createCode: int, getCode: int, getBody: Body)
    requires t.Valid()
    requires CheckInput(input, t.dateParser).Some?
    modifies t
    ensures createCode == 400 && t.rows == old(t.rows)
    ensures id in old(t.rows) ==> getCode == 200 && getBody == TaskBody(TaskRecord(id, old(t.rows)[id]))
    ensures id !in old(t.rows) ==> getCode == 404
  {
    var createBody;
    createCode, createBody := t.CreateTask(input);
    getCode, getBody := t.GetTask(id);
  }

  /**
   * A walk through the service: create "Buy milk" as pending, read it
   * back, mark it done, delete it, and find it gone. Holds for any date
   * parser, since no due date is sent.
   */
  method BuyMilkWalkthrough(parses: string -> bool)
  {
    var t := new TaskTable(parses);
    var milk := TaskInput(Some("Buy milk"), None, Some("pendente"), None);
    assert Storable(Stored(milk));
    var code, body := t.CreateTask(milk);
    assert code == 201;
    assert body == TaskBody(TaskRecord(1, Task("Buy milk", None, "pendente", None)));

    var code2, body2 := t.GetTask(1);
    assert code2 == 200 && body2 == body;

    var done := TaskInput(Some("Buy milk"), None, Some(Concluida.Name()), None);
    assert Storable(Stored(done));
    code, body := t.UpdateTask(1, done);
    assert code == 200;
    assert body.record.task.status == "conclu\U{ED}da";

    code, body := t.DeleteTask(1);
    assert code == 200 && body == MessageBody(DeletedMessage);

    code, body := t.GetTask(1);
    assert code == 404;

    // A request without a title is refused before anything is written.
    var missing := TaskInput(None, None, Some("pendente"), None);
    code, body := t.CreateTask(missing);
    assert code == 400 && body == ErrorBody(MissingRequired.Message());
    assert t.rows == map[];

    // Ids are not reused; "Pendente" is not a label, so listing falls back to every row.
    code, body := t.CreateTask(milk);
    assert body.record.id == 2;
    StatusNotNormalised();
    code, body := t.ListTasks(Some("Pendente"));
    assert code == 200 && TaskRecord(2, Stored(milk)) in body.records;
  }

  /** A title holding NUL passes the checks, but the driver refuses it: 500, and nothing is written. */
  method NulTitleRefused(parses: string -> bool)
  {
    var t := new TaskTable(parses);
    var nul := TaskInput(Some("a\0b"), None, Some("pendente"), None);
    assert "a\0b"[1] == '\0';
    var code, body := t.CreateTask(nul);
    assert code == 500 && body == ErrorBody(InternalErrorMessage) && t.rows == map[];
  }
}
