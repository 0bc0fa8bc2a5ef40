# Task service model

A Dafny model of the task-management HTTP service in `app.py`. The service is a Flask application over one PostgreSQL table, `tasks`. The table has the columns `id SERIAL`, `title`, `description`, `status` and `due_date`. The model covers the service's own logic:

- the two validators: `validate_status`, which tests membership in `pendente`, `realizando` and `concluída`, and `validate_date`;
- the three request checks that the create and update handlers run in a fixed order;
- what each of the five handlers (`create_task`, `list_tasks`, `get_task`, `update_task`, `delete_task`) answers: status code and JSON body;
- what each handler does to the table.

Layout:

- `optional.dfy` (module `Optional`): the `Option` type used for JSON fields and SQL NULL, and Python truthiness of an optional string.
- `validation.dfy` (module `Validation`): the status labels and the two validators.
- `tasks.dfy` (module `Tasks`):
  - rows, request fields and response bodies;
  - the request checks (`CheckInput`) and the list handler's row selection (`SelectRows`);
  - class `TaskTable`, holding the table as a `map<int, Task>` and the SERIAL counter `nextId`, with one method per handler. Every mutating method states the complete new table and counter in terms of the old ones.
- `scenarios.dfy` (module `Scenarios`): sequences of requests proved from the handlers' contracts alone. These are create→get, update→get, delete→get and a refused create. Two example clients without contracts are also verified: `BuyMilkWalkthrough` (create, read, mark done, delete, then 404; a title-less create refused; an unknown filter listing every row) and `NulTitleRefused` (a title holding NUL answered 500 with nothing written).

Modelling decisions:

- The handlers take the fields that `data.get(...)` or `request.args.get(...)` extracted. Each is an `Option<string>`, where `None` means absent or JSON `null`. Python's `not x` is `!Present(x)`: it is true for `None` and for `""`.
- `datetime.strptime(s, '%Y-%m-%d')` is not modelled. Its verdict is the parameter `parses: string -> bool`, kept as the `const dateParser` of the table. `validate_date` accepts an absent or empty date without consulting it. The real parser is lenient: it accepts `2024-1-5`, for example. So the model sets no fixed grammar, and every result holds for every parser.
- SERIAL is the counter `nextId`. It starts at 1 on an empty table and is never decreased. So a deleted id is never handed out again.
- Path ids are `nat`, because Flask's `<int:id>` converter matches only unsigned digits.
- `list_tasks` returns the selected rows in whatever order the database yields them. The method picks the next row arbitrarily, and its contract promises each selected row exactly once and nothing else.
- psycopg2 refuses a string parameter that contains the NUL character (U+0000), because PostgreSQL text cannot hold it. It raises before the statement reaches the server, and the handler's `except` answers 500. The model states this as `Storable`: a request that passes the checks but carries NUL in any text field answers 500 and writes nothing. For update, this comes after the existence check, because the failing statement is the UPDATE.
- The table invariant `TaskTable.Valid()` says three things. Every id lies in `1 .. nextId-1`. Every row is well formed: its title is non-empty, its status is one of the three labels, and its due date is accepted. Every row is free of NUL. PostgreSQL's text type enforces only the last; only the request checks enforce the others. Create and update preserve the invariant, proved through `CheckInput`'s contract.

Input checks always come before the existence check. So an invalid update of an unknown id answers 400, not 404.

## Model

| member | source | states |
|---|---|---|
| Validation.ValidateStatus | app.py:70-71 | true exactly when the string is the label of one of the three statuses |
| Validation.StatusNotNormalised | app.py:70-71 | the match is case-sensitive and accent-sensitive with no trimming: `Pendente`, `PENDENTE`, `concluida`, ` pendente` and the empty string are rejected |
| Validation.ValidateDate | app.py:61-68 | an absent or empty date is accepted for every parser; any other string is accepted exactly when the parser accepts it |
| Validation.DueDateGuardRedundant | app.py:89-90 | the handlers' `due_date and not validate_date(due_date)` is equivalent to `not validate_date(due_date)` |
| Tasks.CheckInput | app.py:83-90 | 400 for missing title or status takes precedence over 400 for a bad status, which takes precedence over 400 for a bad due date; an absent or empty due date never causes a rejection; an accepted request writes a well-formed row |
| Tasks.SelectRows | app.py:124-127 | the selection is part of the table; with a filter that is a known label it holds exactly the rows whose status equals the filter; with an absent or unknown filter it is the whole table |
| Tasks.SelectionsPartitionTable | app.py:124-125 | in a table of well-formed rows, each row is listed under exactly one of the three status filters |
| Tasks.TaskTable.constructor | app.py:35-41 | a new table is empty, satisfies the invariant, and its SERIAL counter starts at 1 |
| Tasks.TaskTable.CreateTask | app.py:76-112 | a refused request answers 400 with that check's message and changes nothing; an accepted one whose text holds NUL answers 500 and changes nothing, the counter included; any other answers 201, inserts exactly one row under an id not previously in the table, echoes the request's fields with that id, leaves every other row unchanged, and keeps the invariant |
| Tasks.TaskTable.ListTasks | app.py:118-137 | answers 200 with a list containing each selected row, with its id, exactly once and nothing else; the table is only read |
| Tasks.TaskTable.GetTask | app.py:146-163 | an absent id answers 404 with the not-found message; a present id answers 200 with that row; the table is only read |
| Tasks.TaskTable.UpdateTask | app.py:172-213 | a refused request answers 400 and changes nothing; an absent id answers 404 and changes nothing; an existing id with NUL in the new text answers 500 and changes nothing; otherwise the row under that id gets all four new columns, no other row changes, and the response echoes the new values under the same id with 200 |
| Tasks.TaskTable.DeleteTask | app.py:219-232 | an absent id answers 404 and changes nothing; a present id answers 200 with the confirmation message and exactly that row is removed; the counter is unchanged, so the id is not reused |
| Scenarios.CreateThenGet | app.py:96-109 | for every accepted, NUL-free request, get on the id returned by create answers 200 with the same body that create returned |
| Scenarios.UpdateThenGet | app.py:197-210 | after an accepted, NUL-free update of an existing id, get answers 200 with the updated values |
| Scenarios.DeleteThenGet | app.py:224-232 | after a delete, get on that id answers 404; the delete answered 200 exactly when the id existed |
| Scenarios.RefusedCreateWritesNothing | app.py:83-90 | after a refused create, the table is unchanged and get answers as before |

## Left out

- Flask routing, `request.get_json` and `jsonify`, and the `home` route. The model takes fields that were already extracted and returns the code and a structured body.
- JSON values that are not strings or `null`, such as numbers or lists in `titulo`. A missing request body makes `data` None and crashes `data.get`; this is not modelled.
- `get_db_connection`, the environment configuration, cursors, `commit` and `conn.close`. These are database I/O.
- `init_db`, the `CREATE TABLE IF NOT EXISTS` at startup. The constructor stands for the empty table it creates.
- The 500 answers caused by connection failures, database-side errors and an exhausted SERIAL sequence. They depend on the state of the database server and the network, which the model does not represent. The one 500 that depends only on the request, a NUL character in a text field, is modelled.
- Tasks.TaskTable.CreateTask: does not model a lone UTF-16 surrogate (such as the JSON `"\ud800"`) in a text field. The driver cannot encode it and the source answers 500, but a Dafny `string` holds only Unicode scalar values, so such input cannot be written. Tasks.TaskTable.UpdateTask has the same gap.
- The `print` logging.
- The race between the existence check and the write in update and delete. The model is sequential.
- The internals of `datetime.strptime`. Its verdict is the `parses` parameter.
- `app.run` and process startup.
- Tasks.TaskTable.CreateTask: does not model the 32-bit limit of SERIAL or the `integer` column. The counter is unbounded, because an overflow would surface only as a database error answered with 500.
