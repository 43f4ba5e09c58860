/** The record types of the todo-app example that are the same in its TypeScript
    and its Rust version: v1's todo list, v2's todo, and v3's enums and small
    records. The schemas themselves are generated from `.bare` files that are not
    part of this model, so each type carries the fields the converters touch;
    enum members the converters never name are inferred (`Priority.High` from the
    tests, the two assignee kinds besides `None` from `userId`/`teamId`, the two
    themes besides `System`). Integer ids and timestamps are `nat`. */
module AppSchema {
  import Wrappers

  datatype TodoStatus = Open | InProgress | Done

  datatype V1Todo = V1Todo(id: nat, title: string, done: bool)
  datatype V1App = V1App(todos: seq<V1Todo>)

  datatype V2Todo = V2Todo(id: nat, title: string, status: TodoStatus, createdAt: nat, tags: seq<string>)

  datatype Priority = Low | Medium | High
  datatype AssigneeKind = None | User | Team
  datatype Assignee = Assignee(kind: AssigneeKind, userId: Wrappers.Option<nat>, teamId: Wrappers.Option<nat>)
  datatype Theme = Light | Dark | System
  datatype Tag = Tag(id: nat, name: string, color: Wrappers.Option<string>)

  /** One entry of a v3 todo's history; no converter reads or writes its fields. */
  datatype Change = Change(summary: string)
  /** A v3 board; no converter reads or writes its fields. */
  datatype Board = Board(name: string)

  /** The assignee every upgraded v3 todo gets: kind `None`, no user, no team. */
  const Unassigned: Assignee := Assignee(AssigneeKind.None, Wrappers.None, Wrappers.None)

  /** The v2 status a v1 `done` flag becomes. */
  function StatusOfDone(done: bool): TodoStatus
  {
    if done then Done else Open
  }

  /** The v2 todo a v1 todo becomes (`migrateV1TodoToV2` in TypeScript, built
      inline by the Rust `v1_to_v2`): id and title kept, status `Done` exactly when
      the todo was done and `Open` otherwise, created at 0, no tags. */
  function MigrateV1TodoToV2(todo: V1Todo): (r: V2Todo)
    ensures r.id == todo.id && r.title == todo.title
    ensures (r.status == Done <==> todo.done) && (!todo.done ==> r.status == Open)
    ensures r.createdAt == 0 && r.tags == []
  {
    V2Todo(todo.id, todo.title, StatusOfDone(todo.done), 0, [])
  }
}
