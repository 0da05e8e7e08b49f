/** What a route handler sends back, and the step it takes over the store. */
module Http {
  import opened TaskModel
  import opened Store
  import opened Jwt

  /**
    Response bodies: `{ message }` (auth routes), `{ msg }` (task routes), a plain
    text `send`, a task, a task list, or `{ token }`.
   */
  datatype Body =
    | Message(message: string)
    | Msg(msg: string)
    | Plain(text: string)
    | OneTask(task: Task)
    | TaskList(tasks: seq<Task>)
    | TokenBody(token: Claims)

  datatype Response = Response(status: nat, body: Body)

  /** A handler's effect: the response it sends and the store afterwards. */
  datatype Step = Step(resp: Response, db: Db)
}
