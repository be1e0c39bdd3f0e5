/** Values the request handlers hand back: the status code with its JSON body,
    and the abstract outcomes of the database calls the handlers make. */
module Outcomes {

  datatype Option<T> = None | Some(value: T)

  /** The JSON body of a response. `Error` is `{ error }`, `Message` is
      `{ message }`, `MessageWith` is `{ message, <payload> }` and `Data` is a
      bare payload such as an array of rows. */
  datatype Body<T> =
    | Error(error: string)
    | Message(message: string)
    | MessageWith(message: string, data: T)
    | Data(data: T)

  /** What `res.status(status).json(body)` sends. */
  datatype Reply<T> = Reply(status: nat, body: Body<T>)

  /** The outcome of one INSERT against the store: the row id the database
      assigned, or a failure of the query. */
  datatype InsertOutcome = Inserted(insertId: nat) | InsertFailed
}
