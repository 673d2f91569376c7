/** Values shared by every part of the backend model: document ids, optional
    values and the HTTP replies the controllers send. */
module Common {

  /** A document id. MongoDB ObjectIds are modelled as naturals handed out by
      the database's counter (see `Db.Database.NewId`). */
  type Id = nat

  datatype Option<+T> = None | Some(value: T)

  /** An HTTP reply: the status code and the `message` of the JSON envelope. */
  datatype Reply = Reply(status: nat, message: string)

  /** JavaScript truthiness of a string field: only the empty string (or an
      absent field, modelled as "") is falsy. */
  predicate Truthy(s: string) {
    s != ""
  }

  /** JavaScript truthiness of an optional string (null/undefined or ""). */
  predicate TruthyOpt(s: Option<string>) {
    s.Some? && s.value != ""
  }

  /** The reply every controller's catch-all handler sends. */
  const InternalError := Reply(500, "Internal Server Error")
  const InternalErrorLower := Reply(500, "Internal server error")
}
