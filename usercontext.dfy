/** The middleware that resolves the Telegram user of every update to a row of the
    `users` table, turns banned users away and hands the row to the handler. The
    handler's return value is an input; the "denied" answer is a send whose failure
    is swallowed, so it has no effect on the model. */
module UserContext {
  import opened Optional
  import opened Records
  import opened PostgresStore

  /** A value of the handler's `data` dictionary. */
  datatype DataValue = UserValue(user: User) | Flag(flag: bool) | Other(id: int)

  /** The `data` dictionary the dispatcher passes down the middleware chain. */
  class HandlerData {
    var entries: map<string, DataValue>

    constructor(entries: map<string, DataValue>)
      ensures this.entries == entries
    {
      this.entries := entries;
    }
  }

  class UserContextMiddleware {
    /** The store whose `get_user_or_create` the middleware was built with. */
    const db: PsycopgDatabase

    constructor(db: PsycopgDatabase)
      ensures this.db == db
    {
      this.db := db;
    }

    /** `__call__` for an update from `fromUserId`: `handled` says whether the handler
        ran, and `result` is what the call returns (`None` when turned away). */
    method Call<R>(fromUserId: int, data: HandlerData, handlerResult: R) returns (result: Option<R>, handled: bool)
      requires db.Valid()
      modifies db, data
      ensures db.Valid()
      ensures var existing := FindUser(old(db.users), fromUserId);
        var row := if existing.Some? then existing.value else User(old(db.userSerial) + 1, fromUserId, false, true);
        // the row comes from the store: the existing one, or a new one with the defaults
        && db.users == (if existing.Some? then old(db.users) else old(db.users) + [row])
        // banned users never reach the handler, and their data is left alone
        && (handled <==> !row.banned)
        && (!handled ==> result == None && data.entries == old(data.entries))
        // a user seen for the first time is never turned away
        && (existing.None? ==> handled)
        // everyone else reaches the handler with their row and the created flag
        && (handled ==>
          && result == Some(handlerResult)
          && data.entries == old(data.entries)["user" := UserValue(row)]["user_created" := Flag(existing.None?)])
      ensures db.games == old(db.games)
    {
      var user, created := db.GetUserOrCreate(fromUserId);
      if user.banned {
        return None, false;
      }
      data.entries := data.entries["user" := UserValue(user)];
      data.entries := data.entries["user_created" := Flag(created)];
      return Some(handlerResult), true;
    }
  }
}
