/** Record shapes shared by the store and the game controller
    (the `User` and `Game` dataclasses of the database package). */
module Records {

  /** A row of the `users` table. */
  datatype User = User(id: int, telegramId: int, banned: bool, availableForBroadcast: bool)

  /** A row of the `games` table. `id` is the internal serial key, `gameId` the public
      identifier handed to the web app, `messageId` the announcement message in the group. */
  datatype Game = Game(
    id: int,
    gameId: string,
    groupId: int,
    messageId: int,
    ownerId: int,
    ownerName: string,
    word: string,
    createdAt: int,
    finished: bool)
}
