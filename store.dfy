/** The PostgreSQL store (`PsycopgDatabase`), modelled as the two tables it keeps,
    `users` and `games`, each a sequence of rows in insertion order. Every SQL
    statement is a function over a table; the class methods apply them to its
    fields. The schema puts `unique` on `users.telegram_id` and nothing on
    `games.group_id`, so "one running game per group" is not a property of the
    store: the game controller has to keep it. */
module PostgresStore {
  import opened Optional
  import opened Records

  /** `WHERE games.game_id = %s AND games.finished IS NOT TRUE` */
  predicate OpenWithId(g: Game, gameId: string) {
    g.gameId == gameId && !g.finished
  }

  /** `WHERE games.group_id = %s AND games.finished IS NOT TRUE` */
  predicate OpenInGroup(g: Game, groupId: int) {
    g.groupId == groupId && !g.finished
  }

  /** The condition of a `DELETE FROM games WHERE ...` statement. */
  datatype Where = IdIs(id: int) | GroupIs(groupId: int)

  predicate Selects(w: Where, g: Game) {
    match w
    case IdIs(id) => g.id == id
    case GroupIs(groupId) => g.groupId == groupId
  }

  /** The `serial` key hands out ever larger ids, so ids increase along the table. */
  ghost predicate IdsIncreasing(games: seq<Game>) {
    forall i, j :: 0 <= i < j < |games| ==> games[i].id < games[j].id
  }

  /** The `games` table as the statements of this store leave it. */
  ghost predicate GamesValid(games: seq<Game>, serial: int) {
    && 0 <= serial
    && IdsIncreasing(games)
    && (forall g :: g in games ==> 1 <= g.id <= serial)
  }

  /** The `users` table: serial ids, and `telegram_id` is `unique`. */
  ghost predicate UsersValid(users: seq<User>, serial: int) {
    && 0 <= serial
    && (forall u :: u in users ==> 1 <= u.id <= serial)
    && (forall i, j :: 0 <= i < j < |users| ==>
          users[i].telegramId != users[j].telegramId && users[i].id != users[j].id)
  }

  /** `SELECT ... FROM users WHERE users.telegram_id = %s`, first row. */
  function FindUser(users: seq<User>, telegramId: int): (r: Option<User>)
    ensures r.Some? ==> r.value in users && r.value.telegramId == telegramId
    ensures r.None? <==> forall u :: u in users ==> u.telegramId != telegramId
  {
    if users == [] then None
    else if users[0].telegramId == telegramId then Some(users[0])
    else FindUser(users[1..], telegramId)
  }

  /** `get_game`: an unfinished row with that public id (`LIMIT 1` without an
      `ORDER BY`, so SQL leaves open which one; the model takes the first). */
  function SelectGame(games: seq<Game>, gameId: string): (r: Option<Game>)
    ensures r.Some? ==> r.value in games && OpenWithId(r.value, gameId)
    ensures r.None? <==> forall g :: g in games ==> !OpenWithId(g, gameId)
  {
    if games == [] then None
    else if OpenWithId(games[0], gameId) then Some(games[0])
    else SelectGame(games[1..], gameId)
  }

  /** `get_group_game`: the unfinished row of the group with the largest internal id
      (`ORDER BY id DESC LIMIT 1`). */
  function SelectGroupGame(games: seq<Game>, groupId: int): (r: Option<Game>)
    ensures r.Some? ==> r.value in games && OpenInGroup(r.value, groupId)
    ensures r.Some? ==> forall g :: g in games && OpenInGroup(g, groupId) ==> g.id <= r.value.id
    ensures r.None? <==> forall g :: g in games ==> !OpenInGroup(g, groupId)
  {
    if games == [] then None
    else
      var newest := SelectGroupGame(games[1..], groupId);
      if OpenInGroup(games[0], groupId) && (newest.None? || newest.value.id <= games[0].id)
      then Some(games[0])
      else newest
  }

  /** `UPDATE games SET message_id = %s WHERE id = %s` */
  function SetMessage(games: seq<Game>, id: int, messageId: int): (r: seq<Game>)
    ensures |r| == |games|
    // only `message_id` may change, and only on the row with that id
    ensures forall i :: 0 <= i < |games| ==> r[i].(messageId := games[i].messageId) == games[i]
    ensures forall i :: 0 <= i < |games| && games[i].id == id ==> r[i].messageId == messageId
    ensures forall i :: 0 <= i < |games| && games[i].id != id ==> r[i] == games[i]
  {
    if games == [] then []
    else
      var head := if games[0].id == id then games[0].(messageId := messageId) else games[0];
      [head] + SetMessage(games[1..], id, messageId)
  }

  /** `DELETE FROM games WHERE <w>`: the rows that remain, in their order. */
  function DeleteWhere(games: seq<Game>, w: Where): (r: seq<Game>)
    ensures forall g :: g in r <==> g in games && !Selects(w, g)
    ensures |r| <= |games|
    ensures IdsIncreasing(games) ==> IdsIncreasing(r)
  {
    if games == [] then []
    else
      var rest := DeleteWhere(games[1..], w);
      if Selects(w, games[0]) then rest
      else
        assert IdsIncreasing(games) ==> forall g :: g in rest ==> games[0].id < g.id by {
          if IdsIncreasing(games) {
            forall g | g in rest ensures games[0].id < g.id {
              var k :| 0 <= k < |games[1..]| && games[1..][k] == g;
              assert games[k + 1] == g;
            }
          }
        }
        [games[0]] + rest
  }

  /** Updating the announcement of a row never changes which row `get_group_game`
      picks: only its `message_id` can differ. */
  lemma {:induction false} SetMessageKeepsGroupGame(games: seq<Game>, id: int, messageId: int, groupId: int)
    ensures var before := SelectGroupGame(games, groupId);
            var after := SelectGroupGame(SetMessage(games, id, messageId), groupId);
            before.Some? == after.Some? &&
            (before.Some? ==> after.value == if before.value.id == id then before.value.(messageId := messageId) else before.value)
  {
    if games != [] {
      var updated := SetMessage(games, id, messageId);
      assert updated[1..] == SetMessage(games[1..], id, messageId);
      assert updated[0].(messageId := games[0].messageId) == games[0];
      assert OpenInGroup(updated[0], groupId) == OpenInGroup(games[0], groupId);
      SetMessageKeepsGroupGame(games[1..], id, messageId, groupId);
    }
  }

  /** Likewise for `get_game`. */
  lemma {:induction false} SetMessageKeepsGame(games: seq<Game>, id: int, messageId: int, gameId: string)
    ensures var before := SelectGame(games, gameId);
            var after := SelectGame(SetMessage(games, id, messageId), gameId);
            before.Some? == after.Some? &&
            (before.Some? ==> after.value == if before.value.id == id then before.value.(messageId := messageId) else before.value)
  {
    if games != [] {
      var updated := SetMessage(games, id, messageId);
      assert updated[1..] == SetMessage(games[1..], id, messageId);
      SetMessageKeepsGame(games[1..], id, messageId, gameId);
    }
  }

  /** `update_game_message` keeps the ids, hence the table's invariant. */
  lemma SetMessageKeepsValid(games: seq<Game>, id: int, messageId: int, serial: int)
    requires GamesValid(games, serial)
    ensures GamesValid(SetMessage(games, id, messageId), serial)
  {
    var r := SetMessage(games, id, messageId);
    assert forall i :: 0 <= i < |r| ==> r[i].id == games[i].id;
    forall g | g in r ensures 1 <= g.id <= serial {
      var i :| 0 <= i < |r| && r[i] == g;
      assert games[i] in games;
    }
  }

  /** Setting the message of a freshly appended row touches that row alone. */
  lemma {:induction false} SetMessageOfAppended(games: seq<Game>, g: Game, messageId: int)
    requires forall x :: x in games ==> x.id < g.id
    ensures SetMessage(games + [g], g.id, messageId) == games + [g.(messageId := messageId)]
  {
    var r := SetMessage(games + [g], g.id, messageId);
    var s := games + [g.(messageId := messageId)];
    forall i | 0 <= i < |s| ensures r[i] == s[i] {
      if i < |games| {
        assert (games + [g])[i] == games[i];
        assert games[i] in games;
      }
    }
  }

  /** A newly inserted unfinished row is what `get_group_game` returns for its group. */
  lemma AppendedIsNewest(games: seq<Game>, g: Game)
    requires forall x :: x in games ==> x.id < g.id
    requires !g.finished
    ensures SelectGroupGame(games + [g], g.groupId) == Some(g)
  {
    assert g in games + [g];
  }

  class PsycopgDatabase {
    var users: seq<User>
    var games: seq<Game>
    /** Last value handed out by the `users.id` / `games.id` serial sequences. */
    var userSerial: int
    var gameSerial: int

    ghost predicate Valid()
      reads this
    {
      UsersValid(users, userSerial) && GamesValid(games, gameSerial)
    }

    /** A store whose tables have just been created (`CREATE TABLE IF NOT EXISTS`). */
    constructor ()
      ensures Valid()
      ensures users == [] && games == []
    {
      users, games := [], [];
      userSerial, gameSerial := 0, 0;
    }

    /** `get_user_or_create`: the row with that `telegram_id` and `False`, or a new row
        with the column defaults (not banned, available for broadcast) and `True`. */
    method GetUserOrCreate(telegramId: int) returns (user: User, created: bool)
      requires Valid()
      modifies this
      ensures Valid()
      ensures user in users && user.telegramId == telegramId
      ensures games == old(games) && gameSerial == old(gameSerial)
      ensures var existing := FindUser(old(users), telegramId);
        if existing.Some? then
          && user == existing.value && !created
          && users == old(users) && userSerial == old(userSerial)
        else
          && created
          && user == User(old(userSerial) + 1, telegramId, false, true)
          && users == old(users) + [user] && userSerial == old(userSerial) + 1
    {
      var existing := FindUser(users, telegramId);
      if existing.Some? {
        user, created := existing.value, false;
        return;
      }
      userSerial := userSerial + 1;
      var row := User(userSerial, telegramId, false, true);
      ghost var before := users;
      users := users + [row];
      // the second SELECT finds the row just inserted: telegram_id is unique
      var reread := FindUser(users, telegramId);
      assert row in users;
      user, created := reread.value, true;
    }

    /** `create_game`: inserts a row and returns it as the `RETURNING id` query builds
        it, with `message_id` 0 and `finished` false. */
    method CreateGame(gameId: string, groupId: int, ownerId: int, ownerName: string, word: string, createdAt: int)
      returns (game: Game)
      requires Valid()
      modifies this
      ensures Valid()
      ensures game == Game(old(gameSerial) + 1, gameId, groupId, 0, ownerId, ownerName, word, createdAt, false)
      ensures forall x :: x in old(games) ==> x.id < game.id
      ensures games == old(games) + [game] && gameSerial == old(gameSerial) + 1
      ensures users == old(users) && userSerial == old(userSerial)
    {
      gameSerial := gameSerial + 1;
      game := Game(gameSerial, gameId, groupId, 0, ownerId, ownerName, word, createdAt, false);
      games := games + [game];
    }

    method GetGame(gameId: string) returns (game: Option<Game>)
      ensures game == SelectGame(games, gameId)
    {
      game := SelectGame(games, gameId);
    }

    method GetGroupGame(groupId: int) returns (game: Option<Game>)
      ensures game == SelectGroupGame(games, groupId)
    {
      game := SelectGroupGame(games, groupId);
    }

    method UpdateGameMessage(id: int, messageId: int)
      requires Valid()
      modifies this
      ensures Valid()
      ensures games == SetMessage(old(games), id, messageId)
      ensures users == old(users) && userSerial == old(userSerial) && gameSerial == old(gameSerial)
    {
      SetMessageKeepsValid(games, id, messageId, gameSerial);
      games := SetMessage(games, id, messageId);
    }

    /** `game_finished` deletes the row; it never sets `finished`. */
    method GameFinished(id: int)
      requires Valid()
      modifies this
      ensures Valid()
      ensures games == DeleteWhere(old(games), IdIs(id))
      ensures users == old(users) && userSerial == old(userSerial) && gameSerial == old(gameSerial)
    {
      games := DeleteWhere(games, IdIs(id));
    }

    /** `delete_games`: every row of the group goes, finished or not. */
    method DeleteGames(groupId: int)
      requires Valid()
      modifies this
      ensures Valid()
      ensures games == DeleteWhere(old(games), GroupIs(groupId))
      ensures users == old(users) && userSerial == old(userSerial) && gameSerial == old(gameSerial)
    {
      games := DeleteWhere(games, GroupIs(groupId));
    }
  }
}
