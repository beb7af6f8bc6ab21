/** The game controller: one game per group, the owner draws, the others guess the
    secret word in the group chat. It keeps a per-group cache of compiled word
    patterns and drives the store. Telegram calls, the signed web-app payload,
    the word provider, `uuid4` and the clock are inputs of its methods. */
module GameControl {
  import opened Optional
  import opened Records
  import opened PostgresStore

  /** Outcome of `get_word` (an `IntEnum` 0..3 in the source). */
  datatype GameWordStatus = Ok | NotHost | Ended | NotAuth

  datatype GameWordResult = GameWordResult(word: Option<string>, status: GameWordStatus)

  /** A chat message the controller tries to send; a failed send is swallowed. */
  datatype Notice =
    | AlreadyStarted(chatId: int, replyTo: int)
    | Correct(chatId: int, replyTo: int, word: string)

  /** What `create_game` did. `AnnounceFailed`: `send_photo` raised after the row was
      stored, so the exception leaves `create_game` and the row keeps `message_id` 0. */
  datatype CreateOutcome =
    | AlreadyRunning(notice: Notice)
    | Created(game: Game)
    | AnnounceFailed(game: Game)

  // ---------------------------------------------------------------------------
  // Word patterns

  /** Case folding of one character: ASCII and basic Cyrillic letters (the word
      lists are English and Russian). */
  function Fold(c: char): char {
    if 'A' <= c <= 'Z' then (c as int + 32) as char
    else if 'А' <= c <= 'Я' then (c as int + 32) as char
    else if c == 'Ё' then 'ё'
    else c
  }

  function FoldAll(s: string): (r: string)
    ensures |r| == |s|
  {
    if s == [] then [] else [Fold(s[0])] + FoldAll(s[1..])
  }

  /** `re.compile(word, re.IGNORECASE)`, for a word taken literally. */
  datatype Pattern = Pattern(word: string)

  /** `pattern.match(text)`: the word, ignoring case, at the very start of the text;
      whatever follows it is allowed. */
  predicate Matches(p: Pattern, text: string) {
    |p.word| <= |text| && forall i :: 0 <= i < |p.word| ==> Fold(p.word[i]) == Fold(text[i])
  }

  lemma {:induction false} FoldAllAt(s: string, i: int)
    requires 0 <= i < |s|
    ensures FoldAll(s)[i] == Fold(s[i])
  {
    if i > 0 {
      FoldAllAt(s[1..], i - 1);
    }
  }

  /** A guess matches exactly when its leading `|word|` characters equal the word
      once both are case-folded. */
  lemma MatchesIffFoldedPrefix(word: string, text: string)
    ensures Matches(Pattern(word), text) <==>
            |word| <= |text| && FoldAll(text[..|word|]) == FoldAll(word)
  {
    if |word| <= |text| {
      var t := text[..|word|];
      if Matches(Pattern(word), text) {
        forall i | 0 <= i < |word| ensures FoldAll(t)[i] == FoldAll(word)[i] {
          FoldAllAt(t, i);
          FoldAllAt(word, i);
        }
      }
      if FoldAll(t) == FoldAll(word) {
        forall i | 0 <= i < |word| ensures Fold(word[i]) == Fold(text[i]) {
          FoldAllAt(t, i);
          FoldAllAt(word, i);
        }
      }
    }
  }

  /** Trailing text never spoils a hit: guesses may be sentences. */
  lemma MatchAllowsTrailing(p: Pattern, text: string, tail: string)
    requires Matches(p, text)
    ensures Matches(p, text + tail)
  {
    forall i | 0 <= i < |p.word| ensures Fold(p.word[i]) == Fold((text + tail)[i]) {
      assert (text + tail)[i] == text[i];
    }
  }

  /** The word itself, in any mix of letter case, is a hit. */
  lemma MatchIgnoresCase(word: string, text: string)
    requires |text| == |word|
    requires forall i :: 0 <= i < |word| ==> Fold(text[i]) == Fold(word[i])
    ensures Matches(Pattern(word), text)
  {
  }

  /** A text shorter than the word never matches. */
  lemma ShortTextMisses(word: string, text: string)
    requires |text| < |word|
    ensures !Matches(Pattern(word), text)
  {
  }

  // ---------------------------------------------------------------------------
  // Game ids and the `get_word` ladder

  const GameIdPrefix: string := "gameId__"

  /** `__generate_game_id`: the prefix followed by a fresh uuid. */
  function GenerateGameId(uuid: string): (id: string)
    ensures |id| == |GameIdPrefix| + |uuid|
    ensures GameIdPrefix <= id
  {
    GameIdPrefix + uuid
  }

  /** The uuid can be read back from a game id, so distinct uuids give distinct ids. */
  lemma GameIdRoundTrip(uuid: string)
    ensures GenerateGameId(uuid)[|GameIdPrefix|..] == uuid
  {
  }

  lemma GameIdInjective(u1: string, u2: string)
    requires GenerateGameId(u1) == GenerateGameId(u2)
    ensures u1 == u2
  {
    GameIdRoundTrip(u1);
    GameIdRoundTrip(u2);
  }

  /** `get_word` once the payload has been checked (`auth`, the caller's user id, or
      `None` when the signature is invalid) and the game looked up: authentication
      first, then existence, then ownership. */
  function WordLadder(auth: Option<int>, game: Option<Game>): (r: GameWordResult)
    ensures r.status == NotAuth <==> auth.None?
    ensures r.status == Ended <==> auth.Some? && game.None?
    ensures r.status == NotHost <==> auth.Some? && game.Some? && game.value.ownerId != auth.value
    ensures r.status == Ok <==> auth.Some? && game.Some? && game.value.ownerId == auth.value
    ensures r.word.Some? <==> r.status == Ok
    ensures r.status == Ok ==> r.word == Some(game.value.word)
  {
    if auth.None? then GameWordResult(None, NotAuth)
    else if game.None? then GameWordResult(None, Ended)
    else if game.value.ownerId != auth.value then GameWordResult(None, NotHost)
    else GameWordResult(Some(game.value.word), Ok)
  }

  // ---------------------------------------------------------------------------
  // Invariants the controller keeps over the store and its cache

  /** At most one unfinished game per group (the schema does not enforce it). */
  ghost predicate OneOpenPerGroup(games: seq<Game>) {
    forall a, b :: a in games && b in games && !a.finished && !b.finished && a.groupId == b.groupId ==> a.id == b.id
  }

  /** Unfinished games have distinct public ids (uuids do not repeat). */
  ghost predicate OpenGameIdsUnique(games: seq<Game>) {
    forall a, b :: a in games && b in games && !a.finished && !b.finished && a.gameId == b.gameId ==> a.id == b.id
  }

  /** A cached pattern is that of the group's unfinished game, whenever it has one. */
  ghost predicate CacheAgrees(cache: map<int, Pattern>, games: seq<Game>) {
    forall g :: g in games && !g.finished && g.groupId in cache ==> cache[g.groupId] == Pattern(g.word)
  }

  ghost predicate ControllerInvariant(cache: map<int, Pattern>, games: seq<Game>) {
    OneOpenPerGroup(games) && OpenGameIdsUnique(games) && CacheAgrees(cache, games)
  }

  /** A row after `update_game_message` is a row from before, up to its `message_id`. */
  lemma SetMessageRow(games: seq<Game>, id: int, messageId: int, r: Game)
    requires r in SetMessage(games, id, messageId)
    ensures r.(messageId := 0) in BlankMessageIds(games)
  {
    var s := SetMessage(games, id, messageId);
    var i :| 0 <= i < |s| && s[i] == r;
    assert BlankMessageIds(games)[i] == games[i].(messageId := 0);
  }

  /** The rows with their `message_id` blanked out. */
  function BlankMessageIds(games: seq<Game>): (r: seq<Game>)
    ensures |r| == |games|
    ensures forall i :: 0 <= i < |games| ==> r[i] == games[i].(messageId := 0)
  {
    seq(|games|, i requires 0 <= i < |games| => games[i].(messageId := 0))
  }

  lemma SetMessageKeepsInvariant(cache: map<int, Pattern>, games: seq<Game>, id: int, messageId: int)
    requires ControllerInvariant(cache, games)
    ensures ControllerInvariant(cache, SetMessage(games, id, messageId))
  {
    var s := SetMessage(games, id, messageId);
    forall a | a in s ensures exists b :: b in games && a.(messageId := 0) == b.(messageId := 0) {
      SetMessageRow(games, id, messageId, a);
      var i :| 0 <= i < |games| && BlankMessageIds(games)[i] == a.(messageId := 0);
      assert games[i] in games;
    }
  }

  /** Appending the first unfinished game of a group, with the cache entry seeded
      from its word, keeps the invariant. */
  lemma AppendKeepsInvariant(cache: map<int, Pattern>, games: seq<Game>, g: Game)
    requires ControllerInvariant(cache, games)
    requires SelectGroupGame(games, g.groupId).None?
    requires forall x :: x in games ==> x.gameId != g.gameId && x.id < g.id
    requires !g.finished
    ensures ControllerInvariant(cache[g.groupId := Pattern(g.word)], games + [g])
    ensures SelectGroupGame(games + [g], g.groupId) == Some(g)
  {
    AppendedIsNewest(games, g);
    assert forall x :: x in games && !x.finished ==> x.groupId != g.groupId;
    AppendKeepsOneOpen(games, g);
    AppendKeepsIdsUnique(games, g);
    AppendKeepsCache(cache, games, g);
  }

  lemma AppendKeepsOneOpen(games: seq<Game>, g: Game)
    requires OneOpenPerGroup(games)
    requires forall x :: x in games && !x.finished ==> x.groupId != g.groupId
    ensures OneOpenPerGroup(games + [g])
  {
    forall a, b | a in games + [g] && b in games + [g] && !a.finished && !b.finished && a.groupId == b.groupId
      ensures a.id == b.id
    {
      assert a in games || a == g;
      assert b in games || b == g;
    }
  }

  lemma AppendKeepsIdsUnique(games: seq<Game>, g: Game)
    requires OpenGameIdsUnique(games)
    requires forall x :: x in games ==> x.gameId != g.gameId
    ensures OpenGameIdsUnique(games + [g])
  {
    forall a, b | a in games + [g] && b in games + [g] && !a.finished && !b.finished && a.gameId == b.gameId
      ensures a.id == b.id
    {
      assert a in games || a == g;
      assert b in games || b == g;
    }
  }

  lemma AppendKeepsCache(cache: map<int, Pattern>, games: seq<Game>, g: Game)
    requires CacheAgrees(cache, games)
    requires forall x :: x in games && !x.finished ==> x.groupId != g.groupId
    ensures CacheAgrees(cache[g.groupId := Pattern(g.word)], games + [g])
  {
    forall x | x in games + [g] && !x.finished && x.groupId in cache[g.groupId := Pattern(g.word)]
      ensures cache[g.groupId := Pattern(g.word)][x.groupId] == Pattern(x.word)
    {
      assert x in games || x == g;
    }
  }

  /** Ids are a key of the table: two rows with the same id are the same row. */
  lemma SameIdSameRow(games: seq<Game>, a: Game, b: Game)
    requires IdsIncreasing(games)
    requires a in games && b in games && a.id == b.id
    ensures a == b
  {
    var i :| 0 <= i < |games| && games[i] == a;
    var j :| 0 <= j < |games| && games[j] == b;
    assert !(i < j) && !(j < i);
  }

  /** Rebuilding a missing cache entry from the group's unfinished game keeps the
      invariant. */
  lemma SeedKeepsInvariant(cache: map<int, Pattern>, games: seq<Game>, g: Game)
    requires ControllerInvariant(cache, games) && IdsIncreasing(games)
    requires g in games && !g.finished
    ensures ControllerInvariant(cache[g.groupId := Pattern(g.word)], games)
  {
    forall x | x in games && !x.finished && x.groupId == g.groupId ensures x == g {
      SameIdSameRow(games, x, g);
    }
  }

  /** A correct guess deletes the group's game and its cache entry: the invariant holds
      afterwards, and neither lookup finds the game any more. */
  lemma FinishKeepsInvariant(cache: map<int, Pattern>, games: seq<Game>, g: Game)
    requires ControllerInvariant(cache, games)
    requires g in games && !g.finished
    ensures var after := DeleteWhere(games, IdIs(g.id));
      && ControllerInvariant(cache - {g.groupId}, after)
      && SelectGroupGame(after, g.groupId).None?
      && SelectGame(after, g.gameId).None?
  {
    var after := DeleteWhere(games, IdIs(g.id));
    forall x | x in after && !x.finished ensures x.groupId != g.groupId && x.gameId != g.gameId {
    }
  }

  /** `delete_games` leaves the group's cache entry behind; whatever that entry holds,
      it agrees with the table, because the group has no row left. */
  lemma StaleEntryHarmless(cache: map<int, Pattern>, games: seq<Game>, groupId: int, stale: Pattern)
    requires CacheAgrees(cache, games)
    ensures CacheAgrees(cache[groupId := stale], DeleteWhere(games, GroupIs(groupId)))
    ensures SelectGroupGame(DeleteWhere(games, GroupIs(groupId)), groupId).None?
  {
  }

  class GameController {
    const db: PsycopgDatabase
    /** `__regex_cache`, keyed by group id. */
    var regexCache: map<int, Pattern>

    ghost predicate Valid()
      reads this, db
    {
      db.Valid() && ControllerInvariant(regexCache, db.games)
    }

    constructor (db: PsycopgDatabase)
      requires db.Valid() && OneOpenPerGroup(db.games) && OpenGameIdsUnique(db.games)
      ensures Valid()
      ensures this.db == db && regexCache == map[]
    {
      this.db := db;
      regexCache := map[];
    }

    /** `create_game`. `word` is the word provider's answer, `uuid` the fresh uuid, and
        `announcement` the message id of the announcement photo, or `None` if
        `send_photo` raised. */
    method CreateGame(groupId: int, ownerId: int, ownerName: string, word: string, uuid: string,
                      createdAt: int, announcement: Option<int>)
      returns (outcome: CreateOutcome)
      requires Valid()
      requires forall g :: g in db.games ==> g.gameId != GenerateGameId(uuid)
      modifies this, db
      ensures Valid()
      ensures db.users == old(db.users)
      ensures var running := SelectGroupGame(old(db.games), groupId);
        running.Some? ==>
          && outcome == AlreadyRunning(AlreadyStarted(running.value.groupId, running.value.messageId))
          && db.games == old(db.games) && regexCache == old(regexCache)
      ensures SelectGroupGame(old(db.games), groupId).None? ==>
          var game := Game(old(db.gameSerial) + 1, GenerateGameId(uuid), groupId, 0, ownerId, ownerName, word, createdAt, false);
          && regexCache == old(regexCache)[groupId := Pattern(word)]
          && outcome == (if announcement.Some? then Created(game) else AnnounceFailed(game))
          && db.games == old(db.games) + [if announcement.Some? then game.(messageId := announcement.value) else game]
      ensures SelectGroupGame(db.games, groupId).Some?
    {
      var running := db.GetGroupGame(groupId);
      if running.Some? {
        // the "already started" reply is best effort
        outcome := AlreadyRunning(AlreadyStarted(running.value.groupId, running.value.messageId));
      } else {
        var game := StartGame(groupId, ownerId, ownerName, word, uuid, createdAt, announcement);
        outcome := if announcement.Some? then Created(game) else AnnounceFailed(game);
      }
    }

    /** The part of `create_game` after the group was found free: seed the cache, store
        the row, announce it and keep the announcement's message id. */
    method StartGame(groupId: int, ownerId: int, ownerName: string, word: string, uuid: string,
                     createdAt: int, announcement: Option<int>)
      returns (game: Game)
      requires Valid()
      requires SelectGroupGame(db.games, groupId).None?
      requires forall g :: g in db.games ==> g.gameId != GenerateGameId(uuid)
      modifies this, db
      ensures Valid()
      ensures db.users == old(db.users)
      ensures game == Game(old(db.gameSerial) + 1, GenerateGameId(uuid), groupId, 0, ownerId, ownerName, word, createdAt, false)
      ensures regexCache == old(regexCache)[groupId := Pattern(word)]
      ensures db.games == old(db.games) + [if announcement.Some? then game.(messageId := announcement.value) else game]
      ensures SelectGroupGame(db.games, groupId).Some?
    {
      ghost var cacheBefore, before := regexCache, db.games;
      regexCache := regexCache[groupId := Pattern(word)];
      game := db.CreateGame(GenerateGameId(uuid), groupId, ownerId, ownerName, word, createdAt);
      if announcement.Some? {
        db.UpdateGameMessage(game.id, announcement.value);
        SetMessageOfAppended(before, game, announcement.value);
        AppendKeepsInvariant(cacheBefore, before, game.(messageId := announcement.value));
      } else {
        AppendKeepsInvariant(cacheBefore, before, game);
      }
    }

    /** `update_state`. `auth` is the user id from the signed payload (`None` when it
        does not verify), `edited` whether `edit_message_media` succeeded, `resent`
        the id of the new photo message or `None` if that `send_photo` raised. */
    method UpdateState(auth: Option<int>, gameId: string, edited: bool, resent: Option<int>)
      returns (ok: bool)
      requires Valid()
      modifies db
      ensures Valid()
      ensures db.users == old(db.users)
      ensures var game := SelectGame(old(db.games), gameId);
        var owner := auth.Some? && game.Some? && game.value.ownerId == auth.value;
        && ok == (owner && (edited || resent.Some?))
        && db.games == (if owner && !edited && resent.Some?
                        then SetMessage(old(db.games), game.value.id, resent.value)
                        else old(db.games))
    {
      ok := false;
      if auth.Some? {
        var game := db.GetGame(gameId);
        if game.Some? && game.value.ownerId == auth.value {
          if edited {
            ok := true;
          } else if resent.Some? {
            SaveMessage(game.value.id, resent.value);
            ok := true;
          }
        }
      }
    }

    /** `update_game_message` on behalf of the controller: its invariant survives. */
    method SaveMessage(id: int, messageId: int)
      requires Valid()
      modifies db
      ensures Valid()
      ensures db.users == old(db.users)
      ensures db.games == SetMessage(old(db.games), id, messageId)
    {
      SetMessageKeepsInvariant(regexCache, db.games, id, messageId);
      db.UpdateGameMessage(id, messageId);
    }

    /** `check_word` for a text message `messageId` of `userId` in the group. */
    method CheckWord(groupId: int, messageId: int, userId: int, text: string)
      returns (notice: Option<Notice>)
      requires Valid()
      modifies this, db
      ensures Valid()
      ensures db.users == old(db.users)
      ensures var game := SelectGroupGame(old(db.games), groupId);
        if game.None? || game.value.ownerId == userId then
          notice.None? && db.games == old(db.games) && regexCache == old(regexCache)
        else if Matches(Pattern(game.value.word), text) then
          && notice == Some(Correct(groupId, messageId, game.value.word))
          && db.games == DeleteWhere(old(db.games), IdIs(game.value.id))
          && regexCache == old(regexCache) - {groupId}
          && SelectGroupGame(db.games, groupId).None?
          && SelectGame(db.games, game.value.gameId).None?
        else
          && notice.None? && db.games == old(db.games)
          && regexCache == old(regexCache)[groupId := Pattern(game.value.word)]
    {
      var game := db.GetGroupGame(groupId);
      if game.None? || game.value.ownerId == userId {
        return None;
      }
      if groupId !in regexCache {
        SeedKeepsInvariant(regexCache, db.games, game.value);
        regexCache := regexCache[groupId := Pattern(game.value.word)];
      }
      if !Matches(regexCache[groupId], text) {
        return None;
      }
      FinishGame(game.value);
      // the "Correct!" reply is best effort
      notice := Some(Correct(groupId, messageId, game.value.word));
    }

    /** A correct guess: the row is deleted and the group's cache entry dropped. */
    method FinishGame(game: Game)
      requires Valid()
      requires game in db.games && !game.finished
      modifies this, db
      ensures Valid()
      ensures db.users == old(db.users)
      ensures db.games == DeleteWhere(old(db.games), IdIs(game.id))
      ensures regexCache == old(regexCache) - {game.groupId}
      ensures SelectGroupGame(db.games, game.groupId).None?
      ensures SelectGame(db.games, game.gameId).None?
    {
      FinishKeepsInvariant(regexCache, db.games, game);
      db.GameFinished(game.id);
      regexCache := regexCache - {game.groupId};
    }

    /** `get_word`. */
    method GetWord(auth: Option<int>, gameId: string) returns (result: GameWordResult)
      ensures result == WordLadder(auth, SelectGame(db.games, gameId))
    {
      if auth.None? {
        return GameWordResult(None, NotAuth);
      }
      var game := db.GetGame(gameId);
      if game.None? {
        return GameWordResult(None, Ended);
      }
      if game.value.ownerId != auth.value {
        return GameWordResult(None, NotHost);
      }
      result := GameWordResult(Some(game.value.word), Ok);
    }

    /** `delete_games`: removes every row of the group and leaves the cache alone. */
    method DeleteGames(groupId: int)
      requires Valid()
      modifies db
      ensures Valid()
      ensures db.users == old(db.users)
      ensures db.games == DeleteWhere(old(db.games), GroupIs(groupId))
      ensures SelectGroupGame(db.games, groupId).None?
    {
      db.DeleteGames(groupId);
    }
  }
}
