/** The web app's HTTP endpoints: `POST /update` (the host uploads the drawing) and
    `GET /word` (the host asks for the secret word). Both only check the request and
    map the controller's answer to a response; the controller calls are inputs. The
    rate limiter in front of them is not modelled. */
module MiniApp {
  import opened Optional
  import opened Records
  import opened PostgresStore
  import opened GameControl

  /** `web.Response(status=..., text=...)`. */
  datatype Response = Response(status: int, text: string)

  /** The status `web.Response` uses when none is given. */
  const DefaultStatus := 200
  const Unauthorized := 401

  const Multipart := "multipart/form-data"

  /** Form fields of a POST, or the query string of a GET, by name. */
  type Params = map<string, string>

  /** The body the word endpoint sends for a refusal; the page translates it. */
  function StatusText(status: GameWordStatus): string {
    match status
    case NotAuth => "not_auth"
    case NotHost => "not_host"
    case Ended => "ended"
    case Ok => "error"
  }

  /** `update_handler`: `updateState(init_data, game_id, image)` is what the
      controller's `update_state` answers; it is asked only for a well-formed request. */
  function UpdateHandler(contentType: string, params: Params, updateState: (string, string, string) -> bool): (r: Response)
    ensures contentType != Multipart ==> r == Response(Unauthorized, "Incorrect content type")
    ensures contentType == Multipart && !("_auth" in params && "image" in params && "gameId" in params) ==>
      r == Response(Unauthorized, "Some keys are missing")
    // success is reported exactly when the request is well formed and the state was updated
    ensures r.status == DefaultStatus <==>
      contentType == Multipart && "_auth" in params && "image" in params && "gameId" in params &&
      updateState(params["_auth"], params["gameId"], params["image"])
    ensures r.status == DefaultStatus ==> r.text == "OK"
    ensures r.status != DefaultStatus ==> r.status == Unauthorized
  {
    if contentType != Multipart then Response(Unauthorized, "Incorrect content type")
    else if !("_auth" in params && "image" in params && "gameId" in params) then
      Response(Unauthorized, "Some keys are missing")
    else if updateState(params["_auth"], params["gameId"], params["image"]) then Response(DefaultStatus, "OK")
    else Response(Unauthorized, "error")
  }

  /** `word_handler`: `getWord(init_data, game_id)` is what the controller's
      `get_word` answers. A `None` word is sent as an empty body. */
  function WordHandler(params: Params, getWord: (string, string) -> GameWordResult): (r: Response)
    ensures !("_auth" in params && "gameId" in params) ==> r == Response(Unauthorized, "Some keys are missing")
    ensures r.status == DefaultStatus <==>
      "_auth" in params && "gameId" in params && getWord(params["_auth"], params["gameId"]).status == Ok
    ensures r.status == DefaultStatus ==> r.text == getWord(params["_auth"], params["gameId"]).word.GetOr("")
    // every refusal is a 401 whose body names the status
    ensures "_auth" in params && "gameId" in params && r.status != DefaultStatus ==>
      r == Response(Unauthorized, StatusText(getWord(params["_auth"], params["gameId"]).status))
  {
    if !("_auth" in params && "gameId" in params) then Response(Unauthorized, "Some keys are missing")
    else
      var result := getWord(params["_auth"], params["gameId"]);
      match result.status
      case Ok => Response(DefaultStatus, result.word.GetOr(""))
      case NotAuth => Response(Unauthorized, "not_auth")
      case NotHost => Response(Unauthorized, "not_host")
      case Ended => Response(Unauthorized, "ended")
  }

  /** The word endpoint in front of the controller: with `parse` the check of the signed
      init data (a user id or nothing) and `games` the table, the word is served exactly
      to the owner of an unfinished game with that id, and the body is that game's word. */
  lemma WordServedOnlyToHost(params: Params, parse: string -> Option<int>, games: seq<Game>)
    requires "_auth" in params && "gameId" in params
    ensures var r := WordHandler(params, (a, g) => WordLadder(parse(a), SelectGame(games, g)));
      var game := SelectGame(games, params["gameId"]);
      var user := parse(params["_auth"]);
      && (r.status == DefaultStatus <==> user.Some? && game.Some? && game.value.ownerId == user.value)
      && (r.status == DefaultStatus ==> r.text == game.value.word && game.value.gameId == params["gameId"] && !game.value.finished)
      && (user.None? ==> r.text == "not_auth")
      && (user.Some? && game.None? ==> r.text == "ended")
  {
    var getWord := (a, g) => WordLadder(parse(a), SelectGame(games, g));
    var result := getWord(params["_auth"], params["gameId"]);
    assert result == WordLadder(parse(params["_auth"]), SelectGame(games, params["gameId"]));
  }
}
