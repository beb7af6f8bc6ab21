# drawguessr, modelled in Dafny

drawguessr is a Telegram draw-and-guess bot. A group member starts a game with
`/game`: the bot picks a secret word, stores a game row and announces it with a
photo. The host opens a web app, gets the word, draws on a canvas, and the page
uploads the drawing, which replaces the announcement photo. The other members guess
in the group chat. The first message that starts with the word (ignoring letter
case) finishes the game.

This project models the core of that bot and proves what it promises.

| file | models |
|---|---|
| `records.dfy` | the `User` and `Game` rows |
| `store.dfy` | the PostgreSQL store: each query is a function over a table, and each store method applies one to the class's `users`/`games` fields |
| `gamecontroller.dfy` | the game controller: `create_game`, `update_state`, `check_word`, `get_word`, `delete_games`, the per-group pattern cache and the controller's invariant |
| `throttling.dfy` | the per-user fixed-window throttle over its TTL cache |
| `retry.dfy` | the `retry` loop and the metaclass that applies it |
| `awaitable.dfy` | `aenumerate` |
| `wordprovider.dfy` | the locale table and word selection |
| `usercontext.dfy` | the banned-user gate |
| `miniapp.dfy` | the web app's `/update` and `/word` endpoints |
| `paint.dfy` | the drawing page: brush state, stroke buffer, bounding box, upload, message table |

The main results:

- **One game per group.** The store does not keep this invariant: the schema has no
  uniqueness on `group_id`. The controller keeps it, together with agreement
  between its pattern cache and the table. Every controller method that changes
  state preserves it.
- **Stale cache entries are harmless.** `delete_games` leaves a stale cache entry.
  The proof shows that entry never disagrees with the table, and the next
  `create_game` overwrites it.
- **Throttle counts.** Per user and per window, `min(n, max(capacity, 1))` requests
  pass and at most one warning is sent. The proof is by induction over any sequence
  of requests.
- **Retry.** The retry loop's result is characterised completely.
- **Word endpoint.** The secret word is served only to the owner of an unfinished
  game. The page has a translation for every status refusal that `get_word` leads to.
- **Brush.** Switching to the eraser and back gives the painter's colour back, after
  any number of eraser clicks.
- **Bounding box.** When a stroke is finalized, the box grows to the smallest one that
  holds both the previous box and the stroke. This holds for the code as written too,
  where finalizing can then throw.

Collaborators whose answers the code cannot see are inputs of the operations: the
Telegram API, the signed web-app payload, `uuid4`, `random.randint`, the clocks and
the file system.

## Model

| member | source | states |
|---|---|---|
| `PostgresStore.FindUser` | database/postgres/__init__.py:63-72 | The lookup by `telegram_id` finds a row with that id, or reports none exactly when no row has it. |
| `PostgresStore.SelectGame` | database/postgres/__init__.py:161-173 | `get_game` returns an unfinished row with that public id, and returns nothing exactly when there is no such row. |
| `PostgresStore.SelectGroupGame` | database/postgres/__init__.py:182-195 | `get_group_game` returns the group's unfinished row with the largest internal id, and returns nothing exactly when the group has no unfinished row. |
| `PostgresStore.SetMessage` | database/postgres/__init__.py:204-211 | The `UPDATE` keeps the table's length and changes only `message_id`. It sets that field on the rows with the given id and leaves every other row as it was. |
| `PostgresStore.DeleteWhere` | database/postgres/__init__.py:218-237 | After the `DELETE`, a row remains exactly when it was there and the condition does not select it. The table does not grow, and ids stay in increasing order. |
| `PostgresStore.SetMessageKeepsGroupGame` | database/postgres/__init__.py:182-211 | Updating a message id never changes which row `get_group_game` picks; at most that row's `message_id` differs. |
| `PostgresStore.SetMessageKeepsGame` | database/postgres/__init__.py:161-173 | Updating a message id never changes which row `get_game` picks; at most that row's `message_id` differs. |
| `PostgresStore.SetMessageKeepsValid` | database/postgres/__init__.py:204-211 | The `UPDATE` keeps the ids, so it keeps the table's serial-key invariant. |
| `PostgresStore.SetMessageOfAppended` | database/postgres/__init__.py:127-154 | Setting the message id of the row just inserted changes that row only, because its `RETURNING` id is larger than every other. |
| `PostgresStore.AppendedIsNewest` | database/postgres/__init__.py:127-131 | A newly inserted unfinished row is what `get_group_game` returns for its group. |
| `PostgresStore.PsycopgDatabase.constructor` | database/postgres/__init__.py:239-265 | A store with freshly created empty tables satisfies the table invariants. |
| `PostgresStore.PsycopgDatabase.GetUserOrCreate` | database/postgres/__init__.py:55-99 | A user with that `telegram_id` is returned unchanged with `False`. Otherwise a row with the next serial id, not banned and available for broadcast, is appended and returned with `True`. `telegram_id` stays unique. |
| `PostgresStore.PsycopgDatabase.CreateGame` | database/postgres/__init__.py:116-154 | The new row has the next serial id, `message_id` 0 and `finished` false, and is appended. Its id is larger than every earlier row's. |
| `PostgresStore.PsycopgDatabase.GetGame` | database/postgres/__init__.py:156-175 | `get_game` answers with the table's selection for that public id. |
| `PostgresStore.PsycopgDatabase.GetGroupGame` | database/postgres/__init__.py:177-197 | `get_group_game` answers with the newest unfinished row of the group. |
| `PostgresStore.PsycopgDatabase.UpdateGameMessage` | database/postgres/__init__.py:199-211 | The games table becomes its `UPDATE` of `message_id`. Users and serials are unchanged. |
| `PostgresStore.PsycopgDatabase.GameFinished` | database/postgres/__init__.py:213-224 | The finished game's row is deleted, not marked `finished`. Nothing else changes. |
| `PostgresStore.PsycopgDatabase.DeleteGames` | database/postgres/__init__.py:226-237 | Every row of the group is deleted. Nothing else changes. |
| `GameControl.Matches` | services/gamecontroller.py:166-171 | `regex.match(text)` for a word taken literally: the word, ignoring case, at the start of the text. Its contract is stated by the lemmas below. |
| `GameControl.MatchesIffFoldedPrefix` | services/gamecontroller.py:166-171 | A text matches the word's pattern exactly when its first `len(word)` characters, case-folded, equal the case-folded word. |
| `GameControl.MatchAllowsTrailing` | services/gamecontroller.py:171 | `match` is anchored only at the start: text after a hit never spoils it. |
| `GameControl.MatchIgnoresCase` | services/gamecontroller.py:168 | The word in any letter case is a hit (`re.IGNORECASE`). |
| `GameControl.ShortTextMisses` | services/gamecontroller.py:171 | A text shorter than the word never matches. |
| `GameControl.GenerateGameId` | services/gamecontroller.py:207-208 | A game id is `"gameId__"` followed by the uuid, and so has that prefix and length. |
| `GameControl.GameIdRoundTrip` | services/gamecontroller.py:207-208 | The uuid is what follows the prefix in the game id. |
| `GameControl.GameIdInjective` | services/gamecontroller.py:207-208 | Distinct uuids give distinct game ids. |
| `GameControl.WordLadder` | services/gamecontroller.py:187-202 | The checks run in this order: auth (`NotAuth`), then existence (`Ended`), then ownership (`NotHost`). Each status holds exactly under its condition. A word comes back exactly with `Ok`, and it is the game's word. |
| `GameControl.SetMessageKeepsInvariant` | services/gamecontroller.py:79-81 | Updating a message id keeps one unfinished game per group, unique public ids and cache agreement. |
| `GameControl.AppendKeepsInvariant` | services/gamecontroller.py:49-57 | Seeding the cache with the word and storing the first unfinished game of a group keeps the invariant. The new game becomes the group's game. |
| `GameControl.SameIdSameRow` | database/postgres/__init__.py:246-256 | The serial id is a key: two rows with the same id are the same row. |
| `GameControl.SeedKeepsInvariant` | services/gamecontroller.py:166-169 | Rebuilding a missing cache entry from the group's stored word keeps the invariant. |
| `GameControl.FinishKeepsInvariant` | services/gamecontroller.py:171-173 | Deleting the guessed game and its cache entry keeps the invariant. Neither lookup finds that game afterwards. |
| `GameControl.StaleEntryHarmless` | services/gamecontroller.py:204-205 | After `delete_games`, a left-over cache entry for the group agrees with the table whatever it holds, because the group has no unfinished row. |
| `GameControl.GameController.constructor` | services/gamecontroller.py:26-33 | The cache starts empty, and the invariant holds for any table with one open game per group and unique open ids. |
| `GameControl.GameController.CreateGame` | services/gamecontroller.py:35-83 | If the group has an unfinished game, the reply goes to that game's announcement and nothing changes. Otherwise the cache gets the word's pattern under the group id and a row with `message_id` 0 is created. The announcement's message id is then stored; if the announcement fails, the row keeps 0. Afterwards the group has a running game. |
| `GameControl.GameController.StartGame` | services/gamecontroller.py:49-81 | In a free group, the cache is seeded, the row is stored and then gets the announcement's message id, and the invariant is kept. |
| `GameControl.GameController.UpdateState` | services/gamecontroller.py:85-154 | Success means the caller owns an unfinished game with that id, and either the edit or the resend worked. The table changes only after a failed edit and a successful resend, and then only the new message id is stored. |
| `GameControl.GameController.SaveMessage` | services/gamecontroller.py:148-150 | Storing a new announcement id keeps the controller's invariant. |
| `GameControl.GameController.CheckWord` | services/gamecontroller.py:156-185 | With no running game, or a message from the host, nothing changes. On a hit, the game is deleted, the cache entry dropped and a "Correct" reply sent. On a miss, at most the cache entry is rebuilt from the stored word. |
| `GameControl.GameController.FinishGame` | services/gamecontroller.py:171-173 | A hit deletes the row and the cache entry, and keeps the invariant. |
| `GameControl.GameController.GetWord` | services/gamecontroller.py:187-202 | `get_word` answers with the validation ladder over the current table. |
| `GameControl.GameController.DeleteGames` | services/gamecontroller.py:204-205 | Every row of the group is deleted and the cache is left alone; the invariant still holds. |
| `Throttling.Lookup` | middlewares/throttling.py:23-25 | The TTL cache hands a record back exactly when it is strictly before the record's expiry, and what it hands back is the stored record. |
| `Throttling.Admit` | middlewares/throttling.py:35-61 | A missing or elapsed record restarts the window at `(now, 1)` and passes. Inside a window, a request passes exactly when `count+1 <= capacity`, and the warning fires exactly when `count == capacity`. Passing and warning never coincide. The start is kept; the count goes up by 1, or by 2 on the warning. Nothing is written only for silent drops. |
| `Throttling.TtlExpiryUnobservable` | middlewares/throttling.py:23-25 | For a record the middleware wrote, expiry in the cache never changes a decision, because an expired record's window is already over. |
| `Throttling.WindowCounts` | middlewares/throttling.py:39-54 | Requests inside a window whose record holds `count`: `min(n, max(capacity-count, 0))` pass, and exactly one warning is sent when the capacity is crossed. |
| `Throttling.WindowAdmitsAtMostCapacity` | middlewares/throttling.py:35-61 | A window opened by a request that found no live record admits `min(n, max(capacity, 1))` of its `n` requests. It sends one warning when `n > capacity >= 1`, and none otherwise. |
| `Throttling.ThrottlingMiddleware.constructor` | middlewares/throttling.py:16-25 | The defaults are a timeframe of 60 and a capacity of 20, with an empty cache. |
| `Throttling.ThrottlingMiddleware.Call` | middlewares/throttling.py:27-61 | One request follows the admission rule on the caller's record only. Every other user's entry is untouched, and the write restarts the TTL. |
| `Retry.Retried` | common/retry.py:10-30 | `f` is called at most `max(times, 0)` times, and every call but the last raised an expected exception. The first returned value is returned, and an unexpected exception leaves at once. Otherwise, after `times` expected exceptions, `TooManyTriesException` is raised, chained from the last one, or from nothing when `times <= 0`. |
| `Retry.Decorate` | common/retry.py:43-50 | An attribute changes exactly when its name does not start with `_`, is not excluded, and is a coroutine function. It is then wrapped once, with the class's `expects` and `times`. |
| `Retry.DecorateAttrs` | common/retry.py:36-52 | The metaclass keeps every name and its order, and rewrites each value by that rule. |
| `Retry.StoreQueriesRetried` | database/postgres/__init__.py:13-15 | Each public async store method is retried three times, on `OperationalError` only; the defaults come from common/retry.py lines 39-41. |
| `Retry.PrivateOrSyncUntouched` | common/retry.py:45-47 | Private names and non-coroutine attributes are never wrapped. |
| `Awaitable.AEnumerate` | common/awaitable.py:13-18 | The output has the input's length, and element `i` is `(start + i, xs[i])`. |
| `WordProvider.LocaleTable` | services/wordprovider.py:23 | The locale table holds exactly the locales of the files. Each entry is one of the files, and for a repeated locale the last file wins. |
| `WordProvider.StripLeft` | services/wordprovider.py:36 | The result is a suffix of the input. Everything removed is whitespace, and the result does not start with whitespace. |
| `WordProvider.StripRight` | services/wordprovider.py:36 | The result is a prefix of the input. Everything removed is whitespace, and the result does not end with whitespace. |
| `WordProvider.Strip` | services/wordprovider.py:36 | The stripped word is a contiguous part of the input with only whitespace cut from either end. It neither starts nor ends with whitespace. |
| `WordProvider.StripIdempotent` | services/wordprovider.py:36 | Stripping twice is stripping once. |
| `WordProvider.FileWordProvider.constructor` | services/wordprovider.py:20-25 | The table is built from the files, the default config is the default locale's entry if there is one, and the default word is "word". |
| `WordProvider.FileWordProvider.ConfigFor` | services/wordprovider.py:28 | A known locale gets its own file, and any other locale gets the default config. |
| `WordProvider.FileWordProvider.Generate` | services/wordprovider.py:27-36 | With no config, it raises. With a negative line count, `randint` raises. If the file cannot be opened, it raises. Otherwise it returns the stripped line at the drawn index, or the stripped default word when the file has no line there. |
| `UserContext.UserContextMiddleware.constructor` | middlewares/usercontext.py:12-15 | The middleware keeps the user lookup it is given. |
| `UserContext.UserContextMiddleware.Call` | middlewares/usercontext.py:17-35 | The user row comes from `get_user_or_create`. A banned user's handler is not called: the call returns nothing and leaves `data` unchanged. Any other user reaches the handler with `data["user"]` and `data["user_created"]` set, and the handler's result is returned. A new user is never denied. |
| `MiniApp.UpdateHandler` | http_handlers/webapp/miniapp.py:20-38 | A wrong content type gets 401 "Incorrect content type", and missing keys get 401 "Some keys are missing". Otherwise the answer is "OK" with the default status exactly when `update_state` succeeds, and 401 otherwise. |
| `MiniApp.WordHandler` | http_handlers/webapp/miniapp.py:41-63 | Without both keys the answer is 401. It is the default status exactly for `Ok`, with the word as the body. Every other status gets 401 with "not_auth", "not_host" or "ended". |
| `MiniApp.WordServedOnlyToHost` | http_handlers/webapp/miniapp.py:41-63 | Over the controller, the word is served exactly to the owner of an unfinished game with that id, and the body is that game's word. |
| `Paint.BrushActionsKeepValid` | http_handlers/webapp/static/js/script.js:170-196 | Every brush action keeps the rule that a colour is saved exactly while the eraser is selected. |
| `Paint.PainterClearsSaved` | http_handlers/webapp/static/js/script.js:170-174 | After a painter is chosen, nothing is saved and the size is the button's. |
| `Paint.ErasersThenPainterRestore` | http_handlers/webapp/static/js/script.js:170-196 | After any number of eraser clicks, the eraser is active with white and the painter's colour is saved. Choosing a painter brings that colour back. |
| `Paint.PickUnderEraserDropped` | http_handlers/webapp/static/js/script.js:99 | A colour picked while erasing is replaced by the saved colour when a painter is chosen. |
| `Paint.Extend` | http_handlers/webapp/static/js/script.js:201-208 | The box after the loop holds every point and the start box. Each of its sides is the start box's side or some point's coordinate. |
| `Paint.PublishedRegionCovers` | http_handlers/webapp/static/js/script.js:342-355 | Every point in the box lies in the uploaded region with the padding of 18 on each side. |
| `Paint.Messages` | http_handlers/webapp/static/js/script.js:6-25 | Tables exist for "en" and "ru" only. Both define the same seven keys, and no message equals its key. |
| `Paint.PrimarySubtag` | http_handlers/webapp/static/js/script.js:28 | `split("-")[0]` is the prefix up to the first dash. |
| `Paint.InitialLocale` | http_handlers/webapp/static/js/script.js:27-29 | The browser's language is used when there is a table for it, and "en" otherwise; either way a table exists. |
| `Paint.Translate` | http_handlers/webapp/static/js/script.js:31 | `_` throws exactly when the locale has no table. Otherwise it gives the message, or the key itself when the table lacks it. |
| `Paint.UserLocale` | http_handlers/webapp/static/js/script.js:44 | As written: the Telegram user's language, when present, replaces the locale whether or not a table exists for it. |
| `Paint.UnknownUserLanguageBreaksMessages` | http_handlers/webapp/static/js/script.js:44 | After line 44 takes a Telegram language with no table ("de"), `_` throws. |
| `Paint.UserLocaleCorrected` | http_handlers/webapp/static/js/script.js:44 | The Telegram language is taken only when a table exists for it. |
| `Paint.CorrectedLocaleAlwaysTranslates` | http_handlers/webapp/static/js/script.js:28-44 | With the corrected lookup, `_` never throws. |
| `Paint.WordRefusalsAreTranslated` | http_handlers/webapp/static/js/script.js:321-329 | Every status refusal body of `get_word` ("not_auth", "not_host", "ended", "error") is a key of both tables, so the page shows a translated message for it. |
| `Paint.PaintApp.constructor` | http_handlers/webapp/static/js/script.js:27-81 | As written. The locale comes from the browser, with the "en" fallback. Without a `start_param` the page shows the translated "not_auth" message and stops. Otherwise the user's language replaces the locale, and start-up completes exactly when a table exists for that locale; `_('close')` throws otherwise. The brush is a black small painter, with an empty stroke and no box. |
| `Paint.PaintApp.Guarded` | http_handlers/webapp/static/js/script.js:27-81 | Start-up with the language lookup corrected: the page starts exactly when there is a `start_param`, always in a locale that has a table. |
| `Paint.PaintApp.OnDrawToolSelected` | http_handlers/webapp/static/js/script.js:170-182 | The brush becomes the painter selection; nothing else changes. |
| `Paint.PaintApp.OnEraserSelected` | http_handlers/webapp/static/js/script.js:184-196 | The brush becomes the eraser selection (size 12, white, colour saved); nothing else changes. |
| `Paint.PaintApp.OnColorChange` | http_handlers/webapp/static/js/script.js:99 | Only the colour changes. |
| `Paint.PaintApp.OnMouseDown` | http_handlers/webapp/static/js/script.js:139-151 | The point is appended, and drawing and dirty are set. |
| `Paint.PaintApp.OnMouseMove` | http_handlers/webapp/static/js/script.js:158-168 | The point is appended only while drawing. |
| `Paint.PaintApp.FinalizeDrawing` | http_handlers/webapp/static/js/script.js:198-244 | The box grows to the smallest one holding the stroke, starting from the window size if there was no box. In painter mode it throws exactly for a stroke of 0 or 2 points, and then the stroke is kept; otherwise the buffer is emptied. |
| `Paint.PaintApp.FinalizeDrawingGuarded` | http_handlers/webapp/static/js/script.js:198-244 | With the intended guards it always completes and empties the buffer, and the box holds every point. |
| `Paint.PaintApp.OnMouseUp` | http_handlers/webapp/static/js/script.js:153-156 | Drawing stops and the stroke is finalized as written. |
| `Paint.PaintApp.PublishImage` | http_handlers/webapp/static/js/script.js:335-355 | Nothing happens while drawing, when the drawing is clean, or with no box. Otherwise dirty is cleared and the padded box is the region uploaded. |
| `Paint.PaintApp.OnLoad` | http_handlers/webapp/static/js/script.js:274-277 | The colour comes from the colour input and the box is forgotten. |
| `Paint.PaintApp.ResizeCanvas` | http_handlers/webapp/static/js/script.js:279-285 | The box is reset to none; nothing else changes. |
| `Paint.PaintApp.ClearCanvas` | http_handlers/webapp/static/js/script.js:287-291 | The box is reset to none; nothing else changes. |
| `Paint.QuickFlickAsWritten` | http_handlers/webapp/static/js/script.js:221-228 | A press, one move and a release in painter mode throw. The two points stay in the buffer. |
| `Paint.UnknownLanguageStartUp` | http_handlers/webapp/static/js/script.js:44-47 | As written, a Telegram user whose language is "de" gets a page whose start-up stops at `_('close')`, with locale "de". |
| `Paint.UnknownLanguageStartUpGuarded` | http_handlers/webapp/static/js/script.js:27-81 | With the corrected start-up, the same user gets a started page in English. |
| `Paint.QuickFlickGuarded` | http_handlers/webapp/static/js/script.js:198-244 | With the guarded finalization, the same flick empties the buffer and the box holds both points. |

## Left out

- The live-view subscription registry, `cancel_game` and `delete_game` are not modelled. handlers/game.py and handlers/invite.py call the last two, but services/gamecontroller.py does not define them.
- Regular expressions: the word is compiled with `re.compile(word, re.IGNORECASE)`, and the model treats it as a literal. A word with regex metacharacters would match differently.
- Case folding: only ASCII and the basic Cyrillic letters (with Ё) are folded. Python's `IGNORECASE` covers all of Unicode.
- `get_game` uses `LIMIT 1` without `ORDER BY`, so SQL does not fix which row comes back. The model takes the first row. The controller's invariant keeps open public ids unique, so this never matters there.
- Telegram calls (`send_message`, `send_photo`, `edit_message_media`, `event.answer`) are inputs: success or failure, and the new message id. Failed notices are swallowed, so they change nothing.
- In `update_state`, a resend counts as failed in two cases: the photo cannot be sent, or storing its message id raises. In the second case the photo was sent anyway. The model has no separate case for that.
- A failed announcement in `create_game` raises out of `create_game`, after the row and the cache entry exist (`AnnounceFailed`).
- `safe_parse_webapp_init_data`: the signed payload is reduced to the user id, or none when the check fails.
- `uuid4`, `random.randint`, the wall clock (`created_at`) and the monotonic clock are inputs.
- GameControl.GameController.CreateGame: it requires the new game id to differ from every stored one, which assumes `uuid4` does not collide. The invariant that open game ids are unique rests on that assumption.
- An `owner_name` longer than 128 characters does not fit the `varchar(128)` column. Telegram full names can be that long. The `INSERT` then raises a `DataError`, which is not retried, after `create_game` has already seeded the cache. The model's store has no length limits, so this failure is not modelled. The stale cache entry it would leave behind is harmless, as `GameControl.StaleEntryHarmless` shows for the same situation.
- The monotonic clock is an integer tick. The TTL cache's own clock reading is taken to equal the middleware's.
- Two interleaved `create_game` calls for the same group (both see no running game) are not modelled; every operation runs to completion on its own.
- Throttling.ThrottlingMiddleware.Call: the cache's `maxsize` eviction is not modelled. An evicted user would start a fresh window early.
- The store's connection pool, cursors, `sql`, `get_users`, `close` and `_async__init__` are not modelled. Every query in the model succeeds: retries on `OperationalError` are modelled in `Retry` on their own and not composed with the store's queries.
- Exceptions are modelled by the set of classes they are instances of. `functools.wraps` metadata is not modelled.
- `await_for`, the event-loop helper next to `aenumerate`, is not modelled.
- The word list is the file's sequence of lines. `randint(0, lines)` includes `lines`, so on a file of exactly `lines` lines the default word can come back (`Generate` covers that case). Whether the shipped list has one line more than declared is not known, so this is behaviour, not a finding.
- The web endpoints' rate limiter and the template page are not modelled. The uploaded image is an opaque form field. A rate-limited `/word` request is refused with status 429. Its body has no message table entry, so the page shows it untranslated and then shuts down. Paint.WordRefusalsAreTranslated covers the `get_word` statuses only.
- `word_handler`'s `case _` branch cannot be reached: the status has exactly four values.
- On the page: canvas painting, the quadratic smoothing geometry, `EventSource`, the XHR calls, `toBlob`, `showWord` with its cached word, `showFullBlockingMessage`, and listener attach/detach are not modelled. Coordinates are integers, though `clientX` may be fractional.

## Findings

| source | as written | input that shows it | evidently intended | confidence | as-written member | corrected member |
|---|---|---|---|---|---|---|
| http_handlers/webapp/static/js/script.js:44 | The Telegram user's `language_code` replaces the locale without the table check line 29 applies, so `i18n[current_locale]` is `undefined`. `_('close')` at line 47 then throws a `TypeError`, and start-up stops before the brush and the listeners are set up | a user whose Telegram language is `de` | fall back to the current locale when there is no table for the language | high, not executed | `Paint.UnknownLanguageStartUp` (with `Paint.UserLocale`, `Paint.UnknownUserLanguageBreaksMessages` and `Paint.PaintApp.constructor`) | `Paint.UnknownLanguageStartUpGuarded` (with `Paint.UserLocaleCorrected`, `Paint.CorrectedLocaleAlwaysTranslates` and `Paint.PaintApp.Guarded`) |
| http_handlers/webapp/static/js/script.js:199-228 | `!rawBrushData` is never true for an array. In painter mode an empty stroke reads `rawBrushData[0].x`, and a two-point stroke reads `rawBrushData[2].x` after the loop. Both throw before the buffer is emptied, and the next stroke is joined to the left-over points | a release with no press (`touchcancel`), or press, one move, release | skip an empty stroke; draw a two-point stroke as one segment; always empty the buffer | high, not executed | `Paint.QuickFlickAsWritten` (with `Paint.PaintApp.FinalizeDrawing`) | `Paint.PaintApp.FinalizeDrawingGuarded` (with `Paint.QuickFlickGuarded`) |
