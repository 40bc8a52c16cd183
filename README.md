# KitaKits messenger bot: command, session and counter engine

A Dafny model of the engine inside `FacebookMessengerBot` (KitaKits.py): the
chat bot that receives a sender id and a message, authenticates the sender
against its `users` table, interprets bracketed commands, keeps a counter per
item in `items`, records commands in `command_logs` and opens 24-hour sessions
in `user_sessions`.

Layout, one module per component:

- `text.dfy` (`Text`): Python's `str.strip()`, `str.lower()` and `str(n)` as
  the interpreter uses them.
- `store.dfy` (`Store`): the rows of the four tables, the database as a value,
  the administrator seed of `init_database` and `log_command`.
- `counters.dfy` (`Counters`): `get_item_count` and `modify_item_count`.
- `sessions.dfy` (`Sessions`): the credential check, `authenticate_user` and
  `is_user_authenticated`.
- `interpreter.dfy` (`Interpreter`): `process_command` as a function from the
  database and one message to the new database and the response; `Render`
  gives the exact reply text of each reply kind.
- `bot.dfy` (`Bot`): the class `FacebookMessengerBot`, whose fields are the
  four tables and whose methods update them in place, branch for branch as the
  source does. Each method's postcondition equates the new tables (and its
  result) with the pure definition of the same operation, and the lemmas about
  those definitions state the properties.

Modelling decisions:

- Time is one integer clock in seconds, passed to every operation; a session
  issued at `t` expires at `t + 86400` and is live while `expires_at > now`.
- A password hash is an abstract value that records the password it was made
  from; `check_password_hash` is equality with that password.
- The session token is the material the source hashes (sender id and issue
  time) rather than its SHA-256 digest.
- `facebook_id` is UNIQUE. When a login would move a sender id onto a second
  user, SQLite raises during the UPDATE, nothing is committed, and the
  exception leaves `process_command`. The model treats this as a failure
  outcome, not a precondition: `AuthenticateUser` returns `IntegrityError` and
  leaves the tables unchanged, and the interpreter's response is `Raised`. The
  administrator seed fails the same way.
- The statistics report is generated and sent outside the model. Its outcome
  (`ReportSent`, or `ReportFailed` with the exception text) is a parameter.
  The branch logs one `statistics` record whose success flag matches it.
- `is_user_authenticated` selects the most recently inserted live session of
  the sender that some user row still carries (the JOIN). Only whether such a
  row exists matters to the caller.

Behaviour of the code worth noting:

- Not every message reaches `command_logs`. An unauthenticated sender's failed login, an
  unauthenticated non-bracketed message and the UNIQUE failure append no log
  record (`UnauthenticatedLogin`, `UnauthenticatedPlainText`).
- A login is a single bracketed token used as both username and password.
  The seeded administrator's password is `admin123`, so from a fresh database
  no message ever logs anyone in (`SeededBotNeverAuthenticates`). The help
  text's `[admin] [admin123]` example arrives as one message whose content is
  `admin] [admin123`, and that content fails as both username and password.
- The bracketed token may contain spaces, and `[help]` is matched
  before lowering. An authenticated `[HELP]` therefore selects an item named
  `help`.

## Model

| member | source | states |
|---|---|---|
| Text.StripLeft | KitaKits.py:319 | the result is a suffix of the input; everything dropped is whitespace; the result does not start with whitespace |
| Text.StripRight | KitaKits.py:319 | the result is a prefix of the input; everything dropped is whitespace; the result does not end with whitespace |
| Text.Strip | KitaKits.py:319 | the stripped message neither starts nor ends with whitespace, is no longer than the input, and is empty exactly when the input is all whitespace |
| Text.StripIdempotent | KitaKits.py:319 | stripping a stripped message changes nothing |
| Text.StripPadded | KitaKits.py:319-322 | whitespace around a command is removed and nothing else is, so a padded `[help]` is matched |
| Text.LowerChar | KitaKits.py:357 | an upper-case letter becomes its lower-case form, any other character is kept, and the result is never upper-case |
| Text.Lower | KitaKits.py:357 | the lowered keyword has the same length and lowers each character in place |
| Text.Decimal | KitaKits.py:373 | a count is rendered as a non-empty string of decimal digits with no leading zero |
| Text.DecimalRoundTrip | KitaKits.py:378 | reading back the digits of a rendered count gives the count |
| Store.SeedAdmin | KitaKits.py:80-87 | the administrator is inserted only when no user is named admin; the insert fails exactly when another user holds `admin_fb_id`; other tables are untouched |
| Store.SeededStore | KitaKits.py:32-87 | a fresh database has empty items, logs and sessions and the single user admin, bound to `admin_fb_id`, with password admin123 |
| Store.SeedAdminKeepsUnique | KitaKits.py:35 | seeding the administrator keeps sender ids unique |
| Store.AppendLog | KitaKits.py:106-118 | logging appends exactly the given record and changes no other table |
| Counters.GetItemCount | KitaKits.py:173-182 | the count is returned exactly when the item exists, and it is the stored count |
| Counters.ModifyItemCount | KitaKits.py:184-216 | the operation always succeeds with the count `NextCount` gives and the message "Item <id> <operation>ed successfully"; the item exists afterwards with that count and the new update time, keeps its name (or is named after its id when created), and no other item changes |
| Counters.SubtractFloorsAtZero | KitaKits.py:200-211 | subtracting from an existing item stores max(0, current - amount), never more than the current count, keeps the item's name and creation time, and changes no other item |
| Counters.AddOnlyTouchesItem | KitaKits.py:200-211 | adding to an existing item stores current + amount, keeps its name and creation time, and changes no other item |
| Counters.FirstTouchCreates | KitaKits.py:193-199 | an unseen item is created, named after its id, with count 1 for add and 0 otherwise, whatever the amount, and no other item changes |
| Counters.ReadAfterModify | KitaKits.py:173-211 | reading an item after a modification returns the count that modification returned |
| Sessions.IsUserAuthenticated | KitaKits.py:120-135 | a sender is authenticated exactly when some session of theirs has not expired and some user row carries their sender id |
| Sessions.ValidCredentials | KitaKits.py:142-151 | credentials hold exactly when the username exists and its stored hash is the one generated from the password |
| Sessions.AuthenticateUser | KitaKits.py:137-171 | a login succeeds exactly when the credentials hold and no other user carries the sender id; otherwise nothing changes; items and logs never change and no user is added; the only integrity failure is the UNIQUE violation on `facebook_id` |
| Sessions.LatestLiveSession | KitaKits.py:125-132 | the row found is a live session of the sender with no live one inserted after it; none is found exactly when the sender has no live session |
| Sessions.AuthenticateUserOutcomes | KitaKits.py:137-171 | bad credentials give "Invalid credentials" and change nothing; valid ones rebind the user, set its last login to now and append exactly one session, or fail with no change when another user holds the sender id |
| Sessions.AuthenticateUserKeepsUnique | KitaKits.py:153-157 | a login never leaves two users with the same sender id |
| Sessions.LiveSurvivesAppend | KitaKits.py:125-135 | after a session is appended the sender has a live session exactly when they had one before or the new one is live |
| Sessions.SessionWindow | KitaKits.py:159-166 | after a login at t the sender is authenticated at every t' in [t, t + 24h); from t + 24h on only older live sessions count |
| Sessions.RebindRevokesPreviousSender | KitaKits.py:125-157 | when a login rebinds a username to a new sender, the previous sender is no longer authenticated at any time |
| Interpreter.Interpret | KitaKits.py:317-394 | the only exception that escapes is the UNIQUE violation, and then nothing is stored |
| Interpreter.Login | KitaKits.py:335-349 | a login attempt raises only the UNIQUE violation, and then stores nothing |
| Interpreter.Dispatch | KitaKits.py:355-390 | every authenticated bracketed command is answered with a reply, never an exception |
| Interpreter.CountReplyShowsCount | KitaKits.py:369-384 | the `[add]`, `[subtract]` and `[count]` replies end with the count in decimal, and those digits read back to the count |
| Interpreter.Content | KitaKits.py:338 | the content is the message without its first and last character, two shorter than it |
| Interpreter.HelpAlwaysAnswered | KitaKits.py:319-333 | a stripped `[help]` is answered with the help text and appends one `help` record, whether or not the sender is authenticated |
| Interpreter.UnauthenticatedLogin | KitaKits.py:335-349 | an unauthenticated bracketed message is a login with the content as username and password: on failure the prompt and no change at all, on success the login reply, one session and one `login` record, on a sender-id clash the raised error and no change |
| Interpreter.LoginStores | KitaKits.py:341-349 | the login branch stores nothing unless the credentials hold, and then exactly the rebound user, one session and one `login` record |
| Interpreter.LoginAppendsOnly | KitaKits.py:341-349 | a login attempt appends at most one session and one log record, removes no user or item, and keeps sender ids unique |
| Interpreter.UnauthenticatedPlainText | KitaKits.py:351-353 | an unauthenticated non-bracketed message gets the "must be authenticated" reply and changes nothing |
| Interpreter.InterpretDispatches | KitaKits.py:355-357 | an authenticated bracketed message is dispatched on its lowered content |
| Interpreter.AdjustStores | KitaKits.py:369-378 | `[add]` and `[subtract]` log one record with parameter `default_item`, change only `default_item`, store the count `modify_item_count` computes for it, and reply with that count |
| Interpreter.AdjustByOne | KitaKits.py:369-378 | `[add]` raises the count of `default_item` by one (creating it at 1) and `[subtract]` lowers it by one but not below zero (creating it at 0), and the reply carries the new count |
| Interpreter.AuthenticatedAdjust | KitaKits.py:355-378 | an authenticated `[add]` or `[subtract]`, in any letter case, changes `default_item` by one as above and replies with the new count |
| Interpreter.DispatchLogsOnce | KitaKits.py:359-390 | every dispatched keyword appends exactly one record, under its own name or `set_item`; statistics appends one record whose success flag and error text follow the report outcome and replies "sent" or the error; count logs `default_item` as its parameter with success; only add and subtract change items; any other keyword is logged as `set_item` with the keyword as parameter and answered with the item selection |
| Interpreter.AuthenticatedCommand | KitaKits.py:355-390 | an authenticated bracketed message appends exactly one record, changes no user or session, and changes at most `default_item` |
| Interpreter.CountReportsStored | KitaKits.py:380-384 | `[count]`, in any letter case, reports the stored count of `default_item`, or 0 when it does not exist, and changes no item |
| Interpreter.AuthenticatedPlainText | KitaKits.py:392-394 | an authenticated non-bracketed message appends one failed `unknown` record with the stripped text and changes nothing else |
| Interpreter.InterpretAppendsOnly | KitaKits.py:317-394 | every message keeps the log and the sessions append-only with at most one new row each, removes no user or item, and keeps sender ids unique |
| Interpreter.NoSelfPasswordsNoLogin | KitaKits.py:341-349 | when no user's password equals their username, no message changes users or sessions |
| Interpreter.SeededBotNeverAuthenticates | KitaKits.py:336-353 | from the seeded database (admin/admin123), no sequence of messages changes users or opens a session, so no sender is ever authenticated |
| Bot.FacebookMessengerBot.constructor | KitaKits.py:19-24 | a new bot over an empty database holds exactly the seeded tables |
| Bot.FacebookMessengerBot.InitDatabase | KitaKits.py:80-87 | re-running the seed inserts the administrator if missing, or fails and changes nothing, and keeps sender ids unique |
| Bot.FacebookMessengerBot.LogCommand | KitaKits.py:106-118 | the tables afterwards are the old ones with exactly one record appended |
| Bot.FacebookMessengerBot.AuthenticateUser | KitaKits.py:137-171 | the tables and the result are those of `Sessions.AuthenticateUser`, and sender ids stay unique |
| Bot.FacebookMessengerBot.ModifyItemCount | KitaKits.py:184-216 | the items and the result are those of `Counters.ModifyItemCount`; users, logs and sessions are unchanged |
| Bot.FacebookMessengerBot.ProcessCommand | KitaKits.py:317-394 | the tables and the response are those of `Interpreter.Interpret`, and sender ids stay unique |

## Left out

- The Flask routes (`verify_webhook`, `handle_webhook`, `health_check`) are HTTP transport. `Interpreter.Replay` models any sequence of `process_command` calls. Unlike the webhook's loop, it does not stop at a raised exception; a raised login changes nothing anyway.
- `verify_webhook_signature` is left out: it is an HMAC-SHA256 library call on the transport path.
- `send_message` and `send_file` are network calls to the Graph API. `ProcessCommand` returns the reply kind, and `Render` gives the text that would be sent.
- `generate_statistics_report` is pandas aggregation and spreadsheet writing. Its outcome is the `ReportOutcome` parameter.
- werkzeug's salted hashing is abstracted to equality with the stored password. SHA-256 session tokens are abstracted to their input material.
- The model uses one integer clock per message. It leaves out the local `datetime.now()` versus UTC `CURRENT_TIMESTAMP` mismatch. It also leaves out the clock moving between the two authentication checks of one `process_command`.
- Ties in `ORDER BY created_at` are broken by insertion order. Only whether a row exists affects behaviour.
- The `id` autoincrement columns are left out. So are the users' `created_at` and the unused `is_authenticated` column.
- Database and I/O errors other than the UNIQUE violation on `facebook_id` are left out, including a failing `log_command`.
- Text.LowerChar: lowers ASCII and Latin-1 letters only. Other Unicode case mappings of `str.lower()`, including those that change the length, are not modelled.
- Text.Lower: keeps the length of the string, because it lowers character by character with `Text.LowerChar`. The mappings of `str.lower()` that change the length are not modelled.
- Counters.ModifyItemCount: counts are unbounded natural numbers. SQLite stores INTEGER in 64 bits, and Python's sqlite3 raises OverflowError when it binds a count of 2^63 or more. That failure is not modelled.
- Bot.FacebookMessengerBot.ModifyItemCount: `amount` is a natural number. Every caller passes the default 1. A negative amount could drive an `add` below zero in the source.
- Concurrent webhook deliveries are left out; the model processes one message at a time.
- config.py holds environment constants only. Its `SESSION_DURATION_HOURS` is not used; KitaKits.py hardcodes 24 hours.
