/** The command interpreter, `process_command`, as a function from the store
    and one inbound message to the new store and the reply. */
module Interpreter {
  import opened Store
  import opened Text
  import opened Counters
  import opened Sessions

  /** The outcome of generating and sending the statistics report, which the
      model takes as given: either it went through, or it raised an exception
      with this message. */
  datatype ReportOutcome = ReportSent | ReportFailed(error: string)

  /** The replies `process_command` returns, one per kind; `Render` gives
      the exact text of each. */
  datatype Reply =
    | Help
    | LoggedIn(message: string)
    | AuthenticateFirst
    | MustAuthenticate
    | ReportSentReply
    | ReportError(error: string)
    | NewCount(message: string, count: nat)
    | CurrentCount(count: nat)
    | ItemSelected(itemId: string)
    | Unknown

  /** What `process_command` does for its caller: return a reply, or let an
      exception escape. */
  datatype Response = Replied(reply: Reply) | Raised(error: string)

  const DefaultItem: string := "default_item"

  const HelpText: string :=
    "Available commands:\n"
    + "[help] - Show this help message\n"
    + "[username] [password] - Login (e.g., [admin] [admin123])\n"
    + "[itemID] - Set target item for operations\n"
    + "[add] - Add 1 to current item count\n"
    + "[subtract] - Subtract 1 from current item count\n"
    + "[count] - Get current count for item\n"
    + "[statistics] - Generate and send Excel report\n"
    + "\n"
    + "Note: You must be authenticated to use commands other than [help]."

  /** The text of a reply, as the source formats it. */
  function Render(reply: Reply): string
  {
    match reply
    case Help => HelpText
    case LoggedIn(message) => message
    case AuthenticateFirst =>
      "Please authenticate first. Use [username] followed by [password] or use [help] for instructions."
    case MustAuthenticate => "You must be authenticated to use this command. Please login first."
    case ReportSentReply => "Statistics report generated and sent!"
    case ReportError(e) => "Error generating report: " + e
    case NewCount(message, n) => message + ". New count: " + Decimal(n)
    case CurrentCount(n) => "Current count for " + DefaultItem + ": " + Decimal(n)
    case ItemSelected(itemId) =>
      "Item '" + itemId + "' selected. Use [add], [subtract], or [count] to interact with it."
    case Unknown => "Unknown command. Use [help] to see available commands."
  }

  /** A count reply ends with the count in decimal, and reading those
      digits back gives the count. */
  lemma {:induction false} CountReplyShowsCount(reply: Reply)
    requires reply.NewCount? || reply.CurrentCount?
    ensures var text, digits := Render(reply), Decimal(reply.count);
      && |digits| < |text| && text[|text| - |digits|..] == digits
      && DecimalValue(text[|text| - |digits|..]) == reply.count
  {
    var digits := Decimal(reply.count);
    var prefix := if reply.NewCount? then reply.message + ". New count: "
                  else "Current count for " + DefaultItem + ": ";
    assert Render(reply) == prefix + digits;
    assert (prefix + digits)[|prefix|..] == digits;
    DecimalRoundTrip(reply.count);
  }

  /** The text starts with `[` and ends with `]`. */
  predicate IsBracketed(text: string)
  {
    text != [] && text[0] == '[' && text[|text| - 1] == ']'
  }

  /** `text[1:-1]`: what lies between the brackets. */
  function Content(text: string): (c: string)
    requires IsBracketed(text)
    ensures |c| == |text| - 2 && text == "[" + c + "]"
  {
    text[1..|text| - 1]
  }

  /** The `[add]` and `[subtract]` branches: modify `default_item` by one,
      log the operation and report the new count. */
  function Adjust(st: Store, facebookId: string, operation: string, now: int): (Store, Response)
  {
    var (items', r) := ModifyItemCount(st.items, DefaultItem, operation, 1, now);
    (AppendLog(st.(items := items'), facebookId, operation, Some(DefaultItem), r.success, None, now),
     Replied(NewCount(r.message, r.newCount)))
  }

  /** A bracketed command from an authenticated sender, already lowered. */
  function Dispatch(st: Store, facebookId: string, command: string, now: int, report: ReportOutcome)
    : (r: (Store, Response))
    ensures r.1.Replied?
  {
    if command == "statistics" then
      match report
      case ReportSent =>
        (AppendLog(st, facebookId, "statistics", None, true, None, now), Replied(ReportSentReply))
      case ReportFailed(e) =>
        (AppendLog(st, facebookId, "statistics", None, false, Some(e), now), Replied(ReportError(e)))
    else if command == "add" then
      Adjust(st, facebookId, "add", now)
    else if command == "subtract" then
      Adjust(st, facebookId, "subtract", now)
    else if command == "count" then
      var count := match GetItemCount(st.items, DefaultItem) case Some(n) => n case None => 0;
      (AppendLog(st, facebookId, "count", Some(DefaultItem), true, None, now),
       Replied(CurrentCount(count)))
    else
      (AppendLog(st, facebookId, "set_item", Some(command), true, None, now),
       Replied(ItemSelected(command)))
  }

  /** A bracketed message from an unauthenticated sender: a login attempt
      with the content as both username and password. */
  function Login(st: Store, facebookId: string, content: string, now: int): (r: (Store, Response))
    ensures r.1.Raised? ==> r.1.error == UniqueFacebookIdViolation && r.0 == st
  {
    var (st', login) := AuthenticateUser(st, facebookId, content, content, now);
    match login
    case IntegrityError(e) => (st', Raised(e))
    case LoginResult(success, message) =>
      if success then (AppendLog(st', facebookId, "login", Some(content), true, None, now), Replied(LoggedIn(message)))
      else (st', Replied(AuthenticateFirst))
  }

  /** `process_command`. The only exception that escapes is the UNIQUE
      violation of a login by an unauthenticated sender, and then nothing is
      stored; every other message is answered with a reply. */
  function Interpret(st: Store, facebookId: string, messageText: string, now: int, report: ReportOutcome)
    : (r: (Store, Response))
    ensures r.1.Raised? ==> r.1.error == UniqueFacebookIdViolation && r.0 == st
  {
    var text := Strip(messageText);
    if text == "[help]" then
      (AppendLog(st, facebookId, "help", None, true, None, now), Replied(Help))
    else if IsBracketed(text) && !IsUserAuthenticated(st, facebookId, now) then
      Login(st, facebookId, Content(text), now)
    else if !IsUserAuthenticated(st, facebookId, now) then
      (st, Replied(MustAuthenticate))
    else if IsBracketed(text) then
      Dispatch(st, facebookId, Lower(Content(text)), now, report)
    else
      (AppendLog(st, facebookId, "unknown", Some(text), false, Some("Unknown command"), now), Replied(Unknown))
  }

  /** `[help]`, once surrounding whitespace is stripped, is always answered
      with the help text and logged once, whoever sends it. */
  lemma HelpAlwaysAnswered(st: Store, facebookId: string, messageText: string, now: int, report: ReportOutcome)
    requires Strip(messageText) == "[help]"
    ensures var (st', response) := Interpret(st, facebookId, messageText, now, report);
      && response == Replied(Help)
      && st'.logs == st.logs + [LogRecord(facebookId, "help", None, true, None, now)]
      && st'.users == st.users && st'.items == st.items && st'.sessions == st.sessions
  {
  }

  /** An unauthenticated sender's bracketed text is a login with the content
      as both username and password. When the credentials fail, the reply is
      the "authenticate first" prompt and nothing is stored, not even a log
      record; when they hold, the sender is bound, one session and one
      `login` record are appended, and the reply is the login message. */
  lemma UnauthenticatedLogin(st: Store, facebookId: string, messageText: string, now: int, report: ReportOutcome)
    requires !IsUserAuthenticated(st, facebookId, now)
    requires Strip(messageText) != "[help]" && IsBracketed(Strip(messageText))
    ensures var content := Content(Strip(messageText));
      var (st', response) := Interpret(st, facebookId, messageText, now, report);
      && (!ValidCredentials(st.users, content, content) ==> st' == st && response == Replied(AuthenticateFirst))
      && (ValidCredentials(st.users, content, content) && !FacebookIdTaken(st.users, facebookId, content) ==>
            && response == Replied(LoggedIn(AuthenticationSuccessful))
            && st'.sessions == st.sessions + [NewSession(facebookId, now)]
            && st'.logs == st.logs + [LogRecord(facebookId, "login", Some(content), true, None, now)]
            && st'.users[content].facebookId == facebookId
            && st'.items == st.items)
      && (ValidCredentials(st.users, content, content) && FacebookIdTaken(st.users, facebookId, content) ==>
            st' == st && response == Raised(UniqueFacebookIdViolation))
  {
    var content := Content(Strip(messageText));
    assert Interpret(st, facebookId, messageText, now, report) == Login(st, facebookId, content, now);
    LoginStores(st, facebookId, content, now);
    AuthenticateUserOutcomes(st, facebookId, content, content, now);
  }

  /** An unauthenticated sender's text that is neither `[help]` nor bracketed
      is refused and leaves no trace. */
  lemma UnauthenticatedPlainText(st: Store, facebookId: string, messageText: string, now: int, report: ReportOutcome)
    requires !IsUserAuthenticated(st, facebookId, now)
    requires Strip(messageText) != "[help]" && !IsBracketed(Strip(messageText))
    ensures Interpret(st, facebookId, messageText, now, report) == (st, Replied(MustAuthenticate))
  {
  }

  /** An authenticated sender's bracketed command appends exactly one log
      record, named after the lowered keyword (`set_item` for anything
      unrecognised); only `add` and `subtract` change `items`, and then only
      `default_item`; users and sessions are untouched. */
  lemma AuthenticatedCommand(st: Store, facebookId: string, messageText: string, now: int, report: ReportOutcome)
    requires IsUserAuthenticated(st, facebookId, now)
    requires Strip(messageText) != "[help]" && IsBracketed(Strip(messageText))
    ensures var command := Lower(Content(Strip(messageText)));
      var (st', response) := Interpret(st, facebookId, messageText, now, report);
      && response.Replied?
      && OneMoreRecord(st, st', facebookId, LoggedCommand(command))
      && (command == "statistics" ==> st'.logs[|st.logs|].success == report.ReportSent?)
      && (command != "add" && command != "subtract" ==> st'.items == st.items)
      && (command == "add" || command == "subtract" ==> OnlyKeyChanged(st.items, st'.items, DefaultItem))
  {
    var text := Strip(messageText);
    var command := Lower(Content(text));
    assert Interpret(st, facebookId, messageText, now, report) == Dispatch(st, facebookId, command, now, report);
    DispatchLogsOnce(st, facebookId, command, now, report);
  }

  /** The name a dispatched command is logged under. */
  function LoggedCommand(command: string): string
  {
    if command == "statistics" || command == "add" || command == "subtract" || command == "count" then command
    else "set_item"
  }

  /** `st'` is `st` with one more log record, by `facebookId` under
      `command`, and the same users and sessions. */
  ghost predicate OneMoreRecord(st: Store, st': Store, facebookId: string, command: string)
  {
    && st'.users == st.users && st'.sessions == st.sessions
    && |st'.logs| == |st.logs| + 1 && st'.logs[..|st.logs|] == st.logs
    && st'.logs[|st.logs|].facebookId == facebookId
    && st'.logs[|st.logs|].command == command
  }

  /** `items'` differs from `items` at most at `key`, which it holds. */
  ghost predicate OnlyKeyChanged(items: map<string, Item>, items': map<string, Item>, key: string)
  {
    && items'.Keys == items.Keys + {key}
    && forall k :: k in items && k != key ==> items'[k] == items[k]
  }

  /** What `[add]` and `[subtract]` store and reply: one record, the new
      count of `default_item` and nothing else changed, and a reply carrying
      that count. */
  lemma AdjustStores(st: Store, facebookId: string, operation: string, now: int)
    ensures var (st', response) := Adjust(st, facebookId, operation, now);
      && OneMoreRecord(st, st', facebookId, operation)
      && st'.logs[|st.logs|] == LogRecord(facebookId, operation, Some(DefaultItem), true, None, now)
      && OnlyKeyChanged(st.items, st'.items, DefaultItem)
      && st'.items[DefaultItem].count == NextCount(GetItemCount(st.items, DefaultItem), operation, 1)
      && response == Replied(NewCount("Item " + DefaultItem + " " + operation + "ed successfully",
                                      st'.items[DefaultItem].count))
  {
    var (items', r) := ModifyItemCount(st.items, DefaultItem, operation, 1, now);
    assert Adjust(st, facebookId, operation, now).0
        == AppendLog(st.(items := items'), facebookId, operation, Some(DefaultItem), r.success, None, now);
  }

  /** What one dispatched command stores. */
  lemma DispatchLogsOnce(st: Store, facebookId: string, command: string, now: int, report: ReportOutcome)
    ensures Dispatch(st, facebookId, command, now, report).1.Replied?
    ensures OneMoreRecord(st, Dispatch(st, facebookId, command, now, report).0, facebookId, LoggedCommand(command))
    ensures command == "statistics" ==>
      Dispatch(st, facebookId, command, now, report).0.logs[|st.logs|].success == report.ReportSent?
    ensures command != "add" && command != "subtract" ==> Dispatch(st, facebookId, command, now, report).0.items == st.items
    ensures LoggedCommand(command) == "set_item" ==>
      && Dispatch(st, facebookId, command, now, report).0.logs[|st.logs|]
         == LogRecord(facebookId, "set_item", Some(command), true, None, now)
      && Dispatch(st, facebookId, command, now, report).1 == Replied(ItemSelected(command))
    ensures command == "statistics" ==>
      var (st', response) := Dispatch(st, facebookId, command, now, report);
      && st'.logs == st.logs + [LogRecord(facebookId, "statistics", None, report.ReportSent?,
                                          if report.ReportSent? then None else Some(report.error), now)]
      && response == (if report.ReportSent? then Replied(ReportSentReply) else Replied(ReportError(report.error)))
    ensures command == "count" ==>
      Dispatch(st, facebookId, command, now, report).0.logs
      == st.logs + [LogRecord(facebookId, "count", Some(DefaultItem), true, None, now)]
    ensures command == "add" || command == "subtract" ==>
      OnlyKeyChanged(st.items, Dispatch(st, facebookId, command, now, report).0.items, DefaultItem)
  {
    if command == "add" || command == "subtract" {
      AdjustStores(st, facebookId, command, now);
    }
  }

  /** `[count]` (in any letter case) reports the stored count of
      `default_item`, or 0 when that item does not exist yet, and reading it
      changes no count. */
  lemma CountReportsStored(st: Store, facebookId: string, messageText: string, now: int, report: ReportOutcome)
    requires IsUserAuthenticated(st, facebookId, now)
    requires Strip(messageText) != "[help]" && IsBracketed(Strip(messageText))
    requires Lower(Content(Strip(messageText))) == "count"
    ensures Interpret(st, facebookId, messageText, now, report).1
         == Replied(CurrentCount(if DefaultItem in st.items then st.items[DefaultItem].count else 0))
    ensures Interpret(st, facebookId, messageText, now, report).0.items == st.items
  {
    InterpretDispatches(st, facebookId, messageText, now, report);
  }

  /** `[add]` adds 1 to `default_item` (creating it at 1) and `[subtract]`
      takes 1 off, never below zero (creating it at 0); either way the reply
      carries the new count, and no other item changes. */
  lemma AuthenticatedAdjust(st: Store, facebookId: string, messageText: string, now: int, report: ReportOutcome)
    requires IsUserAuthenticated(st, facebookId, now)
    requires Strip(messageText) != "[help]" && IsBracketed(Strip(messageText))
    requires Lower(Content(Strip(messageText))) == "add" || Lower(Content(Strip(messageText))) == "subtract"
    ensures var operation := Lower(Content(Strip(messageText)));
      var before := if DefaultItem in st.items then st.items[DefaultItem].count else 0;
      var (st', response) := Interpret(st, facebookId, messageText, now, report);
      && DefaultItem in st'.items
      && st'.items[DefaultItem].count == (if operation == "add" then before + 1 else if before > 0 then before - 1 else 0)
      && response == Replied(NewCount("Item " + DefaultItem + " " + operation + "ed successfully",
                                      st'.items[DefaultItem].count))
      && OnlyKeyChanged(st.items, st'.items, DefaultItem)
  {
    var operation := Lower(Content(Strip(messageText)));
    InterpretDispatches(st, facebookId, messageText, now, report);
    assert Interpret(st, facebookId, messageText, now, report) == Adjust(st, facebookId, operation, now);
    AdjustByOne(st, facebookId, operation, now);
  }

  /** `Adjust` with the counts written out: one up for `add`, one down but
      not below zero for `subtract`, starting from 0 for a missing item. */
  lemma AdjustByOne(st: Store, facebookId: string, operation: string, now: int)
    requires operation == "add" || operation == "subtract"
    ensures var before := if DefaultItem in st.items then st.items[DefaultItem].count else 0;
      var (st', response) := Adjust(st, facebookId, operation, now);
      && DefaultItem in st'.items
      && st'.items[DefaultItem].count == (if operation == "add" then before + 1 else if before > 0 then before - 1 else 0)
      && response == Replied(NewCount("Item " + DefaultItem + " " + operation + "ed successfully",
                                      st'.items[DefaultItem].count))
      && OnlyKeyChanged(st.items, st'.items, DefaultItem)
  {
    AdjustStores(st, facebookId, operation, now);
  }

  /** An authenticated sender's bracketed command goes to `Dispatch`, lowered. */
  lemma InterpretDispatches(st: Store, facebookId: string, messageText: string, now: int, report: ReportOutcome)
    requires IsUserAuthenticated(st, facebookId, now)
    requires Strip(messageText) != "[help]" && IsBracketed(Strip(messageText))
    ensures Interpret(st, facebookId, messageText, now, report)
         == Dispatch(st, facebookId, Lower(Content(Strip(messageText))), now, report)
  {
  }

  /** An authenticated sender's text that is not bracketed logs one failed
      `unknown` record carrying the stripped text. */
  lemma AuthenticatedPlainText(st: Store, facebookId: string, messageText: string, now: int, report: ReportOutcome)
    requires IsUserAuthenticated(st, facebookId, now)
    requires Strip(messageText) != "[help]" && !IsBracketed(Strip(messageText))
    ensures var (st', response) := Interpret(st, facebookId, messageText, now, report);
      && response == Replied(Unknown)
      && st'.logs == st.logs + [LogRecord(facebookId, "unknown", Some(Strip(messageText)), false, Some("Unknown command"), now)]
      && st'.users == st.users && st'.items == st.items && st'.sessions == st.sessions
  {
  }

  /** What a login attempt stores: nothing unless it succeeds, and then the
      rebound user, one session and one `login` record. */
  lemma LoginStores(st: Store, facebookId: string, content: string, now: int)
    ensures var (st', response) := Login(st, facebookId, content, now);
      && st'.items == st.items
      && (!ValidCredentials(st.users, content, content) ==> st' == st && response == Replied(AuthenticateFirst))
      && (ValidCredentials(st.users, content, content) && FacebookIdTaken(st.users, facebookId, content) ==>
            st' == st && response == Raised(UniqueFacebookIdViolation))
      && (ValidCredentials(st.users, content, content) && !FacebookIdTaken(st.users, facebookId, content) ==>
            && response == Replied(LoggedIn(AuthenticationSuccessful))
            && st'.sessions == st.sessions + [NewSession(facebookId, now)]
            && st'.logs == st.logs + [LogRecord(facebookId, "login", Some(content), true, None, now)]
            && st'.users == AuthenticateUser(st, facebookId, content, content, now).0.users)
  {
    AuthenticateUserOutcomes(st, facebookId, content, content, now);
  }

  /** From `st` to `st'` the log and the session ledger grew by at most one
      row each and kept their old rows, no user was added or removed, and no
      item was removed. */
  ghost predicate AppendsOnly(st: Store, st': Store)
  {
    && |st.logs| <= |st'.logs| <= |st.logs| + 1 && st'.logs[..|st.logs|] == st.logs
    && |st.sessions| <= |st'.sessions| <= |st.sessions| + 1 && st'.sessions[..|st.sessions|] == st.sessions
    && st'.users.Keys == st.users.Keys && st.items.Keys <= st'.items.Keys
  }

  /** Every message leaves the log and the session ledger append-only, adds
      at most one record to each, never removes a user or an item, and keeps
      sender ids unique. */
  lemma InterpretAppendsOnly(st: Store, facebookId: string, messageText: string, now: int, report: ReportOutcome)
    requires UniqueFacebookIds(st.users)
    ensures AppendsOnly(st, Interpret(st, facebookId, messageText, now, report).0)
    ensures UniqueFacebookIds(Interpret(st, facebookId, messageText, now, report).0.users)
  {
    var text := Strip(messageText);
    if text != "[help]" && IsBracketed(text) && !IsUserAuthenticated(st, facebookId, now) {
      assert Interpret(st, facebookId, messageText, now, report) == Login(st, facebookId, Content(text), now);
      LoginAppendsOnly(st, facebookId, Content(text), now);
    } else if text != "[help]" && IsUserAuthenticated(st, facebookId, now) && IsBracketed(text) {
      InterpretDispatches(st, facebookId, messageText, now, report);
      DispatchLogsOnce(st, facebookId, Lower(Content(text)), now, report);
    }
  }

  /** A login attempt appends at most one session and one record and keeps
      sender ids unique. */
  lemma LoginAppendsOnly(st: Store, facebookId: string, content: string, now: int)
    requires UniqueFacebookIds(st.users)
    ensures AppendsOnly(st, Login(st, facebookId, content, now).0)
    ensures UniqueFacebookIds(Login(st, facebookId, content, now).0.users)
  {
    LoginStores(st, facebookId, content, now);
    AuthenticateUserOutcomes(st, facebookId, content, content, now);
    AuthenticateUserKeepsUnique(st, facebookId, content, content, now);
  }

  /** No user's password equals their own username, so a single bracketed
      token, used as both, can never log anyone in. */
  ghost predicate NoSelfPasswords(users: map<string, User>)
  {
    forall u :: u in users ==> !CheckPasswordHash(users[u].passwordHash, u)
  }

  /** Under NoSelfPasswords no message changes the users or the sessions. */
  lemma {:induction false} NoSelfPasswordsNoLogin(st: Store, facebookId: string, messageText: string, now: int, report: ReportOutcome)
    requires NoSelfPasswords(st.users)
    ensures var st' := Interpret(st, facebookId, messageText, now, report).0;
      st'.users == st.users && st'.sessions == st.sessions
  {
    var text := Strip(messageText);
    if text == "[help]" {
    } else if IsBracketed(text) && !IsUserAuthenticated(st, facebookId, now) {
      var content := Content(text);
      assert !ValidCredentials(st.users, content, content) by {
        if content in st.users {
          assert !CheckPasswordHash(st.users[content].passwordHash, content);
        }
      }
      assert Interpret(st, facebookId, messageText, now, report) == Login(st, facebookId, content, now);
      LoginStores(st, facebookId, content, now);
    } else if !IsUserAuthenticated(st, facebookId, now) {
    } else if IsBracketed(text) {
      assert Interpret(st, facebookId, messageText, now, report)
          == Dispatch(st, facebookId, Lower(Content(text)), now, report);
      DispatchLogsOnce(st, facebookId, Lower(Content(text)), now, report);
    }
  }

  /** One message as the webhook hands it to `process_command`, with the
      clock reading and the report outcome it meets. */
  datatype Inbound = Inbound(facebookId: string, text: string, now: int, report: ReportOutcome)

  /** The store after processing `inbox` in order. */
  ghost function Replay(st: Store, inbox: seq<Inbound>): Store
  {
    if inbox == [] then st
    else
      var m := inbox[|inbox| - 1];
      Interpret(Replay(st, inbox[..|inbox| - 1]), m.facebookId, m.text, m.now, m.report).0
  }

  /** With only the seeded administrator (password admin123), no sequence of
      messages ever logs anyone in: the users and sessions stay as seeded, so
      no sender is ever authenticated. */
  lemma {:induction false} SeededBotNeverAuthenticates(inbox: seq<Inbound>)
    ensures Replay(SeededStore(), inbox).users == SeededStore().users
    ensures Replay(SeededStore(), inbox).sessions == []
    ensures forall facebookId, now :: !IsUserAuthenticated(Replay(SeededStore(), inbox), facebookId, now)
  {
    if inbox != [] {
      var m := inbox[|inbox| - 1];
      SeededBotNeverAuthenticates(inbox[..|inbox| - 1]);
      var before := Replay(SeededStore(), inbox[..|inbox| - 1]);
      assert NoSelfPasswords(before.users) by {
        assert before.users.Keys == {AdminUsername};
        assert !CheckPasswordHash(before.users[AdminUsername].passwordHash, AdminUsername);
      }
      NoSelfPasswordsNoLogin(before, m.facebookId, m.text, m.now, m.report);
    }
  }
}
