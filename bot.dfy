/** `FacebookMessengerBot`: the bot object whose methods read and update the
    four tables in place. Each method's postcondition ties the new tables to
    the pure definitions in Store, Counters, Sessions and Interpreter, whose
    lemmas state what the source promises. */
module Bot {
  import opened Store
  import opened Text
  import opened Counters
  import opened Sessions
  import opened Interpreter

  class FacebookMessengerBot {
    var users: map<string, User>
    var items: map<string, Item>
    var logs: seq<LogRecord>
    var sessions: seq<Session>

    /** The database as a value. */
    function State(): Store
      reads this
    {
      Store(users, items, logs, sessions)
    }

    /** The UNIQUE constraint on `facebook_id`, which every method keeps. */
    ghost predicate Valid()
      reads this
    {
      UniqueFacebookIds(users)
    }

    /** `__init__` on a database file that does not exist yet: the tables are
        created empty and `init_database` seeds the administrator. */
    constructor ()
      ensures Valid()
      ensures State() == SeededStore()
    {
      users := map[];
      items := map[];
      logs := [];
      sessions := [];
      new;
      var failure := InitDatabase();
    }

    /** `init_database` on an existing database: insert the administrator
        unless a user named admin exists. The INSERT fails, and nothing
        changes, when another user already carries the administrator's
        sender id. */
    method InitDatabase() returns (failure: Option<string>)
      modifies this
      ensures failure.None? <==> SeedAdmin(old(State())).Some?
      ensures failure.None? ==> State() == SeedAdmin(old(State())).value
      ensures failure.Some? ==> State() == old(State()) && failure.value == UniqueFacebookIdViolation
      ensures old(Valid()) ==> Valid()
    {
      if AdminUsername !in users {
        if FacebookIdTaken(users, AdminFacebookId, AdminUsername) {
          return Some(UniqueFacebookIdViolation);
        }
        users := users[AdminUsername := User(AdminFacebookId, GeneratePasswordHash(AdminPassword), None)];
      }
      failure := None;
    }

    /** `log_command`: append one record to `command_logs`. */
    method LogCommand(facebookId: string, command: string, parameters: Option<string>,
                      success: bool, errorMessage: Option<string>, now: int)
      modifies this
      ensures State() == AppendLog(old(State()), facebookId, command, parameters, success, errorMessage, now)
    {
      logs := logs + [LogRecord(facebookId, command, parameters, success, errorMessage, now)];
    }

    /** `authenticate_user`: check the credentials, rebind the user to the
        sender and open a 24-hour session. */
    method AuthenticateUser(facebookId: string, username: string, password: string, now: int)
      returns (result: LoginResult)
      modifies this
      ensures (State(), result) == Sessions.AuthenticateUser(old(State()), facebookId, username, password, now)
      ensures old(Valid()) ==> Valid()
    {
      if Valid() {
        AuthenticateUserKeepsUnique(State(), facebookId, username, password, now);
      }
      if !(username in users && CheckPasswordHash(users[username].passwordHash, password)) {
        return LoginResult(false, InvalidCredentials);
      }
      if FacebookIdTaken(users, facebookId, username) {
        return IntegrityError(UniqueFacebookIdViolation);
      }
      users := users[username := users[username].(facebookId := facebookId, lastLogin := Some(now))];
      sessions := sessions + [Session(facebookId, SessionToken(facebookId, now), now + SessionDuration, now)];
      result := LoginResult(true, AuthenticationSuccessful);
    }

    /** `modify_item_count`: create the item on first touch, otherwise add to
        or floor-subtract from its count. */
    method ModifyItemCount(itemId: string, operation: string, amount: nat, now: int)
      returns (result: ModifyResult)
      modifies this
      ensures (items, result) == Counters.ModifyItemCount(old(items), itemId, operation, amount, now)
      ensures users == old(users) && logs == old(logs) && sessions == old(sessions)
    {
      var newCount: nat;
      if itemId !in items {
        newCount := if operation == "add" then 1 else 0;
        items := items[itemId := Item(itemId, newCount, now, now)];
      } else {
        var currentCount := items[itemId].count;
        if operation == "add" {
          newCount := currentCount + amount;
        } else {
          newCount := if currentCount - amount < 0 then 0 else currentCount - amount;
        }
        items := items[itemId := items[itemId].(count := newCount, updatedAt := now)];
      }
      result := ModifyResult(true, "Item " + itemId + " " + operation + "ed successfully", newCount);
    }

    /** `process_command`: answer one message, updating the tables as the
        branch taken requires. */
    method ProcessCommand(facebookId: string, messageText: string, now: int, report: ReportOutcome)
      returns (response: Response)
      requires Valid()
      modifies this
      ensures Valid()
      ensures (State(), response) == Interpret(old(State()), facebookId, messageText, now, report)
    {
      InterpretAppendsOnly(State(), facebookId, messageText, now, report);
      var text := Strip(messageText);
      if text == "[help]" {
        LogCommand(facebookId, "help", None, true, None, now);
        return Replied(Help);
      }
      if IsBracketed(text) {
        var content := text[1..|text| - 1];
        if !IsUserAuthenticated(State(), facebookId, now) {
          assert Interpret(old(State()), facebookId, messageText, now, report) == Login(old(State()), facebookId, content, now);
          var login := AuthenticateUser(facebookId, content, content, now);
          match login {
            case IntegrityError(e) =>
              return Raised(e);
            case LoginResult(success, message) =>
              if success {
                LogCommand(facebookId, "login", Some(content), true, None, now);
                return Replied(LoggedIn(message));
              }
              return Replied(AuthenticateFirst);
          }
        }
      }
      if !IsUserAuthenticated(State(), facebookId, now) {
        return Replied(MustAuthenticate);
      }
      if IsBracketed(text) {
        var command := Lower(text[1..|text| - 1]);
        assert Interpret(old(State()), facebookId, messageText, now, report)
            == Dispatch(old(State()), facebookId, command, now, report);
        if command == "statistics" {
          match report {
            case ReportSent =>
              LogCommand(facebookId, "statistics", None, true, None, now);
              return Replied(ReportSentReply);
            case ReportFailed(e) =>
              LogCommand(facebookId, "statistics", None, false, Some(e), now);
              return Replied(ReportError(e));
          }
        } else if command == "add" {
          var r := ModifyItemCount(DefaultItem, "add", 1, now);
          LogCommand(facebookId, "add", Some(DefaultItem), r.success, None, now);
          return Replied(NewCount(r.message, r.newCount));
        } else if command == "subtract" {
          var r := ModifyItemCount(DefaultItem, "subtract", 1, now);
          LogCommand(facebookId, "subtract", Some(DefaultItem), r.success, None, now);
          return Replied(NewCount(r.message, r.newCount));
        } else if command == "count" {
          var stored := GetItemCount(items, DefaultItem);
          var count := if stored.Some? then stored.value else 0;
          LogCommand(facebookId, "count", Some(DefaultItem), true, None, now);
          return Replied(CurrentCount(count));
        } else {
          LogCommand(facebookId, "set_item", Some(command), true, None, now);
          return Replied(ItemSelected(command));
        }
      }
      LogCommand(facebookId, "unknown", Some(text), false, Some("Unknown command"), now);
      return Replied(Unknown);
    }
  }
}
