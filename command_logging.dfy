/**
 * The command-logging middleware of middlewares/command_logging.py: for a message whose
 * text starts with "/", it collects the sender's and the chat's details, runs the handler,
 * and then hands one entry to the command logger. The logger's timestamp prefix and the
 * clock readings are outside the model; the formatted duration is a parameter.
 */
module CommandLogging {
  import opened Wrappers
  import opened Text

  datatype User = User(id: int, username: Option<string>, firstName: string,
                       lastName: Option<string>, languageCode: Option<string>)

  datatype ChatInfo = ChatInfo(id: int, kind: string, title: Option<string>)

  datatype Message = Message(messageId: int, text: Option<string>, fromUser: Option<User>, chat: ChatInfo)

  /** How a handler call ends: with a value, or by raising. */
  datatype Outcome<R> = Returned(value: R) | Raised(error: string)

  /** What reading `user.id` on a message without a sender raises. */
  const NoSender := "AttributeError: 'NoneType' object has no attribute 'id'"

  /** Python truthiness of an optional string: present and not empty. */
  predicate Truthy(s: Option<string>) {
    s.Some? && s.value != ""
  }

  /** `value or 'N/A'`. */
  function OrNA(s: Option<string>): string {
    if Truthy(s) then s.value else "N/A"
  }

  /** aiogram's `User.full_name`: the first name, then the last name when there is one. */
  function FullName(u: User): string {
    if Truthy(u.lastName) then u.firstName + " " + u.lastName.value else u.firstName
  }

  function UserInfo(u: User): string {
    "ID: " + IntToString(u.id) + ", @" + OrNA(u.username) + ", Name: " + FullName(u)
    + ", Lang: " + OrNA(u.languageCode)
  }

  function ChatLine(c: ChatInfo): string {
    "ID: " + IntToString(c.id) + ", Type: " + c.kind + (if Truthy(c.title) then ", Title: " + c.title.value else "")
  }

  /** `event.text and event.text.startswith("/")`. */
  predicate IsCommand(text: Option<string>) {
    text.Some? && |text.value| > 0 && text.value[0] == '/'
  }

  /** The entry logged for a command: it carries the chat details, the message id and the
      full message text. */
  function LogEntry(version: string, m: Message, u: User, text: string, duration: string): (line: string)
    ensures Contains(line, text)
    ensures Contains(line, "[MsgID: " + IntToString(m.messageId) + "]")
    ensures Contains(line, "[" + ChatLine(m.chat) + "]")
  {
    var head := "[v" + version + "] ";
    var chat := "[" + ChatLine(m.chat) + "]";
    var id := "[MsgID: " + IntToString(m.messageId) + "]";
    var who := " User [" + UserInfo(u) + "] executed: ";
    var tail := " [Duration: " + duration + "ms]";
    var line := head + chat + " " + id + who + text + tail;
    ContainsEnd(head, chat);
    ContainsAppend(head + chat, chat, " ");
    ContainsAppend(head + chat + " ", chat, id);
    ContainsAppend(head + chat + " " + id, chat, who);
    ContainsAppend(head + chat + " " + id + who, chat, text);
    ContainsAppend(head + chat + " " + id + who + text, chat, tail);
    ContainsEnd(head + chat + " ", id);
    ContainsAppend(head + chat + " " + id, id, who);
    ContainsAppend(head + chat + " " + id + who, id, text);
    ContainsAppend(head + chat + " " + id + who + text, id, tail);
    ContainsEnd(head + chat + " " + id + who, text);
    ContainsAppend(head + chat + " " + id + who + text, text, tail);
    line
  }

  /** A missing username or language shows as "N/A"; a chat without a title shows no title part. */
  lemma FieldFallbacks(u: User, c: ChatInfo)
    ensures !Truthy(u.username) ==> Contains(UserInfo(u), "@N/A")
    ensures !Truthy(u.languageCode) ==> Contains(UserInfo(u), "Lang: N/A")
    ensures !Truthy(c.title) ==> ChatLine(c) == "ID: " + IntToString(c.id) + ", Type: " + c.kind
    ensures Truthy(c.title) ==> Contains(ChatLine(c), ", Title: " + c.title.value)
  {
    var idPart := "ID: " + IntToString(u.id) + ", ";
    var langPart := ", Lang: " + OrNA(u.languageCode);
    if !Truthy(u.username) {
      assert UserInfo(u) == idPart + "@N/A" + (", Name: " + FullName(u) + langPart);
      ContainsMiddle(idPart, "@N/A", ", Name: " + FullName(u) + langPart);
    }
    if !Truthy(u.languageCode) {
      var front := "ID: " + IntToString(u.id) + ", @" + OrNA(u.username) + ", Name: " + FullName(u) + ", ";
      assert UserInfo(u) == front + "Lang: N/A" + "";
      ContainsMiddle(front, "Lang: N/A", "");
    }
    if Truthy(c.title) {
      ContainsEnd("ID: " + IntToString(c.id) + ", Type: " + c.kind, ", Title: " + c.title.value);
    }
  }

  /** The middleware with the logger it writes to. */
  class CommandLoggingMiddleware {
    /** The bot's version, BOT_VERSION, printed at the head of every entry. */
    const version: string
    /** The entries handed to the command logger, oldest first. */
    var log: seq<string>

    constructor (version: string)
      ensures this.version == version && log == []
    {
      this.version := version;
      log := [];
    }

    /** `CommandLoggingMiddleware.__call__`. `invoked` lists the handler calls made, and
        `duration` is the elapsed time as it would be printed. A non-command goes straight to
        the handler. A command from a sender runs the handler once and, only when it returns,
        appends one entry; a raising handler's exception passes through with nothing logged.
        A command without a sender raises on `user.id` before the handler runs. */
    method Call<R>(handler: Message -> Outcome<R>, event: Message, duration: string)
      returns (outcome: Outcome<R>, invoked: seq<Message>)
      modifies this
      ensures !IsCommand(event.text) ==> invoked == [event] && outcome == handler(event) && log == old(log)
      ensures IsCommand(event.text) && event.fromUser.None? ==>
        invoked == [] && outcome == Raised(NoSender) && log == old(log)
      ensures IsCommand(event.text) && event.fromUser.Some? ==>
        invoked == [event] && outcome == handler(event)
        && log == old(log) + (if outcome.Returned?
                              then [LogEntry(version, event, event.fromUser.value, event.text.value, duration)]
                              else [])
    {
      var isCommand := IsCommand(event.text);
      if !isCommand {
        outcome := handler(event);
        invoked := [event];
        return;
      }
      if event.fromUser.None? {
        outcome := Raised(NoSender);
        invoked := [];
        return;
      }
      var user := event.fromUser.value;
      outcome := handler(event);
      invoked := [event];
      if outcome.Raised? {
        return;
      }
      var entry := LogEntry(version, event, user, event.text.value, duration);
      log := log + [entry];
    }
  }
}
