/**
 * The admin guard of middlewares/auth.py: the allow-list parser `get_authorized_users`
 * and the gate `AdminMiddleware.__call__`, which decides whether the wrapped handler runs.
 */
module Auth {
  import opened Wrappers
  import opened Text

  /** The file .auth at the moment it is read: absent, raising on read, or its lines. */
  datatype AuthFile = Missing | Unreadable | Lines(lines: seq<string>)

  /** A line counts when its stripped form is a non-empty run of digits. */
  predicate IsIdLine(line: string) {
    IsDigits(Strip(line))
  }

  /** The id an id line holds: `int(line.strip())`. */
  function LineId(line: string): int
    requires IsIdLine(line)
  {
    DigitsValue(Strip(line)) as int
  }

  /** `get_authorized_users()`: `{int(l.strip()) for l in f if l.strip().isdigit()}`, and the
      empty set when the file is missing or cannot be read. No id it yields is negative. */
  function AuthorizedUsers(file: AuthFile): (users: set<int>)
    ensures forall u :: u in users ==> u >= 0
  {
    match file
    case Lines(lines) => set l | l in lines && IsIdLine(l) :: LineId(l)
    case _ => {}
  }

  /** The allowed ids are exactly the values of the digit lines. */
  lemma AuthorizedExactly(lines: seq<string>, u: int)
    ensures u in AuthorizedUsers(Lines(lines)) <==>
      exists l :: l in lines && IsIdLine(l) && LineId(l) == u
  {
  }

  /** A missing or unreadable file allows nobody. */
  lemma NoFileAllowsNobody(file: AuthFile)
    requires !file.Lines?
    ensures AuthorizedUsers(file) == {}
  {
  }

  /** A line holding the decimal form of `n`, with any surrounding whitespace, allows `n`. */
  lemma DecimalLineAllows(lines: seq<string>, line: string, n: nat)
    requires line in lines && Strip(line) == NatToString(n)
    ensures n in AuthorizedUsers(Lines(lines))
  {
    DigitsValueOfNatToString(n);
  }

  /** A line whose stripped form is not all digits — a signed id such as "-5" or "+5", a
      comment, a blank line — allows nobody: adding it changes nothing. */
  lemma NonDigitLineIgnored(lines: seq<string>, line: string)
    requires !IsDigits(Strip(line))
    ensures AuthorizedUsers(Lines(lines + [line])) == AuthorizedUsers(Lines(lines))
  {
    forall u ensures u in AuthorizedUsers(Lines(lines + [line])) <==> u in AuthorizedUsers(Lines(lines)) {
      NonDigitLineAllowsNobody(lines, line, u);
    }
  }

  lemma NonDigitLineAllowsNobody(lines: seq<string>, line: string, u: int)
    requires !IsIdLine(line)
    ensures u in AuthorizedUsers(Lines(lines + [line])) <==> u in AuthorizedUsers(Lines(lines))
  {
    var with := lines + [line];
    if u in AuthorizedUsers(Lines(with)) {
      var l :| l in with && IsIdLine(l) && LineId(l) == u;
      assert l in lines;
    }
    if u in AuthorizedUsers(Lines(lines)) {
      var l :| l in lines && IsIdLine(l) && LineId(l) == u;
      assert l in with;
    }
  }

  /** The event the middleware wraps: a message (with its sender's id, if it has a sender)
      or any other kind of update. */
  datatype Event = MessageEvent(fromUser: Option<int>, text: Option<string>) | OtherEvent

  /** What the middleware does besides returning: run the handler, or answer the message. */
  datatype GateCall = CallHandler(event: Event) | AnswerMessage(text: string)

  const Refusal := "You are not authorized to use this command."

  /** The handler runs for every non-message event, for messages without a sender, and for
      senders in the allow-list as read now. */
  predicate Admits(file: AuthFile, event: Event) {
    !event.MessageEvent? || event.fromUser.None? || event.fromUser.value in AuthorizedUsers(file)
  }

  /** `AdminMiddleware.__call__`. `file` is the allow-list as it stands when this call reads
      it; the middleware keeps nothing between calls. Returns the handler's result, or None
      when the sender is refused. */
  method AdminGate<R>(file: AuthFile, event: Event, handler: Event -> R)
    returns (result: Option<R>, calls: seq<GateCall>)
    ensures Admits(file, event) ==> calls == [CallHandler(event)] && result == Some(handler(event))
    ensures !Admits(file, event) ==> calls == [AnswerMessage(Refusal)] && result == None
    ensures event.MessageEvent? && event.fromUser.Some? && event.fromUser.value < 0 ==> !Admits(file, event)
  {
    if !event.MessageEvent? {
      return Some(handler(event)), [CallHandler(event)];
    }
    var user := event.fromUser;
    if user.None? {
      return Some(handler(event)), [CallHandler(event)];
    }
    var authorized := AuthorizedUsers(file);
    if user.value !in authorized {
      return None, [AnswerMessage(Refusal)];
    }
    return Some(handler(event)), [CallHandler(event)];
  }

  /** The allow-list with every line that allows `u` deleted. */
  function WithoutUser(lines: seq<string>, u: int): (kept: seq<string>)
    ensures forall l :: l in kept ==> l in lines && !(IsIdLine(l) && LineId(l) == u)
  {
    if lines == [] then []
    else
      var rest := WithoutUser(lines[1..], u);
      if IsIdLine(lines[0]) && LineId(lines[0]) == u then rest else [lines[0]] + rest
  }

  /** The decision follows the file as read at each call: once the lines that allow a user
      are deleted from the file, that user's next message is refused, with no restart. */
  lemma RevocationTakesEffect(lines: seq<string>, u: int, text: Option<string>)
    requires u in AuthorizedUsers(Lines(lines))
    ensures Admits(Lines(lines), MessageEvent(Some(u), text))
    ensures !Admits(Lines(WithoutUser(lines, u)), MessageEvent(Some(u), text))
  {
  }
}
