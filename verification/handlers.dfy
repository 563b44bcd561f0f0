/**
  The three event handlers (`handle_received_message`,
  `handle_edited_message`, `handle_deleted_message`) as transitions of the
  monitor state.  Each handler's critical section is one atomic step; it
  returns the new state and what it asks the log sink to write.

  The wall clock is the parameter `now` (whole seconds); the allow-list of
  chat ids is the parameter `allow`.
 */
module Handlers {
  import opened Base
  import opened Text
  import opened History
  import Logger

  /** The action a record reports; `Name` is the string handed to the log
      sink. */
  datatype Action = Deleted | Received | Edited {
    function Name(): string {
      match this
      case Deleted => "deleted"
      case Received => "received"
      case Edited => "edited"
    }
  }

  /** The arguments of one `log_message` call. */
  datatype Record = Record(action: Action, chatId: Option<int>, chatTitle: string, messageId: int,
                           time: int, sender: Option<string>, text: Option<string>,
                           oldText: Option<string>, newText: Option<string>)

  /** What a handler asks of the log sink: nothing, one message record, or
      (after an exception inside the handler) one error record naming it. */
  datatype Output = Silent | Logged(record: Record) | Failed(handler: string)

  /** The outcome of handling one event. */
  datatype Step = Step(state: Monitor, out: Output)

  /** A sender's `first_name`: the attribute may be missing (a channel),
      present but `None`, or a string. */
  datatype FirstName = NoFirstName | NullFirstName | FirstName(name: string)

  /** The message author as the transport describes it.  A missing or
      `None` username and last name are both `None` here. */
  datatype Sender = Sender(username: Option<string>, firstName: FirstName, lastName: Option<string>)

  /** A new message; `text` is `None` when the message has no text
      attribute, `chatTitle` is `None` when the chat has no title. */
  datatype NewMessage = NewMessage(chatId: int, chatTitle: Option<string>, messageId: int,
                                   text: Option<string>, sender: Option<Sender>)

  /** An edit of an earlier message, carrying only the new text. */
  datatype EditedMessage = EditedMessage(chatId: int, chatTitle: Option<string>, messageId: int,
                                         text: Option<string>)

  /** A deletion; it carries no text, and outside channels not even a chat
      id. */
  datatype DeletedMessage = DeletedMessage(chatId: Option<int>, chatTitle: Option<string>, deletedId: int)

  /** The title used for a chat without one. */
  const PrivateChat: string := "Private Chat"

  /** The text used for a message without a text attribute. */
  const NoTextContent: string := "No text content"

  function TitleOf(title: Option<string>): string {
    title.GetOr(PrivateChat)
  }

  function TextOf(text: Option<string>): string {
    text.GetOr(NoTextContent)
  }

  /** The allow-list filter: an empty list admits every chat, a non-empty
      one only the chats it names (a missing chat id is never named). */
  predicate Admitted(allow: seq<int>, chatId: Option<int>) {
    |allow| == 0 || (chatId.Some? && chatId.value in allow)
  }

  /** The sender who stored with a new message: the username if truthy,
      else the first name followed by " " and the last name when that is
      truthy, else nothing.  Appending a last name to a `None` first name
      raises `TypeError`. */
  function SenderLabel(sender: Option<Sender>): (r: Result<Option<string>>)
    ensures r.Raised? <==>
              && sender.Some? && !Truthy(sender.value.username)
              && sender.value.firstName == NullFirstName && Truthy(sender.value.lastName)
    ensures sender.None? ==> r == Ok(None)
    ensures sender.Some? && Truthy(sender.value.username) ==> r == Ok(sender.value.username)
    ensures r.Ok? && r.value.Some? && sender.Some? && !Truthy(sender.value.username) ==>
              && sender.value.firstName.FirstName?
              && var first := sender.value.firstName.name;
                 && |r.value.value| >= |first| && r.value.value[..|first|] == first
                 && r.value.value[|first|..] ==
                      (if Truthy(sender.value.lastName) then " " + sender.value.lastName.value else "")
    ensures r.Ok? && r.value.None? ==>
              sender.None? || (!Truthy(sender.value.username) && !sender.value.firstName.FirstName?)
  {
    match sender
    case None => Ok(None)
    case Some(s) =>
      if Truthy(s.username) then Ok(s.username)
      else
        match s.firstName
        case NoFirstName => Ok(None)
        case NullFirstName =>
          if Truthy(s.lastName) then Raised("TypeError") else Ok(None)
        case FirstName(f) =>
          Ok(Some(if Truthy(s.lastName) then f + " " + s.lastName.value else f))
  }

  /** `handle_received_message`: sweep, then store the message (replacing
      any earlier entry under the same id) and report it. */
  function HandleReceived(m: Monitor, allow: seq<int>, ev: NewMessage, now: int): (r: Step)
    ensures !Admitted(allow, Some(ev.chatId)) ==> r == Step(m, Silent)
    ensures Admitted(allow, Some(ev.chatId)) && SenderLabel(ev.sender).Raised? ==>
              r == Step(m, Failed("handle_received_message"))
    ensures Admitted(allow, Some(ev.chatId)) && SenderLabel(ev.sender).Ok? ==>
              var who := SenderLabel(ev.sender).value;
              && ev.messageId in r.state.history
              && r.state.history[ev.messageId] == Current(Some(now), TextOf(ev.text), who)
              && r.state.lastSweep == Sweep(m, now).lastSweep
              && (forall id :: id in r.state.history && id != ev.messageId ==>
                    id in m.history && r.state.history[id] == m.history[id] && id in Sweep(m, now).history)
              && (forall id :: id in Sweep(m, now).history ==> id in r.state.history)
              && r.out == Logged(Record(Received, Some(ev.chatId), TitleOf(ev.chatTitle), ev.messageId,
                                        now, who, Some(TextOf(ev.text)), None, None))
  {
    if !Admitted(allow, Some(ev.chatId)) then Step(m, Silent)
    else
      match SenderLabel(ev.sender)
      case Raised(reason) => Step(m, Failed("handle_received_message"))
      case Ok(who) =>
        var swept := Sweep(m, now);
        var text := TextOf(ev.text);
        var entry := Current(Some(now), text, who);
        Step(swept.(history := swept.history[ev.messageId := entry]),
             Logged(Record(Received, Some(ev.chatId), TitleOf(ev.chatTitle), ev.messageId,
                           now, who, Some(text), None, None)))
  }

  /** `handle_edited_message`: an edit of a cached message whose text really
      changed replaces the entry (new time, new text, same sender) and
      reports the prior and the new text; anything else changes nothing. */
  function HandleEdited(m: Monitor, allow: seq<int>, ev: EditedMessage, now: int): (r: Step)
    ensures !Admitted(allow, Some(ev.chatId)) ==> r == Step(m, Silent)
    ensures ev.messageId !in m.history ==> r == Step(m, Silent)
    ensures ev.messageId in m.history && m.history[ev.messageId].text == TextOf(ev.text) ==>
              r == Step(m, Silent)
    ensures r.out.Logged? <==>
              && Admitted(allow, Some(ev.chatId)) && ev.messageId in m.history
              && m.history[ev.messageId].text != TextOf(ev.text)
    ensures r.out.Logged? ==>
              var prior := m.history[ev.messageId];
              && r.state.lastSweep == m.lastSweep
              && r.state.history.Keys == m.history.Keys
              && r.state.history[ev.messageId] == Current(Some(now), TextOf(ev.text), prior.Label())
              && (forall id :: id in m.history && id != ev.messageId ==> r.state.history[id] == m.history[id])
              && r.out == Logged(Record(Edited, Some(ev.chatId), TitleOf(ev.chatTitle), ev.messageId, now,
                                        prior.Label(), None, Some(prior.text), Some(TextOf(ev.text))))
    ensures r.out.Silent? || r.out.Logged?
  {
    if !Admitted(allow, Some(ev.chatId)) then Step(m, Silent)
    else if ev.messageId !in m.history then Step(m, Silent)
    else
      var prior := m.history[ev.messageId];
      var text := TextOf(ev.text);
      if prior.text == text then Step(m, Silent)
      else
        Step(m.(history := m.history[ev.messageId := Current(Some(now), text, prior.Label())]),
             Logged(Record(Edited, Some(ev.chatId), TitleOf(ev.chatTitle), ev.messageId,
                           now, prior.Label(), None, Some(prior.text), Some(text))))
  }

  /** `handle_deleted_message`: a deletion of a cached message removes the
      entry and reports the text and sender it had; a deletion of an unknown
      id changes nothing. */
  function HandleDeleted(m: Monitor, allow: seq<int>, ev: DeletedMessage, now: int): (r: Step)
    ensures !Admitted(allow, ev.chatId) ==> r == Step(m, Silent)
    ensures ev.deletedId !in m.history ==> r == Step(m, Silent)
    ensures r.out.Logged? <==> Admitted(allow, ev.chatId) && ev.deletedId in m.history
    ensures r.out.Logged? ==>
              var prior := m.history[ev.deletedId];
              && r.state.lastSweep == m.lastSweep
              && r.state.history.Keys == m.history.Keys - {ev.deletedId}
              && (forall id :: id in r.state.history ==> r.state.history[id] == m.history[id])
              && r.out == Logged(Record(Deleted, ev.chatId, TitleOf(ev.chatTitle), ev.deletedId, now,
                                        prior.Label(), Some(prior.text), None, None))
    ensures r.out.Silent? || r.out.Logged?
  {
    if !Admitted(allow, ev.chatId) then Step(m, Silent)
    else if ev.deletedId !in m.history then Step(m, Silent)
    else
      var prior := m.history[ev.deletedId];
      Step(m.(history := m.history - {ev.deletedId}),
           Logged(Record(Deleted, ev.chatId, TitleOf(ev.chatTitle), ev.deletedId,
                         now, prior.Label(), Some(prior.text), None, None)))
  }

  /** The write a record turns into, given the log directory and the
      rendering of its time (`strftime`, outside this model). */
  function WriteOf(rec: Record, logDir: string, stamp: string): Option<Logger.LogWrite> {
    Logger.LogMessage(logDir, rec.action.Name(), rec.chatId, rec.chatTitle, rec.messageId,
                      stamp, rec.sender, rec.text, rec.oldText, rec.newText)
  }

  /** Every record a handler emits names a known action, so it always
      reaches `<chat>_<action>_messages.log`. */
  lemma RecordsAreWritten(rec: Record, logDir: string, stamp: string)
    ensures WriteOf(rec, logDir, stamp).Some?
    ensures WriteOf(rec, logDir, stamp).value.path ==
              Logger.PathJoin(logDir, Logger.LogFileName(rec.chatId, rec.action.Name()))
  {
  }
}
