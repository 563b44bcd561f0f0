/**
  The log sink's pure part (`log_message`): which file a record goes to and
  the text block appended to it.  Creating the directory, appending to the
  file and the diagnostic `logging` calls are effects left to the caller.
 */
module Logger {
  import opened Base
  import opened Text

  /** The forty dashes that close every entry. */
  const Dashes: string := "----------------------------------------"

  /** The last line of every entry, newline included. */
  const Separator: string := Dashes + "\n"

  /** The fixed label that starts a line of an entry.  `Title` and `Stamp`
      carry the capitalised action word ("Deleted", "Received", "Edited"). */
  datatype Key = Title(heading: string) | FromUser | MessageId | Message | OldMessage | NewMessage
               | Stamp(heading: string) | Rule
  {
    /** The label as printed. */
    function Label(): string {
      match this
      case Title(h) => h + " Message in Chat: "
      case FromUser => "From User: "
      case MessageId => "Message ID: "
      case Message => "Message: "
      case OldMessage => "Old Message: "
      case NewMessage => "New Message: "
      case Stamp(h) => h + " At: "
      case Rule => Dashes
    }
  }

  /** One line of an entry: a fixed label followed by its value. */
  datatype Field = Field(key: Key, value: string)

  /** An append of `entry` to the file at `path`. */
  datatype LogWrite = LogWrite(path: string, entry: string)

  /** The action types `log_message` knows; any other writes nothing. */
  predicate KnownAction(action: string) {
    action == "deleted" || action == "received" || action == "edited"
  }

  /** An f-string rendering of an optional string: `None` prints as "None". */
  function ShowText(s: Option<string>): string {
    match s
    case Some(t) => t
    case None => "None"
  }

  /** An f-string rendering of a chat id, which the transport may leave as
      `None` (deletions outside channels carry no chat). */
  function ChatIdText(chatId: Option<int>): (r: string)
    ensures |r| > 0 && '_' !in r && '/' !in r
    ensures chatId.None? ==> r == "None"
    ensures chatId.Some? ==> r == IntToString(chatId.value)
  {
    match chatId
    case Some(c) => IntToString(c)
    case None => "None"
  }

  /** Distinct chat ids render distinctly. */
  lemma ChatIdTextInjective(a: Option<int>, b: Option<int>)
    requires ChatIdText(a) == ChatIdText(b)
    ensures a == b
  {
    if a.Some? && b.Some? {
      IntToStringInjective(a.value, b.value);
    }
  }

  /** What `os.path.join` puts before a relative name: the directory,
      with a slash added unless it is empty or already ends in one. */
  function DirPrefix(dir: string): string {
    if dir == "" || dir[|dir| - 1] == '/' then dir else dir + "/"
  }

  /** `os.path.join(dir, name)` on POSIX paths: an absolute name replaces
      the directory. */
  function PathJoin(dir: string, name: string): (p: string)
    ensures |name| > 0 && name[0] == '/' ==> p == name
    ensures |name| > 0 && name[0] != '/' ==>
              && |p| >= |dir| + |name| && p[..|dir|] == dir && p[|p| - |name|..] == name
              && (dir == "" || dir[|dir| - 1] == '/' ==> |p| == |dir| + |name|)
              && (dir != "" && dir[|dir| - 1] != '/' ==> |p| == |dir| + 1 + |name| && p[|dir|] == '/')
  {
    if |name| > 0 && name[0] == '/' then name else DirPrefix(dir) + name
  }

  /** The per-chat, per-action file name. */
  function LogFileName(chatId: Option<int>, action: string): string {
    ChatIdText(chatId) + "_" + action + "_messages.log"
  }

  /** The capitalised word that opens an entry. */
  function Heading(action: string): string
    requires KnownAction(action)
  {
    if action == "deleted" then "Deleted"
    else if action == "received" then "Received"
    else "Edited"
  }

  /** How many fields of `fs` carry the label `key`. */
  function CountKey(fs: seq<Field>, key: Key): nat {
    if |fs| == 0 then 0
    else CountKey(fs[..|fs| - 1], key) + Hit(fs[|fs| - 1], key)
  }

  lemma {:induction false} CountKeyAppend(a: seq<Field>, b: seq<Field>, key: Key)
    ensures CountKey(a + b, key) == CountKey(a, key) + CountKey(b, key)
    decreases |b|
  {
    if |b| == 0 {
      assert a + b == a;
    } else {
      assert (a + b)[..|a + b| - 1] == a + b[..|b| - 1];
      CountKeyAppend(a, b[..|b| - 1], key);
    }
  }

  /** The value of the first field labelled `key`, if any. */
  function Lookup(fs: seq<Field>, key: Key): Option<string> {
    if |fs| == 0 then None
    else if fs[0].key == key then Some(fs[0].value)
    else Lookup(fs[1..], key)
  }

  /** The `From User:` line, present only for a truthy username. */
  function UserFields(username: Option<string>): seq<Field> {
    if Truthy(username) then [Field(FromUser, username.value)] else []
  }

  /** The closing line of every entry. */
  const SeparatorField: Field := Field(Rule, "")

  /** The lines of an entry, in order, before rendering. */
  function EntryFields(action: string, chatId: Option<int>, chatTitle: string, messageId: int,
                       timestamp: string, username: Option<string>, messageText: Option<string>,
                       oldText: Option<string>, newText: Option<string>): seq<Field>
    requires KnownAction(action)
  {
    [Field(Title(Heading(action)), chatTitle + " (ID: " + ChatIdText(chatId) + ")")]
    + UserFields(username)
    + EntryBody(action, messageId, timestamp, messageText, oldText, newText)
  }

  /** The lines after the heading and the optional user line. */
  function EntryBody(action: string, messageId: int, timestamp: string, messageText: Option<string>,
                     oldText: Option<string>, newText: Option<string>): seq<Field>
    requires KnownAction(action)
  {
    if action == "edited" then
      [Field(MessageId, IntToString(messageId)),
       Field(OldMessage, ShowText(oldText)),
       Field(NewMessage, ShowText(newText)),
       Field(Stamp("Edited"), timestamp),
       SeparatorField]
    else
      [Field(MessageId, IntToString(messageId)),
       Field(Message, ShowText(messageText)),
       Field(Stamp(Heading(action)), timestamp),
       SeparatorField]
  }

  /** The heading first, the separator last. */
  lemma EntryFrame(action: string, chatId: Option<int>, chatTitle: string, messageId: int,
                   timestamp: string, username: Option<string>, messageText: Option<string>,
                   oldText: Option<string>, newText: Option<string>)
    requires KnownAction(action)
    ensures var fs := EntryFields(action, chatId, chatTitle, messageId, timestamp,
                                  username, messageText, oldText, newText);
            && |fs| >= 2
            && fs[0] == Field(Title(Heading(action)), chatTitle + " (ID: " + ChatIdText(chatId) + ")")
            && fs[|fs| - 1] == SeparatorField
  {
  }

  /** One if `f` carries the label `key`, zero otherwise. */
  function Hit(f: Field, key: Key): nat {
    if f.key == key then 1 else 0
  }

  lemma CountKeyFour(f1: Field, f2: Field, f3: Field, f4: Field, key: Key)
    ensures CountKey([f1, f2, f3, f4], key) == Hit(f1, key) + Hit(f2, key) + Hit(f3, key) + Hit(f4, key)
  {
    assert CountKey([f1], key) == Hit(f1, key) by {
      assert [f1][..0] == [];
    }
    assert CountKey([f1, f2], key) == CountKey([f1], key) + Hit(f2, key) by {
      assert [f1, f2][..1] == [f1];
    }
    assert CountKey([f1, f2, f3], key) == CountKey([f1, f2], key) + Hit(f3, key) by {
      assert [f1, f2, f3][..2] == [f1, f2];
    }
    assert [f1, f2, f3, f4][..3] == [f1, f2, f3];
  }

  lemma CountKeyFive(f1: Field, f2: Field, f3: Field, f4: Field, f5: Field, key: Key)
    ensures CountKey([f1, f2, f3, f4, f5], key) == Hit(f1, key) + Hit(f2, key) + Hit(f3, key) + Hit(f4, key) + Hit(f5, key)
  {
    assert [f1, f2, f3, f4, f5][..4] == [f1, f2, f3, f4];
    CountKeyFour(f1, f2, f3, f4, key);
  }

  /** A list none of whose fields carries `key` counts it zero times. */
  lemma {:induction false} CountKeyNone(fs: seq<Field>, key: Key)
    requires forall i :: 0 <= i < |fs| ==> fs[i].key != key
    ensures CountKey(fs, key) == 0
    decreases |fs|
  {
    if |fs| > 0 {
      CountKeyNone(fs[..|fs| - 1], key);
    }
  }

  /** Looking a label up past a prefix that does not carry it. */
  lemma {:induction false} LookupSkip(a: seq<Field>, b: seq<Field>, key: Key)
    requires forall i :: 0 <= i < |a| ==> a[i].key != key
    ensures Lookup(a + b, key) == Lookup(b, key)
    decreases |a|
  {
    if |a| == 0 {
      assert a + b == b;
    } else {
      assert (a + b)[1..] == a[1..] + b;
      LookupSkip(a[1..], b, key);
    }
  }

  /** An entry is its heading, its user line (if any) and its body. */
  lemma EntryParts(action: string, chatId: Option<int>, chatTitle: string, messageId: int,
                   timestamp: string, username: Option<string>, messageText: Option<string>,
                   oldText: Option<string>, newText: Option<string>)
    requires KnownAction(action)
    ensures var fs := EntryFields(action, chatId, chatTitle, messageId, timestamp,
                                  username, messageText, oldText, newText);
            && |fs| > 0 && fs[0].key.Title?
            && fs == [fs[0]] + UserFields(username)
                     + EntryBody(action, messageId, timestamp, messageText, oldText, newText)
  {
  }

  /** A label that neither the heading nor the user line carries is
      counted and looked up in the body alone. */
  lemma EntryLayout(head: Field, user: seq<Field>, body: seq<Field>, key: Key)
    requires head.key != key
    requires forall i :: 0 <= i < |user| ==> user[i].key != key
    ensures CountKey([head] + user + body, key) == CountKey(body, key)
    ensures Lookup([head] + user + body, key) == Lookup(body, key)
  {
    var front := [head] + user;
    assert forall i :: 0 <= i < |front| ==> front[i].key != key by {
      assert forall i :: 1 <= i < |front| ==> front[i] == user[i - 1];
    }
    CountKeyAppend(front, body, key);
    CountKeyNone(front, key);
    LookupSkip(front, body, key);
  }

  /** The body of a deletion or a reception: one `Message:` line with the
      text, no old or new line, no user line. */
  lemma PlainBody(action: string, messageId: int, timestamp: string, messageText: Option<string>,
                  oldText: Option<string>, newText: Option<string>)
    requires action == "deleted" || action == "received"
    ensures var body := EntryBody(action, messageId, timestamp, messageText, oldText, newText);
            && CountKey(body, Message) == 1 && Lookup(body, Message) == Some(ShowText(messageText))
            && CountKey(body, OldMessage) == 0 && CountKey(body, NewMessage) == 0
            && forall i :: 0 <= i < |body| ==> body[i].key != FromUser
  {
    var body := EntryBody(action, messageId, timestamp, messageText, oldText, newText);
    assert body == [body[0], body[1], body[2], body[3]];
    CountKeyFour(body[0], body[1], body[2], body[3], Message);
    CountKeyFour(body[0], body[1], body[2], body[3], OldMessage);
    CountKeyFour(body[0], body[1], body[2], body[3], NewMessage);
    assert body[1..][0] == body[1];
  }

  /** The body of an edit: one old and one new line with their texts, no
      plain `Message:` line, no user line. */
  lemma EditedBody(messageId: int, timestamp: string, messageText: Option<string>,
                   oldText: Option<string>, newText: Option<string>)
    ensures var body := EntryBody("edited", messageId, timestamp, messageText, oldText, newText);
            && CountKey(body, OldMessage) == 1 && Lookup(body, OldMessage) == Some(ShowText(oldText))
            && CountKey(body, NewMessage) == 1 && Lookup(body, NewMessage) == Some(ShowText(newText))
            && CountKey(body, Message) == 0
            && forall i :: 0 <= i < |body| ==> body[i].key != FromUser
  {
    var body := EntryBody("edited", messageId, timestamp, messageText, oldText, newText);
    assert body == [body[0], body[1], body[2], body[3], body[4]];
    CountKeyFive(body[0], body[1], body[2], body[3], body[4], OldMessage);
    CountKeyFive(body[0], body[1], body[2], body[3], body[4], NewMessage);
    CountKeyFive(body[0], body[1], body[2], body[3], body[4], Message);
    assert Lookup(body, OldMessage) == Some(body[1].value);
    var rest := body[1..];
    assert rest[0] == body[1] && rest[1..][0] == body[2];
    assert Lookup(body, NewMessage) == Lookup(rest, NewMessage) == Lookup(rest[1..], NewMessage);
  }

  /** The `From User:` line is there exactly when the username is truthy,
      and then it carries the username. */
  lemma EntryUserLine(action: string, chatId: Option<int>, chatTitle: string, messageId: int,
                      timestamp: string, username: Option<string>, messageText: Option<string>,
                      oldText: Option<string>, newText: Option<string>)
    requires KnownAction(action)
    ensures var fs := EntryFields(action, chatId, chatTitle, messageId, timestamp,
                                  username, messageText, oldText, newText);
            && (CountKey(fs, FromUser) == 1 <==> Truthy(username))
            && (CountKey(fs, FromUser) == 0 <==> !Truthy(username))
            && (Truthy(username) ==> Lookup(fs, FromUser) == username)
  {
    var fs := EntryFields(action, chatId, chatTitle, messageId, timestamp,
                          username, messageText, oldText, newText);
    EntryParts(action, chatId, chatTitle, messageId, timestamp, username, messageText, oldText, newText);
    var user := UserFields(username);
    var body := EntryBody(action, messageId, timestamp, messageText, oldText, newText);
    if action == "edited" {
      EditedBody(messageId, timestamp, messageText, oldText, newText);
    } else {
      PlainBody(action, messageId, timestamp, messageText, oldText, newText);
    }
    var front := [fs[0]] + user;
    CountKeyAppend(front, body, FromUser);
    CountKeyNone(body, FromUser);
    CountKeyAppend([fs[0]], user, FromUser);
    assert [fs[0]][..0] == [];
    if Truthy(username) {
      assert user[..0] == [];
      assert fs[1..][0] == user[0];
    }
  }

  /** An edit shows the old and the new text and no plain `Message:` line. */
  lemma EditedEntryLines(chatId: Option<int>, chatTitle: string, messageId: int, timestamp: string,
                         username: Option<string>, messageText: Option<string>,
                         oldText: Option<string>, newText: Option<string>)
    ensures var fs := EntryFields("edited", chatId, chatTitle, messageId, timestamp,
                                  username, messageText, oldText, newText);
            && CountKey(fs, OldMessage) == 1 && Lookup(fs, OldMessage) == Some(ShowText(oldText))
            && CountKey(fs, NewMessage) == 1 && Lookup(fs, NewMessage) == Some(ShowText(newText))
            && CountKey(fs, Message) == 0
  {
    var fs := EntryFields("edited", chatId, chatTitle, messageId, timestamp,
                          username, messageText, oldText, newText);
    EntryParts("edited", chatId, chatTitle, messageId, timestamp, username, messageText, oldText, newText);
    var user := UserFields(username);
    var body := EntryBody("edited", messageId, timestamp, messageText, oldText, newText);
    EditedBody(messageId, timestamp, messageText, oldText, newText);
    EntryLayout(fs[0], user, body, OldMessage);
    EntryLayout(fs[0], user, body, NewMessage);
    EntryLayout(fs[0], user, body, Message);
  }

  /** A deletion or a reception shows exactly one `Message:` line, with the
      text, and no old or new text. */
  lemma PlainEntryLines(action: string, chatId: Option<int>, chatTitle: string, messageId: int,
                        timestamp: string, username: Option<string>, messageText: Option<string>,
                        oldText: Option<string>, newText: Option<string>)
    requires action == "deleted" || action == "received"
    ensures var fs := EntryFields(action, chatId, chatTitle, messageId, timestamp,
                                  username, messageText, oldText, newText);
            && CountKey(fs, Message) == 1 && Lookup(fs, Message) == Some(ShowText(messageText))
            && CountKey(fs, OldMessage) == 0 && CountKey(fs, NewMessage) == 0
  {
    var fs := EntryFields(action, chatId, chatTitle, messageId, timestamp,
                          username, messageText, oldText, newText);
    EntryParts(action, chatId, chatTitle, messageId, timestamp, username, messageText, oldText, newText);
    var user := UserFields(username);
    var body := EntryBody(action, messageId, timestamp, messageText, oldText, newText);
    PlainBody(action, messageId, timestamp, messageText, oldText, newText);
    EntryLayout(fs[0], user, body, Message);
    EntryLayout(fs[0], user, body, OldMessage);
    EntryLayout(fs[0], user, body, NewMessage);
  }

  function FieldText(f: Field): string {
    f.key.Label() + f.value + "\n"
  }

  /** The text block of a list of fields: one line per field. */
  function Render(fs: seq<Field>): (r: string)
    ensures |fs| > 0 ==> |r| >= |FieldText(fs[0])| && r[..|FieldText(fs[0])|] == FieldText(fs[0])
    ensures |fs| > 0 ==> |r| >= |FieldText(fs[|fs| - 1])| && r[|r| - |FieldText(fs[|fs| - 1])|..] == FieldText(fs[|fs| - 1])
  {
    if |fs| == 0 then ""
    else Render(fs[..|fs| - 1]) + FieldText(fs[|fs| - 1])
  }

  /** `log_message`: the file an entry is appended to and its text, or
      nothing for an action type it does not know. */
  function LogMessage(logDir: string, action: string, chatId: Option<int>, chatTitle: string,
                      messageId: int, timestamp: string, username: Option<string>,
                      messageText: Option<string>, oldText: Option<string>,
                      newText: Option<string>): (r: Option<LogWrite>)
    ensures r.None? <==> !KnownAction(action)
    ensures r.Some? ==> r.value.path == PathJoin(logDir, LogFileName(chatId, action))
    ensures r.Some? ==> |r.value.entry| >= |Separator| && r.value.entry[|r.value.entry| - |Separator|..] == Separator
    ensures r.Some? ==>
              r.value.entry == Render(EntryFields(action, chatId, chatTitle, messageId, timestamp,
                                                  username, messageText, oldText, newText))
  {
    if !KnownAction(action) then None
    else
      var fs := EntryFields(action, chatId, chatTitle, messageId, timestamp,
                            username, messageText, oldText, newText);
      EntryFrame(action, chatId, chatTitle, messageId, timestamp,
                 username, messageText, oldText, newText);
      SeparatorText();
      Some(LogWrite(PathJoin(logDir, LogFileName(chatId, action)), Render(fs)))
  }

  lemma SeparatorText()
    ensures FieldText(SeparatorField) == Separator
  {
  }

  /** `x + sep + y` determines `x` and `y` when `x` has no `sep`. */
  lemma SplitAtFirst(x: string, y: string, x': string, y': string, sep: char)
    requires sep !in x && sep !in x'
    requires x + [sep] + y == x' + [sep] + y'
    ensures x == x' && y == y'
  {
    var s := x + [sep] + y;
    assert s[|x|] == sep && s[|x'|] == sep;
    assert forall i :: 0 <= i < |x| ==> s[i] == x[i];
    assert forall i :: 0 <= i < |x'| ==> s[i] == x'[i];
    assert |x| == |x'|;
    assert x == s[..|x|] && x' == s[..|x'|];
    assert y == s[|x| + 1..] && y' == s[|x'| + 1..];
  }

  /** A file name splits at its first underscore into the chat part and
      the action part. */
  lemma FileNameParts(chatId: Option<int>, action: string)
    ensures LogFileName(chatId, action) == ChatIdText(chatId) + ['_'] + (action + "_messages.log")
  {
  }

  /** Each (chat, action) pair has a file of its own: two records share a
      file only when they share both chat and action. */
  lemma LogFilesDistinct(logDir: string, c1: Option<int>, a1: string, c2: Option<int>, a2: string)
    requires PathJoin(logDir, LogFileName(c1, a1)) == PathJoin(logDir, LogFileName(c2, a2))
    ensures c1 == c2 && a1 == a2
  {
    var n1 := LogFileName(c1, a1);
    var n2 := LogFileName(c2, a2);
    FileNameParts(c1, a1);
    FileNameParts(c2, a2);
    var d := DirPrefix(logDir);
    assert n1[0] == ChatIdText(c1)[0] && n2[0] == ChatIdText(c2)[0];
    assert PathJoin(logDir, n1) == d + n1 && PathJoin(logDir, n2) == d + n2;
    assert n1 == (d + n1)[|d|..] && n2 == (d + n2)[|d|..];
    var suffix := "_messages.log";
    SplitAtFirst(ChatIdText(c1), a1 + suffix, ChatIdText(c2), a2 + suffix, '_');
    ChatIdTextInjective(c1, c2);
    assert a1 == (a1 + suffix)[..|a1|] && a2 == (a2 + suffix)[..|a2|];
  }
}
