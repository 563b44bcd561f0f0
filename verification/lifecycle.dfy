/**
  The monitor over a whole run: events are routed to the three handlers in
  the order the transport delivers them, and the properties that span
  several events are stated here: the life of one message id, the
  allow-list, and the age bound the throttled sweep keeps.
 */
module Lifecycle {
  import opened Base
  import opened History
  import opened Handlers

  /** One event of the three kinds the client is registered for. */
  datatype Event = NewEvent(n: NewMessage) | EditEvent(e: EditedMessage) | DeleteEvent(d: DeletedMessage)

  /** An event together with the clock reading when its handler runs. */
  datatype Timed = Timed(event: Event, now: int)

  /** The chat an event belongs to. */
  function ChatOf(ev: Event): Option<int> {
    match ev
    case NewEvent(n) => Some(n.chatId)
    case EditEvent(e) => Some(e.chatId)
    case DeleteEvent(d) => d.chatId
  }

  /** The router: each event kind goes to its own handler.  An event from a
      chat the allow-list leaves out changes nothing and writes nothing. */
  function Handle(m: Monitor, allow: seq<int>, ev: Event, now: int): (r: Step)
    ensures !Admitted(allow, ChatOf(ev)) ==> r == Step(m, Silent)
  {
    match ev
    case NewEvent(n) => HandleReceived(m, allow, n, now)
    case EditEvent(e) => HandleEdited(m, allow, e, now)
    case DeleteEvent(d) => HandleDeleted(m, allow, d, now)
  }

  /** The state after handling `trace` in order, starting from `m`. */
  function Run(m: Monitor, allow: seq<int>, trace: seq<Timed>): Monitor
    decreases |trace|
  {
    if |trace| == 0 then m
    else Run(Handle(m, allow, trace[0].event, trace[0].now).state, allow, trace[1..])
  }

  /** The records, in order, that handling `trace` from `m` asks to write. */
  function Records(m: Monitor, allow: seq<int>, trace: seq<Timed>): seq<Output>
    decreases |trace|
  {
    if |trace| == 0 then []
    else
      var step := Handle(m, allow, trace[0].event, trace[0].now);
      (if step.out.Silent? then [] else [step.out]) + Records(step.state, allow, trace[1..])
  }

  /** Events from chats outside a non-empty allow-list never reach the
      cache or the log. */
  lemma {:induction false} FilteredRunIsInvisible(m: Monitor, allow: seq<int>, trace: seq<Timed>)
    requires forall i :: 0 <= i < |trace| ==> !Admitted(allow, ChatOf(trace[i].event))
    ensures Run(m, allow, trace) == m
    ensures Records(m, allow, trace) == []
    decreases |trace|
  {
    if |trace| > 0 {
      FilteredRunIsInvisible(m, allow, trace[1..]);
    }
  }

  /** An empty allow-list admits every event, a deletion without a chat
      included, and handles it as any allow-list that admits it does: the
      list only filters. */
  lemma EmptyAllowListAdmitsAll(m: Monitor, allow: seq<int>, ev: Event, now: int)
    ensures Admitted([], ChatOf(ev))
    ensures Admitted(allow, ChatOf(ev)) ==> Handle(m, [], ev, now) == Handle(m, allow, ev, now)
  {
  }

  // ---------------------------------------------------------------------
  // The life of one message id

  /** Edits, in order, all of message `id` in admitted chats. */
  predicate EditsOf(allow: seq<int>, id: int, edits: seq<Timed>) {
    forall i :: 0 <= i < |edits| ==>
      edits[i].event.EditEvent? && edits[i].event.e.messageId == id
      && Admitted(allow, Some(edits[i].event.e.chatId))
  }

  /** The text a message has after a series of edits. */
  function LatestText(original: string, edits: seq<Timed>): string
    requires forall i :: 0 <= i < |edits| ==> edits[i].event.EditEvent?
  {
    if |edits| == 0 then original
    else TextOf(edits[|edits| - 1].event.e.text)
  }

  /** Through any series of edits the entry stays cached, holds the latest
      text and keeps the sender label it was created with. */
  lemma {:induction false} EditsKeepEntry(m: Monitor, allow: seq<int>, id: int, edits: seq<Timed>)
    requires id in m.history
    requires EditsOf(allow, id, edits)
    ensures var r := Run(m, allow, edits);
            && id in r.history
            && r.history[id].text == LatestText(m.history[id].text, edits)
            && r.history[id].Label() == m.history[id].Label()
    decreases |edits|
  {
    if |edits| > 0 {
      var step := Handle(m, allow, edits[0].event, edits[0].now);
      var rest := edits[1..];
      assert EditsOf(allow, id, rest);
      EditsKeepEntry(step.state, allow, id, rest);
      if |rest| > 0 {
        assert rest[|rest| - 1] == edits[|edits| - 1];
      }
    }
  }

  /** New message, any series of edits, then deletion: the deletion record
      carries the latest text and the sender captured when the message
      arrived, and the id is gone afterwards. */
  lemma DeleteReportsLatestText(m: Monitor, allow: seq<int>, ev: NewMessage, t0: int,
                                edits: seq<Timed>, del: DeletedMessage, t1: int)
    requires Admitted(allow, Some(ev.chatId)) && SenderLabel(ev.sender).Ok?
    requires EditsOf(allow, ev.messageId, edits)
    requires del.deletedId == ev.messageId && Admitted(allow, del.chatId)
    ensures var before := Run(HandleReceived(m, allow, ev, t0).state, allow, edits);
            var r := HandleDeleted(before, allow, del, t1);
            && r.out.Logged?
            && r.out.record.text == Some(LatestText(TextOf(ev.text), edits))
            && r.out.record.sender == SenderLabel(ev.sender).value
            && ev.messageId !in r.state.history
  {
    var s := HandleReceived(m, allow, ev, t0).state;
    EditsKeepEntry(s, allow, ev.messageId, edits);
  }

  /** Repeating an edit that was just applied writes nothing and changes
      nothing, whenever it arrives. */
  lemma RepeatedEditIsSilent(m: Monitor, allow: seq<int>, ev: EditedMessage, t0: int, t1: int)
    requires HandleEdited(m, allow, ev, t0).out.Logged?
    ensures var s := HandleEdited(m, allow, ev, t0).state;
            HandleEdited(s, allow, ev, t1) == Step(s, Silent)
  {
  }

  /** An edit that changes nothing keeps the stored time: it does not
      refresh the entry's retention. */
  lemma NoOpEditKeepsTime(m: Monitor, allow: seq<int>, ev: EditedMessage, now: int)
    requires ev.messageId in m.history && m.history[ev.messageId].text == TextOf(ev.text)
    ensures HandleEdited(m, allow, ev, now).state.history[ev.messageId].stamp == m.history[ev.messageId].stamp
  {
  }

  /** Deleting the same id a second time writes nothing. */
  lemma SecondDeleteIsSilent(m: Monitor, allow: seq<int>, del: DeletedMessage, t0: int, t1: int)
    ensures var s := HandleDeleted(m, allow, del, t0).state;
            HandleDeleted(s, allow, del, t1) == Step(s, Silent)
  {
  }

  /** Message 100 in allowed chat 5 arrives as "hi", is edited to
      "hi there", then deleted: three records, the last carrying the edited
      text. */
  lemma HiThereScenario(t0: int, t1: int, t2: int)
    ensures var s1 := HandleReceived(Initial, [5], NewMessage(5, None, 100, Some("hi"), None), t0);
            var s2 := HandleEdited(s1.state, [5], EditedMessage(5, None, 100, Some("hi there")), t1);
            var s3 := HandleDeleted(s2.state, [5], DeletedMessage(Some(5), None, 100), t2);
            && s1.out.Logged? && s1.out.record.chatId == Some(5) && s1.out.record.text == Some("hi")
            && s2.out.Logged? && s2.out.record.oldText == Some("hi") && s2.out.record.newText == Some("hi there")
            && s3.out.Logged? && s3.out.record.text == Some("hi there")
            && s3.state.history == map[]
  {
    assert |"hi"| != |"hi there"|;
  }

  // ---------------------------------------------------------------------
  // The age bound

  /** What the last sweep left behind: no dated entry older than the
      retention window measured from that sweep. */
  predicate Fresh(m: Monitor) {
    m.lastSweep.Some? ==>
      forall id :: id in m.history && m.history[id].stamp.Some? ==>
        m.history[id].stamp.value >= m.lastSweep.value - RetentionSeconds
  }

  /** The clock has not gone back past the last sweep. */
  predicate ClockAfter(m: Monitor, now: int) {
    m.lastSweep.None? || m.lastSweep.value <= now
  }

  /** Every handler keeps `Fresh`, and leaves the last sweep no later than
      the clock. */
  lemma HandleKeepsFresh(m: Monitor, allow: seq<int>, ev: Event, now: int)
    requires Fresh(m) && ClockAfter(m, now)
    ensures Fresh(Handle(m, allow, ev, now).state)
    ensures ClockAfter(Handle(m, allow, ev, now).state, now)
  {
    var r := Handle(m, allow, ev, now).state;
    if r.lastSweep.Some? {
      forall id | id in r.history && r.history[id].stamp.Some?
        ensures r.history[id].stamp.value >= r.lastSweep.value - RetentionSeconds
      {
        if id in m.history && r.history[id] == m.history[id] && r.lastSweep == m.lastSweep {
        } else if r.lastSweep != m.lastSweep {
        } else {
          assert r.history[id].stamp == Some(now);
        }
      }
    }
  }

  /** Clock readings that never go backwards. */
  predicate Monotone(trace: seq<Timed>) {
    forall i, j :: 0 <= i < j < |trace| ==> trace[i].now <= trace[j].now
  }

  /** A run with a clock that never goes backwards keeps `Fresh`. */
  lemma {:induction false} RunKeepsFresh(m: Monitor, allow: seq<int>, trace: seq<Timed>)
    requires Fresh(m) && Monotone(trace)
    requires |trace| > 0 ==> ClockAfter(m, trace[0].now)
    ensures Fresh(Run(m, allow, trace))
    decreases |trace|
  {
    if |trace| > 0 {
      var s := Handle(m, allow, trace[0].event, trace[0].now).state;
      HandleKeepsFresh(m, allow, trace[0].event, trace[0].now);
      if |trace| > 1 {
        assert trace[0].now <= trace[1].now;
      }
      RunKeepsFresh(s, allow, trace[1..]);
    }
  }

  /** The age bound the throttle buys: right after a new message is
      stored, no dated entry is six hours old or older. */
  lemma ReceiveBoundsAge(m: Monitor, allow: seq<int>, ev: NewMessage, now: int)
    requires Fresh(m) && ClockAfter(m, now)
    ensures var r := HandleReceived(m, allow, ev, now);
            r.out.Logged? ==>
              forall id :: id in r.state.history && r.state.history[id].stamp.Some? ==>
                r.state.history[id].stamp.value > now - RetentionSeconds - SweepIntervalSeconds
  {
    var r := HandleReceived(m, allow, ev, now);
    if r.out.Logged? {
      var swept := Sweep(m, now);
      forall id | id in r.state.history && r.state.history[id].stamp.Some?
        ensures r.state.history[id].stamp.value > now - RetentionSeconds - SweepIntervalSeconds
      {
        if id != ev.messageId {
        }
      }
    }
  }
}
