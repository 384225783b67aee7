/**
 * The doctor chat: a conversation that starts with three messages and a
 * text box whose contents are appended as a user message on send, unless
 * they are only whitespace.
 */
module ChatMessages {
  import opened Text

  datatype Sender = Doctor | User

  /** A chat line; the timestamp is the "hh:mm" text shown under it. */
  datatype Msg = Msg(sender: Sender, content: string, timestamp: string)

  /** `INITIAL`: the conversation as the page first renders it. */
  function Initial(): (r: seq<Msg>)
    ensures |r| == 3
    ensures r[0].sender == Doctor && r[1].sender == User && r[2].sender == Doctor
  {
    [ Msg(Doctor, "Hello, your appointment is on Monday!", "09:00"),
      Msg(User, "Thank you!", "09:01"),
      Msg(Doctor, "Have you received your recent test results?", "09:02") ]
  }

  /** The component's state: the messages so far and the text box. */
  datatype Chat = Chat(messages: seq<Msg>, input: string)

  function InitialChat(): Chat {
    Chat(Initial(), "")
  }

  /** Typing in the text box replaces its contents and nothing else. */
  function SetInput(c: Chat, text: string): (r: Chat)
    ensures r.messages == c.messages && r.input == text
  {
    c.(input := text)
  }

  /**
   * `sendMessage`: when the trimmed input is non-empty, the untrimmed input
   * is appended as a user message stamped `stamp` (the current clock
   * reading, supplied by the caller) and the box is cleared; otherwise
   * nothing changes.
   */
  function SendMessage(c: Chat, stamp: string): (r: Chat)
    ensures IsBlank(c.input) ==> r == c
    ensures !IsBlank(c.input) ==>
              && |r.messages| == |c.messages| + 1
              && r.messages[..|c.messages|] == c.messages
              && r.messages[|c.messages|] == Msg(User, c.input, stamp)
              && r.input == ""
  {
    if Trim(c.input) != [] then
      Chat(c.messages + [Msg(User, c.input, stamp)], "")
    else
      c
  }

  /** After a send the box is empty, so sending again at once changes nothing. */
  lemma SecondSendIsNoOp(c: Chat, stamp: string, later: string)
    ensures SendMessage(SendMessage(c, stamp), later) == SendMessage(c, stamp)
  {
  }

  /** What a user does on the page: type into the box, or press Send at some clock reading. */
  datatype Event = Typed(text: string) | Sent(stamp: string)

  function Step(c: Chat, e: Event): Chat {
    match e
    case Typed(text) => SetInput(c, text)
    case Sent(stamp) => SendMessage(c, stamp)
  }

  /** The chat after a sequence of events, applied left to right. */
  function Run(c: Chat, events: seq<Event>): Chat
    decreases |events|
  {
    if events == [] then c else Run(Step(c, events[0]), events[1..])
  }

  /** How many events are presses of Send. */
  function Sends(events: seq<Event>): nat
    decreases |events|
  {
    if events == [] then 0 else (if events[0].Sent? then 1 else 0) + Sends(events[1..])
  }

  /**
   * `now` is `before` with user messages of non-blank text added at the end:
   * the earlier messages stay as they were, in place.
   */
  predicate GrewFrom(before: seq<Msg>, now: seq<Msg>) {
    && |before| <= |now|
    && now[..|before|] == before
    && forall i :: |before| <= i < |now| ==> now[i].sender == User && !IsBlank(now[i].content)
  }

  lemma GrewFromTransitive(a: seq<Msg>, b: seq<Msg>, c: seq<Msg>)
    requires GrewFrom(a, b) && GrewFrom(b, c)
    ensures GrewFrom(a, c)
  {
    assert c[..|a|] == c[..|b|][..|a|];
  }

  /** One event adds at most one message, and only by a press of Send. */
  lemma StepGrows(c: Chat, e: Event)
    ensures GrewFrom(c.messages, Step(c, e).messages)
    ensures |Step(c, e).messages| <= |c.messages| + (if e.Sent? then 1 else 0)
  {
    var r := Step(c, e);
    if e.Sent? && !IsBlank(c.input) {
      assert r.messages == c.messages + [Msg(User, c.input, e.stamp)];
      assert r.messages[..|c.messages|] == c.messages;
    } else {
      assert r.messages == c.messages;
    }
  }

  /**
   * Messages only grow: whatever the user does, the earlier messages stay as
   * they were, in place; at most one message is added per press of Send;
   * and every added message is a user message whose text is not blank.
   */
  lemma {:induction false} MessagesOnlyGrow(c: Chat, events: seq<Event>)
    ensures GrewFrom(c.messages, Run(c, events).messages)
    ensures |Run(c, events).messages| <= |c.messages| + Sends(events)
    decreases |events|
  {
    if events != [] {
      var next := Step(c, events[0]);
      StepGrows(c, events[0]);
      MessagesOnlyGrow(next, events[1..]);
      GrewFromTransitive(c.messages, next.messages, Run(next, events[1..]).messages);
    }
  }

  /** Typing only whitespace and pressing Send leaves the conversation as it was. */
  lemma BlankSendKeepsMessages(c: Chat, text: string, stamp: string)
    requires IsBlank(text)
    ensures Run(c, [Typed(text), Sent(stamp)]) == Chat(c.messages, text)
  {
    var typed := SetInput(c, text);
    assert [Typed(text), Sent(stamp)][1..] == [Sent(stamp)];
    assert Run(c, [Typed(text), Sent(stamp)]) == Run(typed, [Sent(stamp)]);
    assert Run(typed, [Sent(stamp)]) == Run(SendMessage(typed, stamp), []);
  }
}
