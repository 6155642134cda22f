/**
 * The inbound-event reducer: a message event appends to the message log,
 * a roster event replaces the roster, a typing-presence event replaces the
 * presence, and any other event type changes nothing.
 */
module Dispatch {
  import opened Wrappers
  import opened Domain

  /** The part of the client state that inbound events write. */
  datatype Chat = Chat(messages: seq<ChatMessage>, roster: seq<User>, presence: TypingPresence)

  const InitialChat := Chat([], [], InitialPresence)

  /** The message a message event appends: its three properties, or all absent without data. */
  function MessageOf(data: Option<ChatMessage>): (m: ChatMessage)
    ensures data.None? ==> m == EmptyMessage
    ensures data.Some? ==> m == data.value
  {
    data.GetOr(EmptyMessage)
  }

  /** One inbound event applied to the chat state. */
  function OnMessage(c: Chat, e: Inbound): (r: Chat)
    ensures e.MessageEvent? ==>
      && |r.messages| == |c.messages| + 1
      && r.messages[..|c.messages|] == c.messages
      && r.messages[|c.messages|] == MessageOf(e.messageData)
      && r.roster == c.roster && r.presence == c.presence
    ensures e.UserListEvent? ==>
      && (e.users.Some? ==> r.roster == e.users.value)
      && (e.users.None? ==> r.roster == [])
      && r.messages == c.messages && r.presence == c.presence
    ensures e.TypingPresenceEvent? ==>
      && (e.presenceData.Some? ==> r.presence == e.presenceData.value)
      && (e.presenceData.None? ==> r.presence == EmptyPresence)
      && r.messages == c.messages && r.roster == c.roster
    ensures e.OtherEvent? ==> r == c
  {
    match e
    case MessageEvent(data) => c.(messages := c.messages + [MessageOf(data)])
    case UserListEvent(users) => c.(roster := users.GetOr([]))
    case TypingPresenceEvent(p) => c.(presence := p.GetOr(EmptyPresence))
    case OtherEvent(_) => c
  }

  /** Inbound events applied in arrival order. */
  function Deliver(c: Chat, es: seq<Inbound>): Chat
    decreases |es|
  {
    if |es| == 0 then c else Deliver(OnMessage(c, es[0]), es[1..])
  }

  /** The messages carried by the message events of `es`, in order. */
  function MessagesCarried(es: seq<Inbound>): seq<ChatMessage>
    decreases |es|
  {
    if |es| == 0 then []
    else (if es[0].MessageEvent? then [MessageOf(es[0].messageData)] else []) + MessagesCarried(es[1..])
  }

  /** The roster after `es`: the payload of the last roster event, or `current` if there is none. */
  function LastRoster(es: seq<Inbound>, current: seq<User>): seq<User>
    decreases |es|
  {
    if |es| == 0 then current
    else if es[|es| - 1].UserListEvent? then es[|es| - 1].users.GetOr([])
    else LastRoster(es[..|es| - 1], current)
  }

  lemma {:induction false} MessagesCarriedAppend(a: seq<Inbound>, b: seq<Inbound>)
    ensures MessagesCarried(a + b) == MessagesCarried(a) + MessagesCarried(b)
    decreases |a|
  {
    if |a| == 0 {
      assert a + b == b;
    } else {
      assert (a + b)[0] == a[0];
      assert (a + b)[1..] == a[1..] + b;
      MessagesCarriedAppend(a[1..], b);
    }
  }

  /** Delivering one more event is one more reducer step. */
  lemma {:induction false} DeliverSnoc(c: Chat, es: seq<Inbound>, e: Inbound)
    ensures Deliver(c, es + [e]) == OnMessage(Deliver(c, es), e)
    decreases |es|
  {
    if |es| == 0 {
      assert [e][1..] == [];
    } else {
      assert (es + [e])[0] == es[0];
      assert (es + [e])[1..] == es[1..] + [e];
      DeliverSnoc(OnMessage(c, es[0]), es[1..], e);
    }
  }

  /** The message log is append-only: any delivery appends exactly the carried messages, in arrival order. */
  lemma {:induction false} DeliverAppendsInOrder(c: Chat, es: seq<Inbound>)
    ensures Deliver(c, es).messages == c.messages + MessagesCarried(es)
    decreases |es|
  {
    if |es| > 0 {
      DeliverAppendsInOrder(OnMessage(c, es[0]), es[1..]);
    }
  }

  /** The roster is replaced wholesale: after any delivery it is the last roster payload, never a merge. */
  lemma {:induction false} DeliverRosterLastWins(c: Chat, es: seq<Inbound>)
    ensures Deliver(c, es).roster == LastRoster(es, c.roster)
    decreases |es|
  {
    if |es| > 0 {
      var init := es[..|es| - 1];
      assert es == init + [es[|es| - 1]];
      DeliverSnoc(c, init, es[|es| - 1]);
      DeliverRosterLastWins(c, init);
    }
  }

  /** Messages M1, M2, M3 delivered in that order are logged in exactly that order. */
  lemma ArrivalOrderExample(c: Chat, m1: ChatMessage, m2: ChatMessage, m3: ChatMessage)
    requires c.messages == []
    ensures Deliver(c, [MessageEvent(Some(m1)), MessageEvent(Some(m2)), MessageEvent(Some(m3))]).messages
      == [m1, m2, m3]
  {
    var es := [MessageEvent(Some(m1)), MessageEvent(Some(m2)), MessageEvent(Some(m3))];
    DeliverAppendsInOrder(c, es);
    assert es[1..][1..][1..] == [];
    assert MessagesCarried(es[1..][1..]) == [m3];
    assert MessagesCarried(es[1..]) == [m2, m3];
  }
}
