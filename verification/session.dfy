/**
 * The chat session: nickname and room inputs, the connected flag, room
 * creation and joining, outgoing messages, the inbound dispatch with its
 * derived typing list, the typing debouncer and the transport's close
 * notification, as one state and one step per event. Asynchronous results
 * of the transport are inputs of the events that await them.
 */
module Session {
  import opened Wrappers
  import opened Domain
  import JsString
  import Presence
  import Dispatch
  import Debounce
  import Indicator

  /** What the client asks of the transport, in the order it asks. */
  datatype Request =
    | CreateChatRoom(nickname: string)
    | JoinChatRoom(nickname: string, roomId: string)
    | SendChat(body: string)

  /** The settled room-creation promise: the id it resolved to, or a rejection. */
  datatype CreateResult = RoomCreated(newRoomId: Option<string>) | CreateRejected

  /** A settled join or send promise. */
  datatype Outcome = Resolved | Rejected

  datatype State = State(
    nickname: string,
    roomId: string,
    connected: bool,
    messageInput: string,
    chat: Dispatch.Chat,
    typingUsers: Option<seq<string>>,
    typing: Debounce.Debouncer,
    requests: seq<Request>)

  const Initial := State("", "", false, "", Dispatch.InitialChat, Some([]), Debounce.Quiet, [])

  /** The create button is rendered (not connected) and enabled (a nickname is entered). */
  predicate CanCreate(s: State) {
    !s.connected && |s.nickname| > 0
  }

  /** The join button is rendered and enabled: a nickname and a room id are entered. */
  predicate CanJoin(s: State) {
    !s.connected && |s.nickname| > 0 && |s.roomId| > 0
  }

  /** The creation promise resolved to a truthy room id. */
  predicate Created(res: CreateResult) {
    res.RoomCreated? && Truthy(res.newRoomId)
  }

  /** Create a room under the current nickname; connect only on a truthy new room id. */
  function CreateRoom(s: State, res: CreateResult): (r: State)
    ensures r.requests == s.requests + [CreateChatRoom(s.nickname)]
    ensures r.connected <==> s.connected || Created(res)
    ensures Created(res) ==> r.roomId == res.newRoomId.value && r.roomId != ""
    ensures !Created(res) ==> r == s.(requests := r.requests)
    ensures r == s.(requests := r.requests, connected := r.connected, roomId := r.roomId)
  {
    var asked := s.(requests := s.requests + [CreateChatRoom(s.nickname)]);
    if Created(res) then asked.(connected := true, roomId := res.newRoomId.value) else asked
  }

  /** Join the entered room under the current nickname; connect when the promise resolves. */
  function JoinRoom(s: State, res: Outcome): (r: State)
    ensures r.requests == s.requests + [JoinChatRoom(s.nickname, s.roomId)]
    ensures r.connected <==> s.connected || res.Resolved?
    ensures r == s.(requests := r.requests, connected := r.connected)
  {
    var asked := s.(requests := s.requests + [JoinChatRoom(s.nickname, s.roomId)]);
    if res.Resolved? then asked.(connected := true) else asked
  }

  /**
   * Send the message input: nothing when it is only white space; otherwise
   * its trimmed text, clearing the input only when the send resolves. The
   * message is not added to the local log; it arrives as an inbound event.
   */
  function SendMessage(s: State, res: Outcome): (r: State)
    ensures JsString.AllSpace(s.messageInput) ==> r == s
    ensures !JsString.AllSpace(s.messageInput) ==>
      && |r.requests| == |s.requests| + 1
      && r.requests[..|s.requests|] == s.requests
      && r.requests[|s.requests|] == SendChat(JsString.Trim(s.messageInput))
      && r.requests[|s.requests|].body != ""
      && JsString.IsTrimmed(r.requests[|s.requests|].body)
      && (r.messageInput == "" <==> res.Resolved?)
      && (res.Rejected? ==> r.messageInput == s.messageInput)
    ensures r == s.(requests := r.requests, messageInput := r.messageInput)
  {
    JsString.TrimEmptyIff(s.messageInput);
    var body := JsString.Trim(s.messageInput);
    if body == "" then s
    else
      var asked := s.(requests := s.requests + [SendChat(body)]);
      if res.Resolved? then asked.(messageInput := "") else asked
  }

  /** A change of the message input, which also drives the typing debouncer. */
  function EditMessage(s: State, text: string): (r: State)
    ensures r.messageInput == text
    ensures !s.connected ==> r.typing == s.typing
    ensures s.connected ==> r.typing.signals == s.typing.signals + [true] && r.typing.pending.Some?
    ensures r == s.(messageInput := r.messageInput, typing := r.typing)
  {
    s.(messageInput := text, typing := Debounce.Keystroke(s.typing, s.connected))
  }

  /** The transport closed: disconnect and clear nickname and room id; everything else stays. */
  function Close(s: State): (r: State)
    ensures !r.connected && r.nickname == "" && r.roomId == ""
    ensures r.chat == s.chat && r.typingUsers == s.typingUsers && r.typing == s.typing
    ensures r.messageInput == s.messageInput && r.requests == s.requests
  {
    s.(connected := false, nickname := "", roomId := "")
  }

  /** The stored typing list is the one derived from the stored presence and roster. */
  predicate Consistent(s: State) {
    s.typingUsers == Presence.TypingNames(s.chat.presence, s.chat.roster)
  }

  /**
   * An inbound event: the reducer runs, and the typing list is recomputed
   * when the roster or the presence was written.
   */
  function Receive(s: State, e: Inbound): (r: State)
    ensures r.chat == Dispatch.OnMessage(s.chat, e)
    ensures Consistent(s) ==> Consistent(r)
    ensures e.TypingPresenceEvent? && e.presenceData.None? ==> r.typingUsers == Some([])
    ensures e.UserListEvent? && e.users.None? ==> r.typingUsers == Some([])
    ensures r == s.(chat := r.chat, typingUsers := r.typingUsers)
  {
    var c := Dispatch.OnMessage(s.chat, e);
    var names := if e.UserListEvent? || e.TypingPresenceEvent? then Presence.TypingNames(c.presence, c.roster)
      else s.typingUsers;
    s.(chat := c, typingUsers := names)
  }

  /** Everything that can happen to the client. */
  datatype Event =
    | EditNickname(nickname: string)
    | EditRoomId(roomId: string)
    | ClickCreate(created: CreateResult)
    | ClickJoin(joined: Outcome)
    | TypeMessage(text: string)
    | ClickSend(sent: Outcome)
    | Delivered(inbound: Inbound)
    | TimerExpired(timer: nat)
    | ConnectionReady
    | ConnectionClosed

  /**
   * One event. Controls that are not rendered or are disabled produce no
   * event: the nickname and room inputs and the two room buttons exist only
   * while not connected, the message input and send controls only while
   * connected; such an event leaves the state as it is.
   */
  function Step(s: State, e: Event): (r: State)
    ensures |s.chat.messages| <= |r.chat.messages| && r.chat.messages[..|s.chat.messages|] == s.chat.messages
    ensures |s.requests| <= |r.requests| && r.requests[..|s.requests|] == s.requests
    ensures |s.typing.signals| <= |r.typing.signals| && r.typing.signals[..|s.typing.signals|] == s.typing.signals
  {
    match e
    case EditNickname(v) => if s.connected then s else s.(nickname := v)
    case EditRoomId(v) => if s.connected then s else s.(roomId := v)
    case ClickCreate(res) => if CanCreate(s) then CreateRoom(s, res) else s
    case ClickJoin(res) => if CanJoin(s) then JoinRoom(s, res) else s
    case TypeMessage(text) => if s.connected then EditMessage(s, text) else s
    case ClickSend(res) => if s.connected then SendMessage(s, res) else s
    case Delivered(m) => Receive(s, m)
    case TimerExpired(t) => s.(typing := Debounce.TimerFires(s.typing, t))
    case ConnectionReady => s
    case ConnectionClosed => Close(s)
  }

  /** Events applied in order. */
  function Run(s: State, es: seq<Event>): State
    decreases |es|
  {
    if |es| == 0 then s else Run(Step(s, es[0]), es[1..])
  }

  /** The inbound envelopes among `es`, in order. */
  function InboundOf(es: seq<Event>): seq<Inbound>
    decreases |es|
  {
    if |es| == 0 then [] else (if es[0].Delivered? then [es[0].inbound] else []) + InboundOf(es[1..])
  }

  /**
   * The session invariant: the typing list matches presence and roster, the
   * debouncer is well formed, and a connected session has a room id.
   */
  predicate Inv(s: State) {
    && Consistent(s)
    && Debounce.Valid(s.typing)
    && (s.connected ==> s.roomId != "")
  }

  lemma InitialInv()
    ensures Inv(Initial)
  {
  }

  lemma StepPreservesInv(s: State, e: Event)
    requires Inv(s)
    ensures Inv(Step(s, e))
  {
  }

  /** Every reachable state keeps the invariant. */
  lemma {:induction false} RunPreservesInv(s: State, es: seq<Event>)
    requires Inv(s)
    ensures Inv(Run(s, es))
    decreases |es|
  {
    if |es| > 0 {
      StepPreservesInv(s, es[0]);
      RunPreservesInv(Step(s, es[0]), es[1..]);
    }
  }

  /** Over any run the message log grows by exactly the delivered messages, in arrival order. */
  lemma {:induction false} RunMessages(s: State, es: seq<Event>)
    ensures Run(s, es).chat.messages == s.chat.messages + Dispatch.MessagesCarried(InboundOf(es))
    decreases |es|
  {
    if |es| > 0 {
      var head := if es[0].Delivered? then [es[0].inbound] else [];
      var t := Step(s, es[0]);
      var rest := InboundOf(es[1..]);
      RunCons(s, es);
      InboundOfCons(es);
      StepMessages(s, es[0]);
      RunMessages(t, es[1..]);
      Dispatch.MessagesCarriedAppend(head, rest);
      calc {
        Run(s, es).chat.messages;
        Run(t, es[1..]).chat.messages;
        t.chat.messages + Dispatch.MessagesCarried(rest);
        s.chat.messages + Dispatch.MessagesCarried(head) + Dispatch.MessagesCarried(rest);
        s.chat.messages + Dispatch.MessagesCarried(head + rest);
        s.chat.messages + Dispatch.MessagesCarried(InboundOf(es));
      }
    }
  }

  lemma RunCons(s: State, es: seq<Event>)
    requires |es| > 0
    ensures Run(s, es) == Run(Step(s, es[0]), es[1..])
  {
  }

  lemma InboundOfCons(es: seq<Event>)
    requires |es| > 0
    ensures InboundOf(es) == (if es[0].Delivered? then [es[0].inbound] else []) + InboundOf(es[1..])
  {
  }

  /** One step appends the message of a delivered message event and nothing otherwise. */
  lemma StepMessages(s: State, e: Event)
    ensures Step(s, e).chat.messages
      == s.chat.messages + Dispatch.MessagesCarried(if e.Delivered? then [e.inbound] else [])
  {
    if e.Delivered? {
      assert [e.inbound][1..] == [];
    }
  }

  /** While connected, only the close notification changes the connection, the nickname or the room id. */
  lemma ConnectedSessionStable(s: State, e: Event)
    requires s.connected
    ensures !e.ConnectionClosed? ==>
      var r := Step(s, e);
      r.connected && r.nickname == s.nickname && r.roomId == s.roomId
    ensures e.ConnectionClosed? ==> !Step(s, e).connected
  {
  }

  /** Over any run without a close, a connected session stays in its room under its nickname. */
  lemma {:induction false} RunStaysInRoom(s: State, es: seq<Event>)
    requires s.connected
    requires forall i :: 0 <= i < |es| ==> !es[i].ConnectionClosed?
    ensures Run(s, es).connected
    ensures Run(s, es).roomId == s.roomId && Run(s, es).nickname == s.nickname
    decreases |es|
  {
    if |es| > 0 {
      ConnectedSessionStable(s, es[0]);
      assert !es[0].ConnectionClosed?;
      assert forall i :: 0 <= i < |es[1..]| ==> es[1..][i] == es[i + 1];
      RunStaysInRoom(Step(s, es[0]), es[1..]);
    }
  }

  /** After the close notification no typing indicator is rendered, whatever list is kept. */
  lemma ClosedSessionHidesIndicator(s: State)
    ensures Indicator.IndicatorText(Close(s).connected, Close(s).typingUsers) == None
  {
  }

  /** Clicks on a disabled or hidden control, and edits of hidden inputs, change nothing. */
  lemma HiddenControlsInert(s: State, e: Event)
    ensures e.ClickCreate? && (s.connected || s.nickname == "") ==> Step(s, e) == s
    ensures e.ClickJoin? && (s.connected || s.nickname == "" || s.roomId == "") ==> Step(s, e) == s
    ensures (e.EditNickname? || e.EditRoomId?) && s.connected ==> Step(s, e) == s
    ensures (e.TypeMessage? || e.ClickSend?) && !s.connected ==> Step(s, e) == s
  {
  }

  /** Once the transport has closed, keystrokes send no typing signal, as the handler checks the flag. */
  lemma ClosedSessionSendsNoTyping(s: State, text: string)
    ensures EditMessage(Close(s), text).typing == s.typing
  {
  }

  /* Alice's client: she creates room "R1", Bob appears in the roster, his message arrives, he starts typing and then stops. */

  const AliceUser := User(Some("a"), Some(UserSettings(Some("Alice"))))
  const BobUser := User(Some("b"), Some(UserSettings(Some("Bob"))))
  const Hello := ChatMessage(Some("bob.png"), Some("Bob"), Some("hello"))

  function AliceInRoom(): State {
    Step(Step(Initial, EditNickname("Alice")), ClickCreate(RoomCreated(Some("R1"))))
  }

  function AliceHasMessage(): State {
    Step(Step(AliceInRoom(), Delivered(UserListEvent(Some([AliceUser, BobUser])))), Delivered(MessageEvent(Some(Hello))))
  }

  function BobTyping(): State {
    Step(AliceHasMessage(), Delivered(TypingPresenceEvent(Some(TypingPresence(Some(true), Some(["b"]))))))
  }

  function BobStopped(): State {
    Step(BobTyping(), Delivered(TypingPresenceEvent(Some(TypingPresence(Some(false), Some([]))))))
  }

  lemma AliceCreatesRoom()
    ensures AliceInRoom().connected && AliceInRoom().roomId == "R1"
    ensures AliceInRoom().requests == [CreateChatRoom("Alice")]
  {
  }

  lemma AliceReceivesHello()
    ensures AliceHasMessage().chat.messages == [Hello]
    ensures AliceHasMessage().chat.roster == [AliceUser, BobUser]
    ensures AliceHasMessage().connected
  {
    AliceCreatesRoom();
  }

  /** Bob's connection id "b" maps to his nickname in the roster [Alice, Bob]. */
  lemma BobsTypingName()
    ensures Presence.TypingNicknames([AliceUser, BobUser], ["b"]) == ["Bob"]
  {
    var roster := [AliceUser, BobUser];
    assert Presence.FirstMatch(roster, "b") == Some(1) by {
      assert !Presence.HasId(AliceUser, "b");
      assert Presence.FirstMatch(roster[1..], "b") == Some(0);
    }
    assert ["b"][1..] == [];
  }

  lemma BobTypingState()
    ensures BobTyping().typingUsers == Some(["Bob"])
    ensures BobTyping().connected
  {
    AliceReceivesHello();
    BobsTypingName();
  }

  lemma AliceSeesBobTyping()
    ensures BobTyping().typingUsers == Some(["Bob"])
    ensures Indicator.IndicatorText(BobTyping().connected, BobTyping().typingUsers) == Some("Bob is typing...")
  {
    BobTypingState();
    assert Indicator.Join(["Bob"], ", ") == "Bob";
    assert "Bob" + " is typing..." == "Bob is typing...";
  }

  lemma AliceSeesBobStop()
    ensures BobStopped().typingUsers == Some([])
    ensures Indicator.IndicatorText(BobStopped().connected, BobStopped().typingUsers) == None
  {
  }
}
