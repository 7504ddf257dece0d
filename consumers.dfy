/** The chat server's WebSocket consumer: admission of a connection to a chat,
    relay of a client frame to the chat's group, and delivery of a group event to
    the socket. The channel layer, the database write and the socket are recorded as
    effects, in the order the consumer performs them. */
module Consumers {
  import opened Wrappers
  import opened Text
  import Json
  import Decimal
  import Store
  import Routing

  /** `scope["user"]` as the authentication middleware leaves it. */
  datatype ScopeUser = Anonymous | Authenticated(pk: Store.UserId, username: string)

  /** `json.loads(text_data)`: not JSON, JSON that is not an object, or an object. */
  datatype Decoded = NotJson | NotObject | Object(fields: Json.Object)

  /** The event handed to `group_send` (its `type` is always `chat_message`). A
      `None` username stands for an event without that key. */
  datatype ChatEvent = ChatEvent(message: string, sender: string,
                                 senderUsername: Option<string>, messageId: Option<string>)

  datatype Effect =
    | Close
    | Accept
    | GroupAdd(group: string)
    | GroupDiscard(group: string)
    | Save(chat: string, sender: Store.UserId, message: string)
    | GroupSend(group: string, event: ChatEvent)
    | Send(frame: Json.Object)

  /** What `receive` did with a frame: dropped it as invalid JSON, raised on a JSON
      value without `.get`, dropped it as empty, or broadcast an event. */
  datatype Relayed = InvalidJson | Crashed | EmptyMessage | Broadcast(event: ChatEvent)

  /** `Chat.objects.get(pk=chat_id)` on the URL's text: a chat, `DoesNotExist`, or the
      `ValueError` Django raises when the text is not an integer. */
  datatype ChatLookup = Found(participants: set<Store.UserId>) | DoesNotExist | BadKey

  /** The end of `connect`: joined and accepted, closed, or raised out of
      `user_is_allowed`. */
  datatype Admission = Allowed | Denied | Raised

  function LookupChat(chats: map<Store.ChatId, set<Store.UserId>>, chatId: string): (r: ChatLookup)
    ensures r.BadKey? <==> Decimal.ParseInt(chatId).None?
    ensures r.Found? <==> exists k: Store.ChatId :: Decimal.ParseInt(chatId) == Some(k) && k in chats
    ensures r.Found? ==> r.participants == chats[Decimal.ParseInt(chatId).value]
  {
    match Decimal.ParseInt(chatId)
    case None => BadKey
    case Some(k) => if k >= 0 && k in chats then Found(chats[k]) else DoesNotExist
  }

  /** `user_is_allowed`: the chat exists and the user, whose key must be an integer,
      is one of its participants. */
  function UserIsAllowed(chats: map<Store.ChatId, set<Store.UserId>>, chatId: string, user: ScopeUser): (r: Admission)
    ensures r == Allowed <==>
      user.Authenticated? && exists k: Store.ChatId ::
        Decimal.ParseInt(chatId) == Some(k) && k in chats && user.pk in chats[k]
    ensures r == Raised <==> Decimal.ParseInt(chatId).None?
    ensures user.Anonymous? ==> r != Allowed
  {
    match LookupChat(chats, chatId)
    case BadKey => Raised
    case DoesNotExist => Denied
    case Found(p) => if user.Authenticated? && user.pk in p then Allowed else Denied
  }

  /** `receive`'s decision for one frame from an authenticated connection: the event
      it broadcasts carries the frame's `message` and `messageId` unchanged and the
      connection's own user as sender. */
  function Relay(decoded: Decoded, user: ScopeUser): (r: Relayed)
    requires user.Authenticated?
    ensures decoded.NotJson? <==> r == InvalidJson
    ensures decoded.NotObject? <==> r == Crashed
    ensures r == EmptyMessage <==> decoded.Object? && !Truthy(Json.Get(decoded.fields, "message"))
    ensures r.Broadcast? ==>
      && Json.Get(decoded.fields, "message") == Some(r.event.message)
      && r.event.messageId == Json.Get(decoded.fields, "messageId")
      && r.event.sender == Decimal.Show(user.pk)
      && r.event.senderUsername == Some(user.username)
  {
    match decoded
    case NotJson => InvalidJson
    case NotObject => Crashed
    case Object(data) =>
      var message := Json.Get(data, "message");
      var messageId := Json.Get(data, "messageId");
      if !Truthy(message) then EmptyMessage
      else Broadcast(ChatEvent(message.value, Decimal.Show(user.pk), Some(user.username), messageId))
  }

  /** Only `message` and `messageId` of a frame matter; a `sender` or any other field
      the client puts in the frame changes nothing. */
  lemma RelayReadsOnlyMessageAndId(a: Json.Object, b: Json.Object, user: ScopeUser)
    requires user.Authenticated?
    requires Json.Get(a, "message") == Json.Get(b, "message")
    requires Json.Get(a, "messageId") == Json.Get(b, "messageId")
    ensures Relay(Object(a), user) == Relay(Object(b), user)
  {
  }

  /** `chat_message`'s frame: `message`, `sender` and `messageId` copied, and
      `sender_username` defaulting to `sender` when the event has none. */
  function SocketFrame(event: ChatEvent): (frame: Json.Object)
    ensures frame.Keys == {"message", "sender", "sender_username", "messageId"}
    ensures Json.Get(frame, "message") == Some(event.message)
    ensures Json.Get(frame, "sender") == Some(event.sender)
    ensures Json.Get(frame, "sender_username") == Some(event.senderUsername.GetOr(event.sender))
    ensures Json.Get(frame, "messageId") == event.messageId
  {
    map["message" := Json.Str(event.message),
        "sender" := Json.Str(event.sender),
        "sender_username" := Json.Str(event.senderUsername.GetOr(event.sender)),
        "messageId" := Json.FromOption(event.messageId)]
  }

  /** One WebSocket connection's consumer. */
  class ChatConsumer {
    const user: ScopeUser
    var chatId: string
    var groupName: string
    var accepted: bool
    var effects: seq<Effect>

    ghost predicate Valid()
      reads this
    {
      accepted ==> user.Authenticated?
    }

    constructor (user: ScopeUser)
      ensures Valid() && this.user == user && !accepted && effects == []
    {
      this.user := user;
      chatId, groupName := "", "";
      accepted := false;
      effects := [];
    }

    /** `connect`: remember the chat and its group, then close for an anonymous user
        or a non-participant, otherwise join the group and accept. */
    method Connect(routeChatId: string, chats: map<Store.ChatId, set<Store.UserId>>)
      returns (admission: Admission)
      requires Routing.ValidChatId(routeChatId)
      modifies this
      ensures Valid()
      ensures chatId == routeChatId && groupName == "chat_" + routeChatId
      ensures admission == if user.Anonymous? then Denied else UserIsAllowed(chats, routeChatId, user)
      ensures accepted == (admission == Allowed)
      ensures effects == old(effects) + match admission
        case Allowed => [GroupAdd(groupName), Accept]
        case Denied => [Close]
        case Raised => []
    {
      chatId := routeChatId;
      groupName := "chat_" + chatId;
      accepted := false;
      if user.Anonymous? {
        effects := effects + [Close];
        admission := Denied;
        return;
      }
      admission := UserIsAllowed(chats, chatId, user);
      if admission == Raised {
        return;
      }
      if admission == Denied {
        effects := effects + [Close];
        return;
      }
      effects := effects + [GroupAdd(groupName)];
      effects := effects + [Accept];
      accepted := true;
    }

    /** `disconnect`: leave the group. */
    method Disconnect()
      modifies this`effects
      ensures effects == old(effects) + [GroupDiscard(groupName)]
    {
      effects := effects + [GroupDiscard(groupName)];
    }

    /** `receive`: a frame that is not JSON or has a missing or empty `message` is
        dropped with no effect; otherwise the message is saved once and then
        broadcast once. */
    method Receive(decoded: Decoded) returns (outcome: Relayed)
      requires Valid() && accepted
      modifies this`effects
      ensures outcome == Relay(decoded, user)
      ensures effects == old(effects) +
        if outcome.Broadcast?
        then [Save(chatId, user.pk, outcome.event.message), GroupSend(groupName, outcome.event)]
        else []
    {
      outcome := Relay(decoded, user);
      if !outcome.Broadcast? {
        return;
      }
      effects := effects + [Save(chatId, user.pk, outcome.event.message)];
      effects := effects + [GroupSend(groupName, outcome.event)];
    }

    /** `chat_message`: forward a group event to this socket. */
    method ChatMessage(event: ChatEvent)
      modifies this`effects
      ensures effects == old(effects) + [Send(SocketFrame(event))]
    {
      effects := effects + [Send(SocketFrame(event))];
    }
  }
}
