/** The chat end to end: a message sent from the conversation screen is relayed by the
    server's consumer to every socket of the chat's group, comes back to the sender as
    an echo the screen ignores, and reaches every other member once; a chat created by
    a poke is one both users can open a socket to. */
module Pipeline {
  import opened Wrappers
  import opened Text
  import Json
  import Decimal
  import Routing
  import Store
  import ChatConversation
  import Consumers
  import Views

  /** The frame every socket of the chat's group receives after a client on the
      connection of `user` sends `text` under `messageId`; `None` when the consumer
      drops the frame because its text is empty. */
  function Delivered(text: Option<string>, messageId: string, user: Consumers.ScopeUser): (d: Option<Json.Object>)
    requires user.Authenticated?
    ensures d.Some? <==> Truthy(text)
    ensures d.Some? ==>
      && Json.Get(d.value, "message") == text
      && Json.Get(d.value, "messageId") == Some(messageId)
      && Json.Get(d.value, "sender") == Some(Decimal.Show(user.pk))
      && Json.Get(d.value, "sender_username") == Some(user.username)
  {
    match Consumers.Relay(Consumers.Object(ChatConversation.Outbound(text, messageId)), user)
    case Broadcast(event) => Some(Consumers.SocketFrame(event))
    case _ => None
  }

  /** The sender's own screen: after an open-socket send, the echo the server returns
      leaves the transcript as the send left it, so the message is shown once. */
  lemma EchoNotDuplicated(prev: ChatConversation.Transcript, newMessages: seq<ChatConversation.Message>,
                          messageId: string, user: Consumers.ScopeUser, freshId: string)
    requires |newMessages| > 0 && user.Authenticated?
    ensures var t := ChatConversation.Append(prev, ChatConversation.Stamped(newMessages, messageId));
      var d := Delivered(newMessages[0].text, messageId, user);
      d.Some? ==> ChatConversation.Merge(t, d, freshId) == t
  {
    var d := Delivered(newMessages[0].text, messageId, user);
    if d.Some? {
      ChatConversation.EchoOfSendIgnored(prev, newMessages, messageId, d.value, freshId);
    }
  }

  /** Another member's screen, which does not yet hold the message: it gains exactly
      one entry with the sent id and text, attributed to the sender's key and shown
      under the sender's username (the key when the username is empty); a second
      delivery of the same frame changes nothing. */
  lemma PeerReceivesOnce(peer: ChatConversation.Transcript, text: Option<string>, messageId: string,
                         user: Consumers.ScopeUser, fresh1: string, fresh2: string)
    requires user.Authenticated? && Truthy(text) && messageId != ""
    requires !ChatConversation.HasId(peer, Some(messageId))
    ensures var d := Delivered(text, messageId, user);
      var once := ChatConversation.Merge(peer, d, fresh1);
      var name := if user.username != "" then user.username else Decimal.Show(user.pk);
      && once == ChatConversation.Append(peer, [ChatConversation.Message(messageId, text,
                   ChatConversation.Author(Some(Decimal.Show(user.pk)), Some(name)))])
      && ChatConversation.Merge(once, d, fresh2) == once
  {
    var d := Delivered(text, messageId, user);
    ChatConversation.MergeIdempotent(peer, d.value, fresh1, fresh2);
  }

  /** The chat a poke returns can be opened by both users: its id, as the poke
      response carries it, is captured by the socket route as itself, and the
      consumer admits either user to it. When the poke created the chat, every other
      user is turned away. */
  lemma PokedChatJoinable(t: Views.ChatTable, me: Store.UserId, target: Store.UserId,
                          myName: string, targetName: string, other: Consumers.ScopeUser)
    requires Views.Counted(t)
    ensures var p := Views.GetOrCreateChat(t, me, target);
      var id := Decimal.Show(p.chat);
      && Routing.ChatRoute(Routing.RoutePath(id)) == Some(id)
      && Consumers.UserIsAllowed(p.table.chats, id, Consumers.Authenticated(me, myName)) == Consumers.Allowed
      && Consumers.UserIsAllowed(p.table.chats, id, Consumers.Authenticated(target, targetName)) == Consumers.Allowed
      && ((forall c :: !Views.Shares(t.chats, c, me, target)) && (other.Authenticated? ==> other.pk != me && other.pk != target)
          ==> Consumers.UserIsAllowed(p.table.chats, id, other) == Consumers.Denied)
  {
    var p := Views.GetOrCreateChat(t, me, target);
    var id := Decimal.Show(p.chat);
    assert Routing.ValidChatId(id) by {
      forall i | 0 <= i < |id| ensures Routing.IsIdChar(id[i]) {
        assert Decimal.IsDigit(id[i]);
      }
    }
    Routing.RouteCapturesValidIds(id);
    Decimal.ShowRoundTrip(p.chat);
  }
}
