/** The conversation screen of the mobile client: the transcript of messages, the
    history load, the merge of inbound socket frames with echo suppression, the
    optimistic send, and the socket URL. */
module ChatConversation {
  import opened Wrappers
  import opened Text
  import Json
  import Routing

  /** `IMessage.user`: the author's id and display name. */
  datatype Author = Author(id: Option<string>, name: Option<string>)

  /** One transcript entry (`IMessage` without its timestamp). */
  datatype Message = Message(id: string, text: Option<string>, user: Author)

  type Transcript = seq<Message>

  /** One row of the chat-history endpoint; `id` and `sender` are the texts their
      `toString()` yields. */
  datatype HistoryRow = HistoryRow(id: string, message: string, sender: string, senderUsername: Option<string>)

  function Ids(t: Transcript): seq<string> {
    seq(|t|, i requires 0 <= i < |t| => t[i].id)
  }

  /** No two transcript entries share an id. */
  predicate Distinct(s: seq<string>) {
    forall i, j :: 0 <= i < j < |s| ==> s[i] != s[j]
  }

  /** No two transcript entries share an id. */
  predicate UniqueIds(t: Transcript) {
    Distinct(Ids(t))
  }

  /** `prevMessages.some(msg => msg._id === incomingMessageId)`. */
  predicate HasId(t: Transcript, id: Option<string>) {
    exists m :: m in t && Some(m.id) == id
  }

  /** `GiftedChat.append(previous, incoming)`: the incoming messages are put in front. */
  function Append(prev: Transcript, incoming: seq<Message>): (t: Transcript)
    ensures |t| == |prev| + |incoming|
    ensures multiset(t) == multiset(prev) + multiset(incoming)
  {
    incoming + prev
  }

  /** The author name shown: `sender_username || sender`. */
  function DisplayName(username: Option<string>, sender: Option<string>): (name: Option<string>)
    ensures Truthy(username) ==> name == username
    ensures !Truthy(username) ==> name == sender
  {
    Or(username, sender)
  }

  /** One history row as a transcript entry. */
  function FromRow(row: HistoryRow): Message {
    Message(row.id, Some(row.message),
            Author(Some(row.sender), DisplayName(row.senderUsername, Some(row.sender))))
  }

  /** The history load: `data.map(...)`, which replaces the transcript. */
  function FromHistory(rows: seq<HistoryRow>): (t: Transcript)
    ensures |t| == |rows|
    ensures forall i :: 0 <= i < |rows| ==> t[i] == FromRow(rows[i])
  {
    seq(|rows|, i requires 0 <= i < |rows| => FromRow(rows[i]))
  }

  function RowIds(rows: seq<HistoryRow>): seq<string> {
    seq(|rows|, i requires 0 <= i < |rows| => rows[i].id)
  }

  /** The loaded transcript keeps every row's id, text and sender, and shows the
      sender id as the name when the username is missing or empty. */
  lemma HistoryEntries(rows: seq<HistoryRow>, i: nat)
    requires i < |rows|
    ensures var m := FromHistory(rows)[i];
      && m.id == rows[i].id && m.text == Some(rows[i].message)
      && m.user.id == Some(rows[i].sender)
      && m.user.name == (if Truthy(rows[i].senderUsername) then rows[i].senderUsername
                         else Some(rows[i].sender))
  {
  }

  /** The loaded transcript has unique ids exactly when the history rows do. */
  lemma HistoryUniqueIds(rows: seq<HistoryRow>)
    ensures UniqueIds(FromHistory(rows)) <==> Distinct(RowIds(rows))
  {
    assert Ids(FromHistory(rows)) == RowIds(rows);
  }

  /** The entry built from an inbound frame that is not a duplicate: the frame's
      `messageId`, or the fresh id when that is missing or empty. */
  function Arrived(data: Json.Object, freshId: string): (m: Message)
    ensures Truthy(Json.Get(data, "messageId")) ==> Some(m.id) == Json.Get(data, "messageId")
    ensures !Truthy(Json.Get(data, "messageId")) ==> m.id == freshId
    ensures m.text == Json.Get(data, "message") && m.user.id == Json.Get(data, "sender")
    ensures Truthy(Json.Get(data, "sender_username")) ==> m.user.name == Json.Get(data, "sender_username")
    ensures !Truthy(Json.Get(data, "sender_username")) ==> m.user.name == Json.Get(data, "sender")
  {
    var incomingId := Json.Get(data, "messageId");
    var sender := Json.Get(data, "sender");
    Message(if Truthy(incomingId) then incomingId.value else freshId,
            Json.Get(data, "message"),
            Author(sender, DisplayName(Json.Get(data, "sender_username"), sender)))
  }

  /** The `onmessage` handler's state update. `frame` is the parsed frame, `None` when
      `JSON.parse` throws; `freshId` is what `uuidv4()` would return. */
  function Merge(prev: Transcript, frame: Option<Json.Object>, freshId: string): (next: Transcript)
    ensures frame.None? ==> next == prev
    ensures frame.Some? && HasId(prev, Json.Get(frame.value, "messageId")) ==> next == prev
    ensures frame.Some? && !HasId(prev, Json.Get(frame.value, "messageId")) ==>
      next == Append(prev, [Arrived(frame.value, freshId)])
  {
    match frame
    case None => prev
    case Some(data) =>
      if HasId(prev, Json.Get(data, "messageId")) then prev
      else Append(prev, [Arrived(data, freshId)])
  }

  /** A frame that is not a duplicate adds exactly one entry, carrying the frame's
      text and sender, and keeps every earlier entry. */
  lemma MergeAddsOne(prev: Transcript, data: Json.Object, freshId: string)
    requires !HasId(prev, Json.Get(data, "messageId"))
    ensures var next := Merge(prev, Some(data), freshId);
      && multiset(next) == multiset(prev) + multiset{Arrived(data, freshId)}
      && Arrived(data, freshId).text == Json.Get(data, "message")
      && Arrived(data, freshId).user.id == Json.Get(data, "sender")
  {
  }

  /** With a fresh id from the oracle, merging keeps the transcript's ids unique. */
  lemma MergeKeepsIdsUnique(prev: Transcript, frame: Option<Json.Object>, freshId: string)
    requires UniqueIds(prev) && !HasId(prev, Some(freshId))
    ensures UniqueIds(Merge(prev, frame, freshId))
  {
    if frame.Some? && !HasId(prev, Json.Get(frame.value, "messageId")) {
      var m := Arrived(frame.value, freshId);
      var next := [m] + prev;
      assert !HasId(prev, Some(m.id));
      forall i, j | 0 <= i < j < |next| ensures Ids(next)[i] != Ids(next)[j] {
        if i == 0 {
          assert next[j] in prev;
        } else {
          assert Ids(next)[i] == Ids(prev)[i - 1] && Ids(next)[j] == Ids(prev)[j - 1];
        }
      }
    }
  }

  /** Receiving the same identified frame twice changes the transcript once. */
  lemma MergeIdempotent(prev: Transcript, data: Json.Object, fresh1: string, fresh2: string)
    requires Truthy(Json.Get(data, "messageId"))
    ensures var once := Merge(prev, Some(data), fresh1);
      Merge(once, Some(data), fresh2) == once
  {
    var id := Json.Get(data, "messageId");
    var once := Merge(prev, Some(data), fresh1);
    if !HasId(prev, id) {
      var m := Arrived(data, fresh1);
      assert once[0] == m && Some(m.id) == id;
      assert HasId(once, id);
    }
  }

  /** Frames received one after the other, each with the id the oracle gives for it. */
  function MergeAll(t: Transcript, frames: seq<Option<Json.Object>>, freshIds: seq<string>): Transcript
    requires |freshIds| == |frames|
    decreases |frames|
  {
    if frames == [] then t
    else MergeAll(Merge(t, frames[0], freshIds[0]), frames[1..], freshIds[1..])
  }

  /** The oracle's ids are pairwise distinct, and none of them is already in the
      transcript or carried by one of the frames. */
  predicate FreshFor(t: Transcript, frames: seq<Option<Json.Object>>, freshIds: seq<string>) {
    && |freshIds| == |frames|
    && Distinct(freshIds)
    && (forall k :: 0 <= k < |freshIds| ==> !HasId(t, Some(freshIds[k])))
    && (forall k, l :: 0 <= k < |freshIds| && 0 <= l < |frames| && frames[l].Some? ==>
          Json.Get(frames[l].value, "messageId") != Some(freshIds[k]))
  }

  /** Whatever sequence of frames arrives, no id appears twice in the transcript. */
  lemma {:induction false} MergeAllKeepsIdsUnique(t: Transcript, frames: seq<Option<Json.Object>>, freshIds: seq<string>)
    requires UniqueIds(t) && FreshFor(t, frames, freshIds)
    ensures UniqueIds(MergeAll(t, frames, freshIds))
    decreases |frames|
  {
    if frames != [] {
      MergeKeepsIdsUnique(t, frames[0], freshIds[0]);
      var t' := Merge(t, frames[0], freshIds[0]);
      forall k | 0 <= k < |freshIds[1..]| ensures !HasId(t', Some(freshIds[1..][k])) {
        var f := freshIds[k + 1];
        assert f != freshIds[0] && !HasId(t, Some(f));
        if frames[0].Some? && !HasId(t, Json.Get(frames[0].value, "messageId")) {
          var m := Arrived(frames[0].value, freshIds[0]);
          assert t' == [m] + t;
          assert Json.Get(frames[0].value, "messageId") != Some(f);
          assert m.id != f;
          forall x | x in t' ensures x.id != f {
            if x != m { assert x in t; }
          }
        }
      }
      MergeAllKeepsIdsUnique(t', frames[1..], freshIds[1..]);
    }
  }

  /** What `onSend` appends when the socket is open: the first new message now
      carries the generated id (the transmitted object is the appended object). */
  function Stamped(newMessages: seq<Message>, messageId: string): (s: seq<Message>)
    requires |newMessages| > 0
    ensures |s| == |newMessages| && s[0].id == messageId
    ensures s[0].text == newMessages[0].text && s[0].user == newMessages[0].user
    ensures forall i :: 1 <= i < |s| ==> s[i] == newMessages[i]
  {
    [newMessages[0].(id := messageId)] + newMessages[1..]
  }

  /** `JSON.stringify({message: text, messageId})`, before serialisation; an
      undefined text leaves the key out. */
  function Outbound(text: Option<string>, messageId: string): (frame: Json.Object)
    ensures Json.Get(frame, "messageId") == Some(messageId)
    ensures Json.Get(frame, "message") == text
    ensures frame.Keys <= {"message", "messageId"}
  {
    (if text.Some? then map["message" := Json.Str(text.value)] else map[])
    + map["messageId" := Json.Str(messageId)]
  }

  /** After an open-socket send, the echo of the sent frame (any frame carrying the
      generated id) leaves the transcript unchanged. */
  lemma EchoOfSendIgnored(prev: Transcript, newMessages: seq<Message>, messageId: string,
                          echo: Json.Object, freshId: string)
    requires |newMessages| > 0
    requires Json.Get(echo, "messageId") == Some(messageId)
    ensures var t := Append(prev, Stamped(newMessages, messageId));
      Merge(t, Some(echo), freshId) == t
  {
    var t := Append(prev, Stamped(newMessages, messageId));
    assert t[0].id == messageId;
    assert HasId(t, Some(messageId));
  }

  /** How `onSend` ended: transmitted, alerted that the socket is not open, or threw
      because `newMessages[0]` is undefined. */
  datatype SendStatus = Transmitted | NotOpen | NoMessage

  /** The socket effect's decision: no connection without a truthy chat id, then none
      without a truthy token (which also sends the user to the login screen). */
  datatype SocketPlan = NoChat | NotLoggedIn | Connect(url: string)

  /** `BACKEND_URL.replace(/^https?:\/\//, '')`. */
  function StripScheme(url: string): (host: string)
    ensures StartsWith(url, "https://") ==> url == "https://" + host
    ensures !StartsWith(url, "https://") && StartsWith(url, "http://") ==> url == "http://" + host
    ensures !StartsWith(url, "https://") && !StartsWith(url, "http://") ==> host == url
  {
    if StartsWith(url, "https://") then url[8..]
    else if StartsWith(url, "http://") then url[7..]
    else url
  }

  /** `wss` for a backend URL starting with `https`, otherwise `ws`. */
  function SocketScheme(backendUrl: string): string {
    if StartsWith(backendUrl, "https") then "wss" else "ws"
  }

  /** The socket URL `<scheme>://<host>/ws/chats/<chat_id>/?token=<token>`. */
  function SocketPlanFor(backendUrl: string, chatId: Option<string>, token: Option<string>): (p: SocketPlan)
    ensures !Truthy(chatId) <==> p == NoChat
    ensures Truthy(chatId) && !Truthy(token) <==> p == NotLoggedIn
    ensures p.Connect? ==>
      p.url == SocketScheme(backendUrl) + "://" + StripScheme(backendUrl) + "/"
               + Routing.RoutePath(chatId.value) + "?token=" + token.value
  {
    if !Truthy(chatId) then NoChat
    else if !Truthy(token) then NotLoggedIn
    else
      Connect(SocketScheme(backendUrl) + "://" + StripScheme(backendUrl) + "/"
              + Routing.RoutePath(chatId.value) + "?token=" + token.value)
  }

  /** For an `https://` backend the socket URL is `wss://` on the same host; for an
      `http://` backend it is `ws://` on the same host. */
  lemma SocketUrlScheme(host: string)
    ensures SocketScheme("https://" + host) == "wss" && StripScheme("https://" + host) == host
    ensures SocketScheme("http://" + host) == "ws" && StripScheme("http://" + host) == host
  {
    var s := "https://" + host;
    assert StartsWith(s, "https") && StartsWith(s, "https://") && s[8..] == host;
    var p := "http://" + host;
    assert p[4] == ':';
    assert !StartsWith(p, "https://") && !StartsWith(p, "https");
    assert StartsWith(p, "http://") && p[7..] == host;
  }

  /** The state of one open conversation screen: the transcript and the frames handed
      to `socket.send`. */
  class Conversation {
    var messages: Transcript
    var sent: seq<Json.Object>

    constructor ()
      ensures messages == [] && sent == []
    {
      messages := [];
      sent := [];
    }

    /** `setMessages(loadedMessages)`. */
    method LoadHistory(rows: seq<HistoryRow>)
      modifies this
      ensures messages == FromHistory(rows)
      ensures sent == old(sent)
    {
      messages := FromHistory(rows);
    }

    /** `ws.onmessage`. */
    method OnMessage(frame: Option<Json.Object>, freshId: string)
      modifies this
      ensures messages == Merge(old(messages), frame, freshId)
      ensures sent == old(sent)
    {
      messages := Merge(messages, frame, freshId);
    }

    /** `onSend`: append optimistically, then transmit the first new message with the
        generated id `messageId` only if the socket is open. */
    method OnSend(newMessages: seq<Message>, socketOpen: bool, messageId: string)
      returns (status: SendStatus)
      modifies this
      ensures status == if !socketOpen then NotOpen
                        else if newMessages == [] then NoMessage
                        else Transmitted
      ensures status == Transmitted ==>
        && messages == Append(old(messages), Stamped(newMessages, messageId))
        && sent == old(sent) + [Outbound(newMessages[0].text, messageId)]
      ensures status != Transmitted ==>
        messages == Append(old(messages), newMessages) && sent == old(sent)
    {
      if !socketOpen {
        messages := Append(messages, newMessages);
        status := NotOpen;
      } else if newMessages == [] {
        status := NoMessage;
      } else {
        var outputMessage := newMessages[0].(id := messageId);
        messages := Append(messages, [outputMessage] + newMessages[1..]);
        sent := sent + [Outbound(outputMessage.text, messageId)];
        status := Transmitted;
      }
    }
  }
}
