/** The chat list screen: the chats shown under each of the three filter tabs, and
    the "New" badge. */
module ChatList {
  /** A row of the chat list. */
  datatype ChatItem = ChatItem(id: string, name: string, lastMessage: string, unread: bool, blocked: bool)

  /** The selected tab. */
  datatype Filter = All | Unread | Blocked

  /** The predicate given to `filter`. */
  predicate Keeps(filter: Filter, chat: ChatItem) {
    match filter
    case All => !chat.blocked
    case Unread => chat.unread && !chat.blocked
    case Blocked => chat.blocked
  }

  /** `filteredChats`: the chats the selected tab keeps, in list order. */
  function Filtered(chats: seq<ChatItem>, filter: Filter): (r: seq<ChatItem>)
    ensures |r| <= |chats|
    ensures forall c :: c in r <==> c in chats && Keeps(filter, c)
  {
    if chats == [] then []
    else
      var rest := Filtered(chats[1..], filter);
      assert forall c :: c in chats <==> c == chats[0] || c in chats[1..];
      if Keeps(filter, chats[0]) then [chats[0]] + rest else rest
  }

  /** Filtering keeps the list order: filtering two lists one after the other is
      filtering each and joining the results. */
  lemma {:induction false} FilteredAppend(a: seq<ChatItem>, b: seq<ChatItem>, filter: Filter)
    ensures Filtered(a + b, filter) == Filtered(a, filter) + Filtered(b, filter)
  {
    if a != [] {
      var ab := a + b;
      assert ab[0] == a[0] && ab[1..] == a[1..] + b;
      FilteredAppend(a[1..], b, filter);
    } else {
      assert a + b == b;
    }
  }

  /** A single chat is shown exactly when the tab keeps it. */
  lemma FilteredSingle(c: ChatItem, filter: Filter)
    ensures Filtered([c], filter) == if Keeps(filter, c) then [c] else []
  {
    assert [c][1..] == [];
  }

  /** The `all` and `blocked` tabs split the list between them, and the `unread` tab
      shows only chats the `all` tab shows. */
  lemma TabsPartition(chats: seq<ChatItem>, c: ChatItem)
    ensures c in chats <==> c in Filtered(chats, All) || c in Filtered(chats, Blocked)
    ensures !(c in Filtered(chats, All) && c in Filtered(chats, Blocked))
    ensures c in Filtered(chats, Unread) ==> c in Filtered(chats, All)
  {
  }

  /** The number of chats the `all` and `blocked` tabs show adds up to the list's
      length. */
  lemma {:induction false} TabsCount(chats: seq<ChatItem>)
    ensures |Filtered(chats, All)| + |Filtered(chats, Blocked)| == |chats|
  {
    if chats != [] {
      TabsCount(chats[1..]);
    }
  }

  /** The "New" badge: on unread rows, and only under the `all` tab. */
  predicate ShowsBadge(item: ChatItem, filter: Filter) {
    item.unread && filter == All
  }

  /** A row with the badge is an unread row shown under the `all` tab. */
  lemma BadgeOnlyOnUnreadShown(chats: seq<ChatItem>, filter: Filter, item: ChatItem)
    requires item in Filtered(chats, filter) && ShowsBadge(item, filter)
    ensures item in chats && item.unread && !item.blocked && filter == All
  {
  }
}
