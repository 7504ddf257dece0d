/** The profile and poke endpoints: `PokeView.post`, which finds the chat two users
    share or creates one, and the profile view set's `retrieve` and `partial_update`,
    which serve only the caller's own profile (`pk == "me"`), creating it on first use. */
module Views {
  import opened Wrappers
  import Decimal
  import Json
  import Store
  import Serializers

  /** Chat `c` has both users among its participants. */
  predicate Shares(chats: map<Store.ChatId, set<Store.UserId>>, c: Store.ChatId, a: Store.UserId, b: Store.UserId) {
    c in chats && a in chats[c] && b in chats[c]
  }

  /** The lowest-numbered chat below `bound` that both users share: the first row of
      the chat query, which without an ordering of its own comes in key order. */
  function FirstShared(chats: map<Store.ChatId, set<Store.UserId>>, a: Store.UserId, b: Store.UserId,
                       bound: nat): (r: Option<Store.ChatId>)
    ensures r.Some? ==> r.value < bound && Shares(chats, r.value, a, b)
    ensures r.Some? ==> forall c: nat :: c < r.value ==> !Shares(chats, c, a, b)
    ensures r.None? ==> forall c: nat :: c < bound ==> !Shares(chats, c, a, b)
  {
    if bound == 0 then None
    else
      match FirstShared(chats, a, b, bound - 1)
      case Some(c) => Some(c)
      case None => if Shares(chats, bound - 1, a, b) then Some(bound - 1) else None
  }

  /** The chat table with its auto-increment counter. */
  datatype ChatTable = ChatTable(chats: map<Store.ChatId, set<Store.UserId>>, next: nat)

  /** Every chat key was handed out by the counter. */
  predicate Counted(t: ChatTable) {
    forall c :: c in t.chats ==> c < t.next
  }

  datatype Poked = Poked(chat: Store.ChatId, table: ChatTable)

  /** The poke's get-or-create on a chat table: the first chat both users share, or a
      new chat holding exactly the two of them. */
  function GetOrCreateChat(t: ChatTable, me: Store.UserId, target: Store.UserId): (p: Poked)
    requires Counted(t)
    ensures Counted(p.table)
    ensures Shares(p.table.chats, p.chat, me, target)
    ensures forall c: nat :: c < p.chat ==> !Shares(p.table.chats, c, me, target)
    ensures (exists c :: Shares(t.chats, c, me, target)) ==> p.table == t
    ensures (forall c :: !Shares(t.chats, c, me, target)) ==>
      && p.chat == t.next && p.chat !in t.chats
      && p.table == ChatTable(t.chats[t.next := {me, target}], t.next + 1)
  {
    match FirstShared(t.chats, me, target, t.next)
    case Some(c) => Poked(c, t)
    case None =>
      assert forall c :: !Shares(t.chats, c, me, target) by {
        forall c: nat ensures !Shares(t.chats, c, me, target) {
          if c >= t.next { assert c !in t.chats; }
        }
      }
      var chats := t.chats[t.next := {me, target}];
      assert forall c: nat :: c < t.next ==> !Shares(chats, c, me, target) by {
        forall c: nat | c < t.next ensures !Shares(chats, c, me, target) {
          assert !Shares(t.chats, c, me, target);
          assert c in chats ==> chats[c] == t.chats[c];
        }
      }
      Poked(t.next, ChatTable(chats, t.next + 1))
  }

  /** Two chats that are each the lowest one both users share are the same chat. */
  lemma LeastSharedUnique(chats: map<Store.ChatId, set<Store.UserId>>, a: Store.UserId, b: Store.UserId,
                          x: Store.ChatId, y: Store.ChatId)
    requires Shares(chats, x, a, b) && forall c: nat :: c < x ==> !Shares(chats, c, a, b)
    requires Shares(chats, y, a, b) && forall c: nat :: c < y ==> !Shares(chats, c, a, b)
    ensures x == y
  {
  }

  /** Poking the same pair again returns the same chat and changes nothing. */
  lemma PokeTwiceSameChat(t: ChatTable, me: Store.UserId, target: Store.UserId)
    requires Counted(t)
    ensures var p := GetOrCreateChat(t, me, target);
      GetOrCreateChat(p.table, me, target) == p
  {
    var p := GetOrCreateChat(t, me, target);
    var q := GetOrCreateChat(p.table, me, target);
    assert q.table == p.table;
    LeastSharedUnique(p.table.chats, me, target, p.chat, q.chat);
  }

  /** The target poking back gets the same chat, and nothing changes. */
  lemma PokeBackSameChat(t: ChatTable, me: Store.UserId, target: Store.UserId)
    requires Counted(t)
    ensures var p := GetOrCreateChat(t, me, target);
      GetOrCreateChat(p.table, target, me) == p
  {
    var p := GetOrCreateChat(t, me, target);
    var q := GetOrCreateChat(p.table, target, me);
    assert Shares(p.table.chats, p.chat, target, me);
    assert forall c: nat :: c < p.chat ==> !Shares(p.table.chats, c, target, me) by {
      forall c: nat | c < p.chat ensures !Shares(p.table.chats, c, target, me) {
        assert !Shares(p.table.chats, c, me, target);
      }
    }
    assert q.table == p.table;
    LeastSharedUnique(p.table.chats, target, me, p.chat, q.chat);
  }

  /** The response of `PokeView.post`. */
  datatype PokeResponse =
    | TargetRequired                                    // 400
    | TargetNotFound                                    // 404
    | PokeOk(message: string, chatId: string)           // 200

  /** `PokeView.post`: a falsy (absent or zero) `target_id` is a 400 and an unknown
      user a 404, neither touching the chats; otherwise the shared chat is reused or
      one chat with both users is created, and its id is returned as text. */
  method Poke(db: Store.Database, me: Store.UserId, targetId: Option<int>) returns (r: PokeResponse)
    requires db.Valid() && me in db.users
    modifies db
    ensures db.Valid()
    ensures db.users == old(db.users) && db.profiles == old(db.profiles)
    ensures db.nextUserId == old(db.nextUserId)
    ensures r.TargetRequired? <==> targetId.None? || targetId.value == 0
    ensures r.TargetNotFound? <==>
      targetId.Some? && targetId.value != 0 && !(targetId.value >= 0 && targetId.value in old(db.users))
    ensures !r.PokeOk? ==> db.chats == old(db.chats) && db.nextChatId == old(db.nextChatId)
    ensures r.PokeOk? ==>
      && targetId.Some? && targetId.value >= 0
      && var p := GetOrCreateChat(ChatTable(old(db.chats), old(db.nextChatId)), me, targetId.value);
      && r.chatId == Decimal.Show(p.chat)
      && ChatTable(db.chats, db.nextChatId) == p.table
      && r.message == db.users[me].username + " poked " + db.users[targetId.value].username
  {
    if targetId.None? || targetId.value == 0 {
      return TargetRequired;
    }
    var id := targetId.value;
    if !(id >= 0 && id in db.users) {
      return TargetNotFound;
    }
    var target: Store.UserId := id;
    ghost var p := GetOrCreateChat(ChatTable(db.chats, db.nextChatId), me, target);
    var chat: Store.ChatId;
    var found := FirstShared(db.chats, me, target, db.nextChatId);
    if found.Some? {
      chat := found.value;
    } else {
      chat := db.nextChatId;
      db.chats := db.chats[chat := {}];
      db.nextChatId := chat + 1;
      db.chats := db.chats[chat := db.chats[chat] + {me, target}];
      assert db.chats[chat] == {me, target};
    }
    return PokeOk(db.users[me].username + " poked " + db.users[target].username, Decimal.Show(chat));
  }

  /** A profile endpoint's response. */
  datatype ProfileResponse =
    | NotFound                                          // 404
    | Body(profile: Json.Object)                        // 200
    | BadRequest(errors: set<Serializers.FieldName>)    // 400

  /** The caller's profile as `get_or_create` finds it. */
  function Existing(profiles: map<Store.UserId, Store.Profile>, me: Store.UserId): Store.Profile {
    if me in profiles then profiles[me] else Store.EmptyProfile
  }

  /** `get_or_create(user=me)`: the user's profile, inserted at its defaults if absent. */
  method GetOrCreateProfile(db: Store.Database, me: Store.UserId) returns (p: Store.Profile)
    requires db.Valid() && me in db.users
    modifies db
    ensures db.Valid()
    ensures p == Existing(old(db.profiles), me) && db.profiles == old(db.profiles)[me := p]
    ensures db.users == old(db.users) && db.chats == old(db.chats)
    ensures db.nextUserId == old(db.nextUserId) && db.nextChatId == old(db.nextChatId)
  {
    if me !in db.profiles {
      db.profiles := db.profiles[me := Store.EmptyProfile];
    }
    p := db.profiles[me];
    assert db.profiles == old(db.profiles)[me := p];
  }

  /** Writing a key twice leaves the second value. */
  lemma Overwrite<K, V>(m: map<K, V>, k: K, a: V, b: V)
    ensures m[k := a][k := b] == m[k := b]
  {
  }

  /** `save()` on the caller's profile row. */
  method SaveProfile(db: Store.Database, me: Store.UserId, p: Store.Profile)
    requires db.Valid() && me in db.users
    modifies db
    ensures db.Valid()
    ensures db.profiles == old(db.profiles)[me := p]
    ensures db.users == old(db.users) && db.chats == old(db.chats)
    ensures db.nextUserId == old(db.nextUserId) && db.nextChatId == old(db.nextChatId)
  {
    db.profiles := db.profiles[me := p];
  }

  /** `retrieve`: any key but `me` is a 404 that touches nothing; `me` returns the
      caller's profile, which exists afterwards. */
  method Retrieve(db: Store.Database, me: Store.UserId, pk: string, mediaBase: string)
    returns (r: ProfileResponse)
    requires db.Valid() && me in db.users
    modifies db
    ensures db.Valid()
    ensures pk != "me" ==> r == NotFound && unchanged(db)
    ensures pk == "me" ==>
      && me in db.profiles
      && (me in old(db.profiles) ==> db.profiles == old(db.profiles))
      && (me !in old(db.profiles) ==> db.profiles == old(db.profiles)[me := Store.EmptyProfile])
      && r == Body(Serializers.Representation(db.users[me], db.profiles[me], mediaBase))
    ensures db.users == old(db.users) && db.chats == old(db.chats)
    ensures db.nextUserId == old(db.nextUserId) && db.nextChatId == old(db.nextChatId)
  {
    if pk != "me" {
      return NotFound;
    }
    var profile := GetOrCreateProfile(db, me);
    return Body(Serializers.Representation(db.users[me], profile, mediaBase));
  }

  /** The validation a partial update runs: the declared fields, none of them required. */
  function PatchValidation(input: map<string, string>, users: map<Store.UserId, Store.Account>): Serializers.Validation {
    Serializers.Validate(Serializers.AsWritten, input, true, users)
  }

  /** The profile a successful partial update writes: the validated columns over the
      current ones. */
  function Patched(p: Store.Profile, input: map<string, string>, users: map<Store.UserId, Store.Account>): Store.Profile {
    Serializers.ApplyValidated(p, PatchValidation(input, users).data)
  }

  /** The write half of `partial_update`, on the caller's current profile: a refused
      request leaves the table as it is, an accepted one writes the validated columns. */
  method UpdateOwnProfile(db: Store.Database, me: Store.UserId, profile: Store.Profile,
                          input: map<string, string>, mediaBase: string) returns (r: ProfileResponse)
    requires db.Valid() && me in db.users && me in db.profiles && profile == db.profiles[me]
    modifies db
    ensures db.Valid()
    ensures db.users == old(db.users) && db.chats == old(db.chats)
    ensures db.nextUserId == old(db.nextUserId) && db.nextChatId == old(db.nextChatId)
    ensures PatchValidation(input, db.users).errors != {} ==>
      r == BadRequest(PatchValidation(input, db.users).errors) && db.profiles == old(db.profiles)
    ensures PatchValidation(input, db.users).errors == {} ==>
      db.profiles == old(db.profiles)[me := Patched(profile, input, db.users)]
    ensures r.Body? ==> me in db.profiles && r.profile == Serializers.Representation(db.users[me], db.profiles[me], mediaBase)
  {
    var v := PatchValidation(input, db.users);
    if v.errors != {} {
      return BadRequest(v.errors);
    }
    SaveProfile(db, me, Patched(profile, input, db.users));
    r := Body(Serializers.Representation(db.users[me], db.profiles[me], mediaBase));
  }

  /** `partial_update`: any key but `me` is a 404 that touches nothing; for `me` the
      profile is fetched or created (that insertion stays even when the request is
      refused), the request is validated as a partial update, and on success the
      validated columns are written. */
  method PartialUpdate(db: Store.Database, me: Store.UserId, pk: string, input: map<string, string>,
                       mediaBase: string) returns (r: ProfileResponse)
    requires db.Valid() && me in db.users
    modifies db
    ensures db.Valid()
    ensures db.users == old(db.users) && db.chats == old(db.chats)
    ensures db.nextUserId == old(db.nextUserId) && db.nextChatId == old(db.nextChatId)
    ensures pk != "me" ==> r == NotFound && unchanged(db)
    ensures pk == "me" && PatchValidation(input, old(db.users)).errors != {} ==>
      && r == BadRequest(PatchValidation(input, old(db.users)).errors)
      && db.profiles == old(db.profiles)[me := Existing(old(db.profiles), me)]
    ensures pk == "me" && PatchValidation(input, old(db.users)).errors == {} ==>
      db.profiles == old(db.profiles)[me := Patched(Existing(old(db.profiles), me), input, old(db.users))]
    ensures r.Body? ==> me in db.profiles && r.profile == Serializers.Representation(db.users[me], db.profiles[me], mediaBase)
  {
    if pk != "me" {
      return NotFound;
    }
    var profile := GetOrCreateProfile(db, me);
    r := UpdateOwnProfile(db, me, profile, input, mediaBase);
    ghost var patched := Patched(profile, input, db.users);
    Overwrite(old(db.profiles), me, profile, patched);
  }
}
