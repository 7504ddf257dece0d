/** The server's database, reduced to the tables the chat and account code use:
    Django's users, the user profiles, and the chats with their participants.
    Primary keys are auto-increment numbers that are never reused. */
module Store {
  import opened Wrappers
  import Dates
  import Text

  type UserId = nat
  type ChatId = nat

  /** What `make_password` stores for a raw password. The salted hash itself is not
      modelled: the raw text stands inside `Hashed`, so a stored password is never
      the same value as the text that was sent. */
  datatype PasswordHash = Hashed(raw: string)

  /** A row of Django's user table: the credentials `create_user` stores. */
  datatype Account = Account(username: string, email: string, password: PasswordHash)

  /** `s` has no `@`. */
  predicate NoAt(s: string) {
    forall j :: 0 <= j < |s| ==> s[j] != '@'
  }

  /** `s` has no `@` at the positions from `lo` up to `hi`. */
  predicate NoAtBetween(s: string, lo: int, hi: int) {
    forall j :: lo <= j < hi && 0 <= j < |s| ==> s[j] != '@'
  }

  /** The position of the last `@` before position `n` of `s`, if there is one. */
  function LastAtBelow(s: string, n: nat): (k: Option<nat>)
    requires n <= |s|
    ensures k.None? ==> NoAtBetween(s, 0, n)
    ensures k.Some? ==> k.value < n && s[k.value] == '@'
    ensures k.Some? ==> NoAtBetween(s, k.value + 1, n)
  {
    if n == 0 then None
    else if s[n - 1] == '@' then Some(n - 1)
    else LastAtBelow(s, n - 1)
  }

  /** The position of the last `@` in `s`, if there is one. */
  function LastAt(s: string): Option<nat> {
    LastAtBelow(s, |s|)
  }

  function LowerChar(c: char): char {
    if 'A' <= c <= 'Z' then ((c as int) + 32) as char else c
  }

  /** `str.lower()` on ASCII letters. */
  function LowerAscii(s: string): (r: string)
    ensures |r| == |s|
  {
    seq(|s|, i requires 0 <= i < |s| => LowerChar(s[i]))
  }

  /** `BaseUserManager.normalize_email`: the address is stripped and split at its last
      `@`, and the domain part is lower-cased; an address without `@` is kept as it
      was given, white space included. */
  function NormalizeEmail(email: string): (r: string)
    ensures LastAt(Text.PyStrip(email)).None? ==> r == email
    ensures LastAt(Text.PyStrip(email)).Some? ==> |r| == |Text.PyStrip(email)|
  {
    var t := Text.PyStrip(email);
    match LastAt(t)
    case None => email
    case Some(k) => t[..k] + "@" + LowerAscii(t[k + 1..])
  }

  /** An address written as a local part, `@` and a domain without `@`, with no white
      space at either end, keeps its local part and has its domain lower-cased. */
  lemma NormalizeSplitEmail(local: string, domain: string)
    requires NoAt(domain)
    requires local == [] || !Text.IsPySpace(local[0])
    requires domain == [] || !Text.IsPySpace(domain[|domain| - 1])
    ensures NormalizeEmail(local + "@" + domain) == local + "@" + LowerAscii(domain)
  {
    var e := local + "@" + domain;
    AddressUnstripped(local, domain);
    LastAtAfterLocal(local, domain);
    NormalizeAt(e, |local|);
    AddressParts(local, domain);
  }

  lemma AddressParts(local: string, domain: string)
    ensures (local + "@" + domain)[..|local|] == local
    ensures (local + "@" + domain)[|local| + 1..] == domain
  {
  }

  lemma AddressUnstripped(local: string, domain: string)
    requires local == [] || !Text.IsPySpace(local[0])
    requires domain == [] || !Text.IsPySpace(domain[|domain| - 1])
    ensures Text.PyStrip(local + "@" + domain) == local + "@" + domain
  {
    var e := local + "@" + domain;
    assert e[0] == (if local == [] then '@' else local[0]);
    assert e[|e| - 1] == (if domain == [] then '@' else domain[|domain| - 1]);
    Text.PyStripTrimmed(e);
  }

  lemma NormalizeAt(e: string, k: nat)
    requires Text.PyStrip(e) == e && LastAt(e) == Some(k)
    ensures NormalizeEmail(e) == e[..k] + "@" + LowerAscii(e[k + 1..])
  {
  }

  /** The last `@` of such an address is the one after the local part. */
  lemma LastAtAfterLocal(local: string, domain: string)
    requires NoAt(domain)
    ensures LastAt(local + "@" + domain) == Some(|local|)
  {
    var e := local + "@" + domain;
    var k := LastAt(e);
    assert e[|local|] == '@';
    assert NoAtBetween(e, |local| + 1, |e|) by {
      forall j | |local| < j < |e| ensures e[j] != '@' {
        assert e[j] == domain[j - |local| - 1];
      }
    }
  }

  /** Lower-casing keeps `@` out of a text without one, keeps a last character that is
      not white space, and is idempotent. */
  lemma LowerFacts(d: string)
    ensures NoAt(d) ==> NoAt(LowerAscii(d))
    ensures d != [] && !Text.IsPySpace(d[|d| - 1]) ==> !Text.IsPySpace(LowerAscii(d)[|d| - 1])
    ensures LowerAscii(LowerAscii(d)) == LowerAscii(d)
  {
  }

  /** The parts around the last `@` of a stripped text: no white space at their outer
      ends, no `@` after it. */
  lemma StrippedSplitEnds(t: string, k: nat)
    requires k < |t| && !Text.IsPySpace(t[0]) && !Text.IsPySpace(t[|t| - 1])
    requires NoAtBetween(t, k + 1, |t|)
    ensures t[..k] == [] || !Text.IsPySpace(t[..k][0])
    ensures t[k + 1..] == [] || !Text.IsPySpace(t[k + 1..][|t| - k - 2])
    ensures NoAt(t[k + 1..])
  {
    var d := t[k + 1..];
    forall j | 0 <= j < |d| ensures d[j] != '@' {
      assert d[j] == t[k + 1 + j];
    }
  }

  /** Normalizing an address twice is normalizing it once: a normalized address is
      already stripped, and its domain is already lower case. */
  lemma NormalizeEmailIdempotent(email: string)
    ensures NormalizeEmail(NormalizeEmail(email)) == NormalizeEmail(email)
  {
    var t := Text.PyStrip(email);
    if LastAt(t).Some? {
      var k := LastAt(t).value;
      var local, domain := t[..k], t[k + 1..];
      assert NormalizeEmail(email) == local + "@" + LowerAscii(domain);
      assert NoAt(domain) && (local == [] || !Text.IsPySpace(local[0]))
          && (domain == [] || !Text.IsPySpace(domain[|domain| - 1])) by {
        StrippedSplitEnds(t, k);
      }
      NormalizedStable(NormalizeEmail(email), local, domain);
    }
  }

  /** An address built from a stripped split is its own normal form. */
  lemma NormalizedStable(n: string, local: string, domain: string)
    requires n == local + "@" + LowerAscii(domain)
    requires NoAt(domain)
    requires local == [] || !Text.IsPySpace(local[0])
    requires domain == [] || !Text.IsPySpace(domain[|domain| - 1])
    ensures NormalizeEmail(n) == n
  {
    LowerFacts(domain);
    NormalizeSplitEmail(local, LowerAscii(domain));
  }

  /** The compatibility mappings of Unicode normalization form KC that this model
      knows: the fullwidth forms of ASCII (U+FF01 to U+FF5E) and the Latin ligatures
      U+FB00 to U+FB06. Every other character maps to itself. */
  function Compatibility(c: char): (r: string)
    ensures r != []
  {
    if '\U{FF01}' <= c <= '\U{FF5E}' then [((c as int) - 0xFEE0) as char]
    else if c == '\U{FB00}' then "ff"
    else if c == '\U{FB01}' then "fi"
    else if c == '\U{FB02}' then "fl"
    else if c == '\U{FB03}' then "ffi"
    else if c == '\U{FB04}' then "ffl"
    else if c == '\U{FB05}' || c == '\U{FB06}' then "st"
    else [c]
  }

  predicate IsAscii(c: char) {
    c < '\U{80}'
  }

  /** `AbstractBaseUser.normalize_username`: `unicodedata.normalize("NFKC", username)`,
      with the mappings `Compatibility` knows. Plain ASCII is left alone. */
  function NormalizeUsername(s: string): (r: string)
    ensures (forall i :: 0 <= i < |s| ==> IsAscii(s[i])) ==> r == s
    ensures |r| >= |s|
  {
    if s == [] then [] else Compatibility(s[0]) + NormalizeUsername(s[1..])
  }

  lemma {:induction false} NormalizeUsernameAppend(a: string, b: string)
    ensures NormalizeUsername(a + b) == NormalizeUsername(a) + NormalizeUsername(b)
  {
    if a == [] {
      assert a + b == b;
    } else {
      assert (a + b)[1..] == a[1..] + b;
      NormalizeUsernameAppend(a[1..], b);
    }
  }

  /** What a character maps to is left alone by a second normalization. */
  lemma CompatibilityStable(c: char)
    ensures NormalizeUsername(Compatibility(c)) == Compatibility(c)
  {
    var r := Compatibility(c);
    if r == [c] {
      assert NormalizeUsername(r) == Compatibility(c) + NormalizeUsername([]);
    }
  }

  /** Normalizing a username twice is normalizing it once, as for NFKC itself. */
  lemma {:induction false} NormalizeUsernameIdempotent(s: string)
    ensures NormalizeUsername(NormalizeUsername(s)) == NormalizeUsername(s)
  {
    if s != [] {
      NormalizeUsernameAppend(Compatibility(s[0]), NormalizeUsername(s[1..]));
      CompatibilityStable(s[0]);
      NormalizeUsernameIdempotent(s[1..]);
    }
  }

  /** A row of `UserProfile` (one per user, keyed by the user). */
  datatype Profile = Profile(name: string, dateOfBirth: Option<Dates.CalendarDate>, gender: string,
                             interests: Option<string>, personality: Option<string>,
                             why: Option<string>, picture: Option<string>)

  /** The profile `get_or_create(user=...)` inserts: every column at its default. */
  const EmptyProfile: Profile := Profile("", None, "", None, None, None, None)

  /** No two users share a username: the user table's `username` column is unique. */
  predicate UniqueUsernames(users: map<UserId, Account>) {
    forall a, b :: a in users && b in users && a != b ==> users[a].username != users[b].username
  }

  /** No two users share a username or an email address. The table itself only keeps
      usernames unique; unique emails are what the registration checks promise. */
  predicate UniqueCredentials(users: map<UserId, Account>) {
    && UniqueUsernames(users)
    && forall a, b :: a in users && b in users && a != b ==> users[a].email != users[b].email
  }

  predicate UsernameTaken(users: map<UserId, Account>, username: string) {
    exists u :: u in users && users[u].username == username
  }

  predicate EmailTaken(users: map<UserId, Account>, email: string) {
    exists u :: u in users && users[u].email == email
  }

  /** The row `create_user(username, email, password)` inserts: the username
      normalized, the email normalized, the password hashed. */
  function NewUser(username: string, email: string, password: string): (a: Account)
    ensures a.username == NormalizeUsername(username) && a.email == NormalizeEmail(email)
    ensures a.password == Hashed(password)
  {
    Account(NormalizeUsername(username), NormalizeEmail(email), Hashed(password))
  }

  class Database {
    var users: map<UserId, Account>
    var profiles: map<UserId, Profile>
    var chats: map<ChatId, set<UserId>>
    var nextUserId: nat
    var nextChatId: nat

    /** Keys stay below the auto-increment counters, profiles and participants refer
        to existing users, and usernames are unique. */
    ghost predicate Valid()
      reads this
    {
      && (forall u :: u in users ==> u < nextUserId)
      && (forall c :: c in chats ==> c < nextChatId)
      && profiles.Keys <= users.Keys
      && (forall c :: c in chats ==> chats[c] <= users.Keys)
      && UniqueUsernames(users)
    }

    /** Inserts a user row under the next auto-increment key; the table refuses a
        username it already has, so the caller checks it first. */
    method AddUser(account: Account) returns (id: UserId)
      requires Valid() && !UsernameTaken(users, account.username)
      modifies this`users, this`nextUserId
      ensures Valid()
      ensures id !in old(users) && users == old(users)[id := account]
    {
      id := nextUserId;
      users := users[id := account];
      nextUserId := id + 1;
    }

    /** Inserts the profile row of an existing user that has none. */
    method AddProfile(id: UserId, p: Profile)
      requires Valid() && id in users
      modifies this`profiles
      ensures Valid() && profiles == old(profiles)[id := p]
    {
      profiles := profiles[id := p];
    }

    constructor ()
      ensures Valid()
      ensures users == map[] && profiles == map[] && chats == map[]
    {
      users, profiles, chats := map[], map[], map[];
      nextUserId, nextChatId := 1, 1;
    }
  }
}
