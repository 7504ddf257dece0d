# MakeFriends: chat pipeline, registration and profile core in Dafny

This project models the logic at the centre of MakeFriends, a React Native client with a Django/Channels backend. The model covers:

- **Chat pipeline.**
  - Client side: the conversation screen's transcript, history loading, the `onmessage` merge that drops echoes by `messageId`, `onSend` (optimistic append, id stamping and transmission) and the socket URL builder.
  - Server side: the WebSocket route and the `ChatConsumer`. The consumer admits participants, relays a frame to the chat's group, persists it first, and delivers group events to each socket.
  - The `Pipeline` module connects both ends: a sent message is shown once to its sender and reaches every other member once.
- **Client validators and mappings.** The ordered registration checks and their payload; the account screen's fetched-profile defaults and multipart form, including the picture's file name and MIME type; the chat-list tabs and badge; and the event and mood colour tables.
- **Server views.** `PokeView` get-or-create of a chat between two users. The `me`-only guard and profile get-or-create of `retrieve` and `partial_update`.
- **Profile serializer.** Field declarations, DRF field validation, the uniqueness hooks, `create` and the representation.

Modules follow the source files:

| Module | Models |
|---|---|
| `ChatConversation` | chatConversation.tsx |
| `Consumers` | consumers.py |
| `Routing` | routing.py |
| `AccountCreation` | accountCreation.tsx |
| `Account` | account.tsx |
| `ChatList` | chat.tsx |
| `Helper` | helper.tsx |
| `Views` | users/views.py |
| `Serializers` | users/serializers.py |

`Store` holds the database tables (users, profiles, chats) as a class whose fields the views update. The remaining modules are shared helpers:

- `Text`: JavaScript `trim`, Python `strip` and truthiness.
- `Decimal`: `str` and `int` on keys.
- `Dates`: `%Y-%m-%d`.
- `Json`: decoded frames.
- `Wrappers`: `Option`.

Stateful parts are classes with `modifies` clauses:

- `ChatConversation.Conversation`: the transcript and the frames sent on the socket.
- `Consumers.ChatConsumer`: the consumer's fields and an ordered log of its effects (close, accept, group add and discard, save, group send, socket send).
- `Account.AccountForm`: the account screen's state.
- `Store.Database`: the tables.

Pure logic is functions and lemmas.

Inputs the code takes from outside are parameters:

- ids generated by `uuidv4` (assumed fresh where a lemma needs it);
- socket readiness;
- today's date;
- the backend URL;
- the stored token;
- the media URL prefix.

## Model

| member | source | states |
|---|---|---|
| Json.Get | makefriends/users/consumers.py:48-49 | reading a key yields a string exactly when the key holds a string, and that string; absent and `null` read the same |
| Text.TrimEmptyIffBlank | MakeFriendsApp/app/screens/accountCreation.tsx:44-56 | `s.trim() === ''` holds exactly when every character of `s` is white space |
| Text.TrimEndEmpty | MakeFriendsApp/app/screens/accountCreation.tsx:44-56 | trimming the end leaves nothing exactly when the string is all white space |
| Text.TrimStart | MakeFriendsApp/app/screens/accountCreation.tsx:44-56 | the result is a suffix of the input, everything removed before it is white space, and it does not start with white space |
| Text.PyStrip | makefriends/users/serializers.py:9 | `str.strip()` is a contiguous part of the input with only Python white space around it, and no white space at either of its ends |
| Text.PyStripIdempotent | makefriends/users/serializers.py:9 | stripping a stripped value changes nothing |
| Text.PyStripStart | makefriends/users/serializers.py:9 | the result is a suffix of the input, everything removed before it is white space, and it does not start with white space |
| Text.PyStripEnd | makefriends/users/serializers.py:9 | the result is a prefix of the input, everything removed after it is white space, and it does not end with white space |
| Text.PyStripTrimmed | makefriends/users/serializers.py:9 | a string with no white space at either end is unchanged by `strip()` |
| Text.LastSegment | MakeFriendsApp/app/screens/account.tsx:140 | `split('/').pop()` is the suffix after the last `/`, contains no `/`, and is the whole string when there is no `/` |
| Decimal.Show | makefriends/users/consumers.py:65 | `str(pk)` is a non-empty string of decimal digits |
| Decimal.ParseInt | makefriends/users/consumers.py:84 | `int()` accepts every run of digits with its decimal value and every minus followed by digits with the negated value, and nothing but an optional leading minus followed by digits; a negative result had the minus |
| Decimal.ShowRoundTrip | makefriends/users/views.py:131 | the chat id the poke returns parses back with `int()` to the same key |
| Decimal.ShowInjective | makefriends/users/views.py:131 | distinct keys give distinct id strings |
| Dates.Format | makefriends/users/serializers.py:12-15 | `%Y-%m-%d` output is ten characters with `-` at positions 4 and 7 |
| Dates.Parse | makefriends/users/serializers.py:12-15 | an accepted text is a valid calendar date: its year is the value of the first four digits, and its month and day are what `%m` and `%d` read from the parts around the second `-` |
| Dates.MonthValue | makefriends/users/serializers.py:12-15 | `%m` accepts exactly the texts of one or two digits valued 1 to 12, and yields that value |
| Dates.DayValue | makefriends/users/serializers.py:12-15 | `%d` accepts exactly the texts of one or two digits valued 1 to 31, or a space followed by a digit 1 to 9, and yields that value |
| Dates.FromParts | makefriends/users/serializers.py:12-15 | yields a date exactly when `%m` and `%d` accept the month and day texts and, with the year digits, they form a valid calendar date; the date has those values |
| Dates.ParseFormat | makefriends/users/serializers.py:12-15 | every valid date the serializer emits is read back as the same date |
| Dates.ParseLayout | makefriends/users/serializers.py:12-15 | text `YYYY-M-…` or `YYYY-MM-…` is split at its dashes, so it is accepted exactly when its year, month and day texts form a date; `2000-1-5` and `2000-01- 5` are read as `strptime` reads them |
| Dates.MonthRoundTrip | makefriends/users/serializers.py:12-15 | a month written with `%m` is read back by `%m` as the same month |
| Dates.DayRoundTrip | makefriends/users/serializers.py:12-15 | a day written with `%d` is read back by `%d` as the same day |
| Routing.ChatRoute | makefriends/users/routing.py:6 | a captured id is non-empty, uses only `0-9a-f-`, and the path is exactly `ws/chats/<id>/`; no such path is refused |
| Routing.RouteCapturesValidIds | makefriends/users/routing.py:6 | the route captures `ws/chats/<id>/` as `id` exactly when `id` is a valid id, otherwise nothing |
| Routing.UpperCaseRejected | makefriends/users/routing.py:6 | an id with an upper-case hex digit does not match the route |
| Consumers.LookupChat | makefriends/users/consumers.py:83-87 | a non-integer id raises, an integer id without a chat is `DoesNotExist`, otherwise the chat's participants are found |
| Consumers.UserIsAllowed | makefriends/users/consumers.py:81-98 | admission holds exactly for an authenticated participant of an existing chat; a non-integer id raises; anonymous users are never admitted |
| Consumers.Relay | makefriends/users/consumers.py:42-69 | invalid JSON is dropped, a non-object raises, an empty or missing message is dropped; otherwise the event carries the client's message and id unchanged and the sender from the connection |
| Consumers.RelayReadsOnlyMessageAndId | makefriends/users/consumers.py:48-51 | two frames that agree on `message` and `messageId` are relayed identically; no other payload field, including a claimed sender, has any effect |
| Consumers.SocketFrame | makefriends/users/consumers.py:71-78 | the socket frame has exactly the four keys, copies message, sender and id, and falls back to the sender for a missing username |
| Consumers.ChatConsumer.constructor | makefriends/users/consumers.py:9 | a new consumer serves the scope's user, has accepted nothing and has produced no effects |
| Consumers.ChatConsumer.Connect | makefriends/users/consumers.py:10-33 | sets the group name `chat_<id>`; anonymous or non-participant users are closed, participants are added to the group and then accepted; a raise leaves no effect |
| Consumers.ChatConsumer.Disconnect | makefriends/users/consumers.py:35-40 | leaves the chat's group |
| Consumers.ChatConsumer.Receive | makefriends/users/consumers.py:42-69 | a relayed frame leads to exactly one save and then exactly one group send; any other frame leads to no effect |
| Consumers.ChatConsumer.ChatMessage | makefriends/users/consumers.py:71-78 | sends exactly the socket frame of the event |
| ChatConversation.Append | MakeFriendsApp/app/screens/chatConversation.tsx:139 | appending keeps every prior message and adds exactly the new ones |
| ChatConversation.DisplayName | MakeFriendsApp/app/screens/chatConversation.tsx:136 | the shown name is the username when truthy, otherwise the sender id |
| ChatConversation.FromHistory | MakeFriendsApp/app/screens/chatConversation.tsx:84-93 | history maps row by row, one entry per row, in order |
| ChatConversation.HistoryEntries | MakeFriendsApp/app/screens/chatConversation.tsx:84-92 | each loaded entry carries the row's id, text and sender, and the username or else the sender as its name |
| ChatConversation.HistoryUniqueIds | MakeFriendsApp/app/screens/chatConversation.tsx:84-85 | the loaded transcript has unique ids exactly when the history rows do |
| ChatConversation.Arrived | MakeFriendsApp/app/screens/chatConversation.tsx:130-138 | the new entry takes the frame's id when truthy and the fresh id otherwise, the frame's text and sender, and the username as name when truthy, else the sender |
| ChatConversation.Merge | MakeFriendsApp/app/screens/chatConversation.tsx:121-144 | an unparsable frame, or a frame whose id is already shown, leaves the transcript unchanged; any other frame appends exactly one message |
| ChatConversation.MergeAddsOne | MakeFriendsApp/app/screens/chatConversation.tsx:130-139 | a new frame adds one message with the frame's text and sender, and keeps every prior message |
| ChatConversation.MergeKeepsIdsUnique | MakeFriendsApp/app/screens/chatConversation.tsx:127-131 | with a fresh fallback id, merging preserves uniqueness of ids |
| ChatConversation.MergeIdempotent | MakeFriendsApp/app/screens/chatConversation.tsx:126-129 | merging the same frame with an id a second time changes nothing |
| ChatConversation.MergeAllKeepsIdsUnique | MakeFriendsApp/app/screens/chatConversation.tsx:121-144 | any sequence of frames, with fresh fallback ids, keeps the transcript's ids unique |
| ChatConversation.Outbound | MakeFriendsApp/app/screens/chatConversation.tsx:173-176 | the sent frame holds only `message` and `messageId`, carrying the text and the generated id |
| ChatConversation.EchoOfSendIgnored | MakeFriendsApp/app/screens/chatConversation.tsx:164-180 | after an open-socket send, any frame with the generated id leaves the transcript unchanged |
| ChatConversation.Stamped | MakeFriendsApp/app/screens/chatConversation.tsx:168-171 | the first new message gets the generated id and keeps its text and sender; the others are unchanged and the count is the same |
| ChatConversation.StripScheme | MakeFriendsApp/app/screens/chatConversation.tsx:112 | removes a leading `https://` or `http://` and nothing else |
| ChatConversation.SocketPlanFor | MakeFriendsApp/app/screens/chatConversation.tsx:103-114 | no connection without a chat id, then none without a token; otherwise the URL is `<scheme>://<host>/ws/chats/<id>/?token=<token>` |
| ChatConversation.SocketUrlScheme | MakeFriendsApp/app/screens/chatConversation.tsx:111-112 | an `https` backend gives `wss` and an `http` one gives `ws`, on the same host |
| ChatConversation.Conversation.constructor | MakeFriendsApp/app/screens/chatConversation.tsx:24 | the screen starts with an empty transcript and nothing sent |
| ChatConversation.Conversation.LoadHistory | MakeFriendsApp/app/screens/chatConversation.tsx:84-93 | the transcript is replaced by the mapped history; nothing is sent |
| ChatConversation.Conversation.OnMessage | MakeFriendsApp/app/screens/chatConversation.tsx:121-144 | the transcript becomes the merge of the frame; nothing is sent |
| ChatConversation.Conversation.OnSend | MakeFriendsApp/app/screens/chatConversation.tsx:164-180 | messages are appended whether or not the socket is open; only when it is open is the first message stamped and sent as one frame; otherwise nothing is sent |
| Pipeline.Delivered | makefriends/users/consumers.py:42-78 | a sent message reaches the group's sockets exactly when its text is non-empty, with its text and id unchanged and the connection's user as sender |
| Pipeline.EchoNotDuplicated | MakeFriendsApp/app/screens/chatConversation.tsx:126-129 | the sender's screen shows its own message once: the relayed echo of a send changes nothing |
| Pipeline.PeerReceivesOnce | MakeFriendsApp/app/screens/chatConversation.tsx:126-139 | another member's screen gains exactly one entry with the sent id, text and sender, and a repeated delivery changes nothing |
| Pipeline.PokedChatJoinable | makefriends/users/views.py:122-131 | the poked chat's id passes the socket route unchanged, both users are admitted, and a newly created chat admits nobody else |
| AccountCreation.IndexOf | MakeFriendsApp/app/screens/accountCreation.tsx:37 | finds the first occurrence of a character, or reports there is none |
| AccountCreation.ScanMatchesPattern | MakeFriendsApp/app/screens/accountCreation.tsx:37 | every email the scan accepts matches `^[^\s@]+@[^\s@]+\.[^\s@]+$` |
| AccountCreation.PatternPassesScan | MakeFriendsApp/app/screens/accountCreation.tsx:37 | every email matching `^[^\s@]+@[^\s@]+\.[^\s@]+$` is accepted by the scan |
| AccountCreation.ValidEmailIffPattern | MakeFriendsApp/app/screens/accountCreation.tsx:37 | the email scan accepts exactly the language of `^[^\s@]+@[^\s@]+\.[^\s@]+$` |
| AccountCreation.Payload | MakeFriendsApp/app/screens/accountCreation.tsx:63-73 | the payload has exactly the nine fields and never the confirmation |
| AccountCreation.HandleRegister | MakeFriendsApp/app/screens/accountCreation.tsx:36-56 | an alert names a check that fails on the form; a post carries exactly the payload |
| AccountCreation.FirstFailureReported | MakeFriendsApp/app/screens/accountCreation.tsx:38-56 | an alert occurs exactly when some check fails, and it is the earliest failing check; otherwise the payload is posted |
| AccountCreation.BlankFieldsRejected | MakeFriendsApp/app/screens/accountCreation.tsx:38-56 | password, name and gender fail exactly when all white space; the username fails only when empty |
| Account.Filename | MakeFriendsApp/app/screens/account.tsx:140 | the file name is the URI's last `/` segment, or `profile.jpg` when that segment is empty |
| Account.WordStart | MakeFriendsApp/app/screens/account.tsx:142 | the start of the maximal run of `\w` characters ending at a position |
| Account.WordStartOfRun | MakeFriendsApp/app/screens/account.tsx:142 | a `\w` run preceded by a non-word character is the maximal run |
| Account.WordSuffix | MakeFriendsApp/app/screens/account.tsx:142 | the longest run of `\w` characters ending the name |
| Account.WordSuffixAfterDot | MakeFriendsApp/app/screens/account.tsx:142 | a `\w` run right after a `.` at the end of the name is the longest such run |
| Account.ExtensionCaptured | MakeFriendsApp/app/screens/account.tsx:142 | a derived extension is what `/\.(\w+)$/` captures |
| Account.CaptureDerived | MakeFriendsApp/app/screens/account.tsx:142 | what `/\.(\w+)$/` captures is the derived extension |
| Account.ExtensionMatches | MakeFriendsApp/app/screens/account.tsx:142 | the derived extension is exactly what `/\.(\w+)$/` captures |
| Account.MimeType | MakeFriendsApp/app/screens/account.tsx:143 | `image/<ext>` when the regular expression matches, else `image` |
| Account.OrEmpty | MakeFriendsApp/app/screens/account.tsx:66 | `v \|\| ''` is empty exactly when `v` is falsy, and is `v` otherwise |
| Account.TextFieldDefaults | MakeFriendsApp/app/screens/account.tsx:71-75 | a fetched text field is empty exactly when the answer lacks non-empty text under its key |
| Account.OnlyDeepTalkColoured | MakeFriendsApp/app/screens/account.tsx:283-288 | of the selectable moods only `deep talk` has a non-default colour |
| Account.AccountForm.constructor | MakeFriendsApp/app/screens/account.tsx:27-39 | the screen starts with empty fields, no picture and today's date |
| Account.AccountForm.ApplyFetchedTexts | MakeFriendsApp/app/screens/account.tsx:71-75 | each fetched text field becomes the answer's text, or empty when it has none |
| Account.AccountForm.ApplyFetchedProfile | MakeFriendsApp/app/screens/account.tsx:63-78 | credentials are copied, text fields default to empty, date and picture change only when the answer has them |
| Account.AccountForm.SaveParts | MakeFriendsApp/app/screens/account.tsx:128-145 | seven text parts in fixed order, then the picture part only when a picture is set, with derived name and type |
| ChatList.Filtered | MakeFriendsApp/app/screens/chat.tsx:32-37 | an item is kept exactly when it is in the list and the tab's predicate holds; no item is added |
| ChatList.FilteredAppend | MakeFriendsApp/app/screens/chat.tsx:32 | filtering distributes over concatenation, so relative order is kept |
| ChatList.FilteredSingle | MakeFriendsApp/app/screens/chat.tsx:32-37 | a one-item list is kept exactly when the predicate holds |
| ChatList.TabsPartition | MakeFriendsApp/app/screens/chat.tsx:33-35 | `all` and `blocked` split the list without overlap, and `unread` lies within `all` |
| ChatList.TabsCount | MakeFriendsApp/app/screens/chat.tsx:33-35 | the `all` and `blocked` tabs together hold as many items as the list |
| ChatList.BadgeOnlyOnUnreadShown | MakeFriendsApp/app/screens/chat.tsx:43 | the badge shows only on an unread, unblocked item in the `all` tab |
| Helper.EventColor | MakeFriendsApp/app/screens/helper.tsx:1-14 | each of the four event types maps to its colour and every other value, including none, to red |
| Helper.PersonColor | MakeFriendsApp/app/screens/helper.tsx:16-27 | the three moods map to their colours and everything else to black |
| Helper.EventColorsDistinct | MakeFriendsApp/app/screens/helper.tsx:1-14 | a named event type's colour differs from every other value's colour, and is never the default |
| Views.FirstShared | makefriends/users/views.py:122 | the result is the lowest chat shared by both users, or none below the bound |
| Views.GetOrCreateChat | makefriends/users/views.py:122-125 | an existing shared chat is reused with the table unchanged; otherwise exactly one chat is created with both users |
| Views.LeastSharedUnique | makefriends/users/views.py:122 | the lowest shared chat is unique |
| Views.PokeTwiceSameChat | makefriends/users/views.py:122-131 | poking the same pair again returns the same chat and changes nothing |
| Views.PokeBackSameChat | makefriends/users/views.py:122-125 | the target poking back gets the same chat and changes nothing |
| Views.Poke | makefriends/users/views.py:109-131 | a missing or zero target gives 400 and an unknown target 404, both creating no chat; otherwise the chat is got or created and its id and message returned |
| Views.GetOrCreateProfile | makefriends/users/views.py:44 | returns the existing profile, or inserts and returns an empty one |
| Views.SaveProfile | makefriends/users/views.py:58-59 | stores the profile for the user and changes nothing else |
| Views.Retrieve | makefriends/users/views.py:35-47 | any pk other than `me` is 404 with nothing touched; `me` ensures exactly one profile and returns its representation |
| Views.UpdateOwnProfile | makefriends/users/views.py:56-61 | a refused update is 400 with the table unchanged; an accepted one writes the validated columns over the current profile |
| Views.PartialUpdate | makefriends/users/views.py:49-61 | any pk other than `me` is 404 with nothing touched; otherwise as `UpdateOwnProfile` on the gotten-or-created profile |
| Serializers.Declared | makefriends/users/serializers.py:5-36 | username and email are declared exactly in the corrected version and are the only fields with a uniqueness hook; the four optional fields are exactly the ones not required; the date and picture kinds belong to their fields |
| Serializers.ValidateField | makefriends/users/serializers.py:5-48 | an undeclared field is skipped; a declared field that is sent is accepted exactly when it cleans and passes its hook, and then with the cleaned value; a declared field that is not sent is rejected exactly when it is required in a full request, and skipped otherwise |
| Serializers.CleanChars | makefriends/users/serializers.py:9-20 | a `CharField` accepts exactly a stripped value that is non-blank unless blank is allowed, within the length limit and free of NUL, and yields it stripped |
| Serializers.Validate | makefriends/users/serializers.py:5-36 | every field's outcome is reported: accepted values in the data, rejections in the errors |
| Serializers.RequiredFieldEnforced | makefriends/users/serializers.py:25-36 | a required declared field missing from a full request is an error |
| Serializers.PartialRejectsOnlyWhatWasSent | makefriends/users/views.py:57 | in a partial update only sent, declared fields can be rejected |
| Serializers.AcceptedInData | makefriends/users/serializers.py:25-36 | an accepted field appears in the validated data with its value |
| Serializers.AbsentNotInData | makefriends/users/serializers.py:25-36 | a field not sent never appears in the validated data |
| Serializers.NoErrorsAccepted | makefriends/users/serializers.py:25-36 | in a valid full request every required field was accepted |
| Serializers.AcceptedText | makefriends/users/serializers.py:9-20 | an accepted text field was sent, is stored stripped, and passed its hook |
| Serializers.AcceptedDate | makefriends/users/serializers.py:12-15 | an accepted date was sent as `%Y-%m-%d` and is the parsed date |
| Serializers.AcceptedUpload | makefriends/users/serializers.py:16 | an accepted picture is the uploaded file |
| Serializers.CorrectedCredentialChecked | makefriends/users/serializers.py:38-48 | with writable credentials, each one of a valid registration was sent, is stripped, non-blank and passed its uniqueness hook |
| Serializers.CorrectedChecksCredentials | makefriends/users/serializers.py:38-57 | with writable credentials, a valid registration has a non-blank username, and neither the normalised username nor the normalised email is already stored |
| Serializers.AsWrittenDropsCredentials | makefriends/users/serializers.py:7-8 | as declared, username and email never reach the validated data |
| Serializers.UndeclaredKeysIgnored | makefriends/users/serializers.py:25-36 | a key not declared, such as `mood`, does not change validation |
| Serializers.ProfileIgnoresCredentials | makefriends/users/serializers.py:52-60 | the profile built from the data is the same with or without username, email and password |
| Serializers.ApplyValidated | makefriends/users/serializers.py:60 | a column whose field is absent from the data is kept; a column that changes takes its field's value, the picture under the upload folder |
| Serializers.OmittedColumnKept | makefriends/users/views.py:57-59 | a field not sent keeps its stored column |
| Serializers.AcceptedColumnSet | makefriends/users/serializers.py:60 | an accepted field lands in its column: stripped text, parsed date, picture under the upload folder |
| Serializers.MissingKey | makefriends/users/serializers.py:52-54 | reports the first of username, password and email that `pop` would not find, or none when all are present |
| Serializers.Create | makefriends/users/serializers.py:50-62 | a missing key raises `KeyError`, an empty username `ValueError` and a taken normalised username an integrity error, all changing nothing; otherwise exactly one new user, with the normalised username and email and the hashed password, and one profile are inserted |
| Serializers.CreateUserWithProfile | makefriends/users/serializers.py:56-60 | `create_user` then the profile: an empty username or a taken normalised username changes nothing; otherwise one new user holding the normalised credentials and one profile are inserted |
| Serializers.RegisterAsWritten | makefriends/users/views.py:16-26 | as declared, registration never creates a user: it is refused with the validation errors or it crashes |
| Serializers.AsWrittenNeverCreates | makefriends/users/serializers.py:52 | a request that validates as declared fails at `pop('username')` |
| Serializers.CompleteRequestFieldPasses | makefriends/users/serializers.py:25-36 | no field of a complete, well-formed registration request is rejected |
| Serializers.CorrectedAcceptsFreshRegistration | makefriends/users/serializers.py:5-48 | with writable credentials, a complete request whose stripped username and email are non-blank and whose normalised forms are not yet stored has no validation errors and carries both credentials stripped, so `Register` stores it |
| Serializers.AsWrittenAcceptsCompleteRequest | makefriends/users/views.py:21-22 | a complete request is valid, and `save` then fails at `pop('username')` |
| Serializers.AddAccountKeepsUnique | makefriends/users/serializers.py:38-48 | adding an account with an unused username and email keeps credentials unique |
| Serializers.Register | makefriends/users/views.py:16-26 | with writable credentials: never crashes; refuses exactly invalid requests, changing nothing; otherwise adds one user holding the stripped and then normalised credentials, and one profile, keeping credentials unique |
| Serializers.RawUsernameHookMissesNormalForm | makefriends/users/serializers.py:38-42 | the raw username hook passes a name whose normal form is already stored, which the check on the normal form refuses |
| Serializers.RawEmailHookMissesDomainCase | makefriends/users/serializers.py:44-48 | the raw email hook passes an address differing from a stored one only in the domain's case, which the check on the normalised address refuses |
| Serializers.LigatureExample | makefriends/users/serializers.py:57 | the ligature `ﬁ` normalises to `fi`, the same as the plain name `fi` |
| Store.NewUser | makefriends/users/serializers.py:57 | the stored account holds the normalised username, the normalised email and the hashed password |
| Store.NormalizeEmail | makefriends/users/serializers.py:57 | an address with no `@` after stripping is kept exactly as sent; otherwise the result is as long as the stripped address |
| Store.NormalizeSplitEmail | makefriends/users/serializers.py:57 | `local@domain` with no `@` in the domain and no white space at the ends normalises to the same local part and the lower-cased domain |
| Store.NormalizeEmailIdempotent | makefriends/users/serializers.py:57 | normalising a normalised email changes nothing |
| Store.NormalizeUsername | makefriends/users/serializers.py:57 | an all-ASCII name is unchanged, and normalising never shortens a name |
| Store.NormalizeUsernameIdempotent | makefriends/users/serializers.py:57 | normalising a normalised username changes nothing |
| Store.Database.AddUser | makefriends/users/serializers.py:57 | inserts the account under a key not yet used and changes no other user |
| Store.Database.AddProfile | makefriends/users/serializers.py:60 | stores the profile under the user's key and changes no other profile |
| Serializers.Representation | makefriends/users/serializers.py:64-72 | the output has exactly the nine readable keys and never the password |
| Serializers.RepresentationShape | makefriends/users/serializers.py:64-72 | the output has exactly the declared readable fields, never the password; credentials and text columns are copied; the date reads back through the input format; the picture is null exactly when unset, otherwise its name under the media prefix |

## Left out

- **I/O and framework plumbing.** `fetch`, `AsyncStorage`, `Alert`, navigation, the WebSocket object and the JWT middleware are not modelled. Socket readiness, the token, the backend URL and the fetched JSON are parameters.
- **Concurrency.** React state batching, effect ordering and the channel layer's asynchronous fan-out are not modelled; each handler is atomic.
- **Timestamps.** `createdAt` in transcript entries is not modelled.
- **Client-side date formatting.** `toISOString().split('T')[0]` depends on the host time zone. The formatted date and the account screen's date of birth are text given by the caller.
- **JSON.** Frames are decoded objects whose fields are strings or `null`. Number-valued fields and the JSON text itself are not modelled.
- **History and chat list endpoints.** Chat history rows are taken as given. `ChatHistoryView`, the message list view and the GIS `NearbyUsersView` (floats and distance queries) are not part of this model.
- **Persistence of a message.** `save_message` is recorded as a `Save` effect, not as a row in a message table.
- **Uploads.** Multipart encoding, storage file name sanitising and image validation are not modelled. A stored picture is the upload folder plus the sent name.
- **Picture URLs.** `build_absolute_uri` is modelled as the `mediaBase` prefix given by the caller. `partial_update` builds its serializer without a request, so its caller passes the relative media prefix.
- **Date parsing.** Python's `strptime` also accepts non-ASCII Unicode digits; the model accepts ASCII digits only.
- **Profile creation.** `get_or_create` inserts a profile without a date of birth. A real database would refuse that because the column is NOT NULL; the model inserts the empty profile.
- **Mood.** `mood` is not a column of `UserProfile`, so the serializer ignores it, as `UndeclaredKeysIgnored` states.
- **Chat ordering.** The `Chat` model is not part of this model. Its keys are taken to be auto-increment integers with no default ordering, so `first()` picks the lowest key.
- **White space.** JavaScript `trim` and Python `strip` remove slightly different sets of white space; each side's own set is modelled.
- **Route matching.** The route is matched in full against the path without its leading `/`. Older Django versions used a search instead.
- **Django's user manager.** `create_user`, `normalize_email`, `normalize_username` and `make_password` are Django's own code and not part of this model's sources; they are stated from Django's behaviour.
- Store.NormalizeUsername: models NFKC only for the fullwidth ASCII forms (U+FF01 to U+FF5E) and the Latin ligatures (U+FB00 to U+FB06); other compatibility mappings and canonical composition are not modelled.
- Store.LowerAscii: lower-cases ASCII letters only, where Python's `lower()` also maps other scripts.
- Store.NewUser: the password is a `Hashed` wrapper around the raw text; the salted hash algorithm is not modelled.
- Views.Poke: `target_id` is modelled as an optional integer, since the client sends a number. String values are not modelled: Django would coerce `"5"` in the lookup, and `"0"` is truthy, so it gives 404 rather than 400.
- ChatConversation.Append: states length and contents only, not where `GiftedChat.append` places the new entries, because that order is the library's.
- Consumers.Relay: a JSON value that is not an object is modelled as a crash (`Crashed`), where Python raises `AttributeError` at `data.get`.
- ChatList.Filtered: the `return true` fallthrough of the filter is unreachable for the three tabs and is not modelled.
- Account.AccountForm.SaveParts: the form is built as one list rather than by successive `append` calls; the order is the same.
- Views.PartialUpdate: the write after validation is the separate method `Views.UpdateOwnProfile`.
- ChatConversation.Conversation.OnSend: when the socket is open but there are no new messages, the source throws at `newMessages[0]`. The model reports `NoMessage` and changes nothing.

## Findings

| source | as written | input that shows it | evidently intended | confidence | as-written member | corrected member |
|---|---|---|---|---|---|---|
| makefriends/users/serializers.py:7-8 | `username` and `email` are `ReadOnlyField`s. Read-only fields are left out of the validated data, so `validate_username` and `validate_email` never run and `create` raises `KeyError` at `pop('username')` (line 52). No registration ever succeeds. | any complete registration, e.g. `{"username": "ann", "email": "a@b.co", "password": "pw", "name": "Ann", "dateOfBirth_str": "2000-01-31", "gender": "f"}` | username and email are writable on input, checked for uniqueness, and stored on the new user | high, not executed | Serializers.AsWrittenAcceptsCompleteRequest | Serializers.Register |
| makefriends/users/serializers.py:38-57 | `validate_username` and `validate_email` look up the raw sent value, but `create_user` stores the username in NFKC form and the email with a lower-cased domain. | stored user `fi` with email `ann@b.co`; a request with username `ﬁ` (U+FB01) passes the hook and then hits the unique constraint, and a request with email `ann@B.CO` passes and stores a second account with the same normalised email | the hooks check the values as `create_user` will store them | medium, not executed | Serializers.RawUsernameHookMissesNormalForm, Serializers.RawEmailHookMissesDomainCase | Serializers.Register |
