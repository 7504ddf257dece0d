/** `UserProfileSerializer`: the declared fields of the registration and profile
    serializer, field validation as the REST framework runs it (every writable field
    is cleaned on its own and all failures are collected), `create`, and the
    serialized form of a profile.

    As written, `username` and `email` are read-only fields, so they never reach the
    validated data: their uniqueness hooks never run and `create` fails on its first
    lookup. `Declared(AsWritten, _)` and `RegisterAsWritten` model that;
    `Declared(Corrected, _)` and `Register` model the evidently intended serializer
    with writable, checked credentials. */
module Serializers {
  import opened Wrappers
  import opened Text
  import Dates
  import Json
  import Store

  /** The serializer's fields. */
  datatype FieldName =
    | Username | Email | Password | Name | DateOfBirth | Gender | Interests | Personality | Why
    | ProfilePicture

  /** The key a field has in requests and responses. */
  function Key(f: FieldName): string {
    match f
    case Username => "username"
    case Email => "email"
    case Password => "password"
    case Name => "name"
    case DateOfBirth => "dateOfBirth_str"
    case Gender => "gender"
    case Interests => "interests"
    case Personality => "personality"
    case Why => "why"
    case ProfilePicture => "profile_picture"
  }

  const AllFields: set<FieldName> :=
    {Username, Email, Password, Name, DateOfBirth, Gender, Interests, Personality, Why, ProfilePicture}

  /** A validated value: cleaned text, a parsed date, or the name of an uploaded image. */
  datatype Cleaned = Str(s: string) | Day(date: Dates.CalendarDate) | Image(name: string)

  /** How a declared field cleans its raw input. */
  datatype Kind = Chars(allowBlank: bool, maxLength: Option<nat>) | IsoDate | Upload

  /** A field-level `validate_<field>` hook, run on the cleaned value. */
  datatype Check = NoCheck | UsernameUnused | EmailUnused

  datatype Field = Field(required: bool, kind: Kind, check: Check)

  /** The serializer as written, and with the credentials made writable. */
  datatype Version = AsWritten | Corrected

  /** The writable fields. In both versions: the required `password`, the required
      model-derived `name` and `gender` with the model's length limits, the required
      date of birth in `%Y-%m-%d`, three optional texts that may be blank and the
      optional picture. As written, `username` and `email` are read-only and take no
      input; corrected, they are required text fields, each followed by its uniqueness
      hook. */
  function Declared(v: Version, f: FieldName): (r: Option<Field>)
    ensures r.None? <==> v.AsWritten? && (f == Username || f == Email)
    ensures r.Some? ==> (r.value.required <==> f !in {Interests, Personality, Why, ProfilePicture})
    ensures r.Some? ==> (r.value.check == UsernameUnused <==> f == Username)
    ensures r.Some? ==> (r.value.check == EmailUnused <==> f == Email)
    ensures r.Some? ==> (r.value.kind == IsoDate <==> f == DateOfBirth)
    ensures r.Some? ==> (r.value.kind == Upload <==> f == ProfilePicture)
  {
    match f
    case Username => if v == Corrected then Some(Field(true, Chars(false, None), UsernameUnused)) else None
    case Email => if v == Corrected then Some(Field(true, Chars(false, None), EmailUnused)) else None
    case Password => Some(Field(true, Chars(false, None), NoCheck))
    case Name => Some(Field(true, Chars(false, Some(50)), NoCheck))
    case DateOfBirth => Some(Field(true, IsoDate, NoCheck))
    case Gender => Some(Field(true, Chars(false, Some(10)), NoCheck))
    case Interests => Some(Field(false, Chars(true, None), NoCheck))
    case Personality => Some(Field(false, Chars(true, None), NoCheck))
    case Why => Some(Field(false, Chars(true, None), NoCheck))
    case ProfilePicture => Some(Field(false, Upload, NoCheck))
  }

  /** The folder `profile_picture` uploads are stored under. */
  const UploadTo := "profile_pictures/"

  /** A text field: stripped of white space; a blank value is an error unless blanks are
      allowed; then the length limit and the ban on NUL characters apply. */
  function CleanChars(raw: string, allowBlank: bool, maxLength: Option<nat>): (r: Option<string>)
    ensures r.Some? ==> r.value == PyStrip(raw)
    ensures r.Some? <==>
      && (allowBlank || PyStrip(raw) != [])
      && (maxLength.None? || |PyStrip(raw)| <= maxLength.value)
      && '\0' !in PyStrip(raw)
  {
    var v := PyStrip(raw);
    if v == [] then
      if allowBlank then Some("") else None
    else if maxLength.Some? && |v| > maxLength.value then None
    else if '\0' in v then None
    else Some(v)
  }

  /** Cleaning by kind: text, a `%Y-%m-%d` date, or an upload that must have a name. */
  function Clean(kind: Kind, raw: string): Option<Cleaned> {
    match kind
    case Chars(allowBlank, maxLength) =>
      (match CleanChars(raw, allowBlank, maxLength)
       case None => None
       case Some(v) => Some(Str(v)))
    case IsoDate =>
      (match Dates.Parse(raw)
       case None => None
       case Some(d) => Some(Day(d)))
    case Upload => if raw == [] then None else Some(Image(raw))
  }

  /** The uniqueness hooks as written: the cleaned text itself is looked up in the user
      table, although `create_user` stores it normalized. */
  predicate RawPasses(check: Check, v: Cleaned, users: map<Store.UserId, Store.Account>) {
    match check
    case NoCheck => true
    case UsernameUnused => !(v.Str? && Store.UsernameTaken(users, v.s))
    case EmailUnused => !(v.Str? && Store.EmailTaken(users, v.s))
  }

  /** The corrected uniqueness hooks: a username or email whose normalized form is
      already in the user table is refused. */
  predicate Passes(check: Check, v: Cleaned, users: map<Store.UserId, Store.Account>) {
    match check
    case NoCheck => true
    case UsernameUnused => !(v.Str? && Store.UsernameTaken(users, Store.NormalizeUsername(v.s)))
    case EmailUnused => !(v.Str? && Store.EmailTaken(users, Store.NormalizeEmail(v.s)))
  }

  datatype FieldOutcome = Skipped | Accepted(value: Cleaned) | Rejected

  /** One field: an undeclared (read-only) field takes no input; an absent field is an
      error only when it is required and the validation is not partial; a present one
      is cleaned and then checked. */
  function ValidateField(v: Version, f: FieldName, input: map<string, string>, partial: bool,
                         users: map<Store.UserId, Store.Account>): (r: FieldOutcome)
    ensures Declared(v, f).None? ==> r.Skipped?
    ensures r.Accepted? ==>
      && Key(f) in input && Declared(v, f).Some?
      && Clean(Declared(v, f).value.kind, input[Key(f)]) == Some(r.value)
      && Passes(Declared(v, f).value.check, r.value, users)
    ensures r.Rejected? && Key(f) !in input ==> Declared(v, f).value.required && !partial
    ensures r.Skipped? && Declared(v, f).Some? ==> Key(f) !in input
    ensures Declared(v, f).Some? && Key(f) !in input ==>
      (r.Rejected? <==> Declared(v, f).value.required && !partial)
    ensures (&& Declared(v, f).Some? && Key(f) in input
             && Clean(Declared(v, f).value.kind, input[Key(f)]).Some?
             && Passes(Declared(v, f).value.check, Clean(Declared(v, f).value.kind, input[Key(f)]).value, users))
      ==> r == Accepted(Clean(Declared(v, f).value.kind, input[Key(f)]).value)
  {
    match Declared(v, f)
    case None => Skipped
    case Some(spec) =>
      if Key(f) !in input then
        if spec.required && !partial then Rejected else Skipped
      else
        match Clean(spec.kind, input[Key(f)])
        case None => Rejected
        case Some(c) => if Passes(spec.check, c, users) then Accepted(c) else Rejected
  }

  /** The result of `is_valid()`: the validated data and the fields with errors. */
  datatype Validation = Validation(data: map<FieldName, Cleaned>, errors: set<FieldName>)

  /** How one field's outcome shows in the validation result. */
  predicate Reports(r: Validation, f: FieldName, o: FieldOutcome) {
    match o
    case Skipped => f !in r.data && f !in r.errors
    case Accepted(c) => f in r.data && r.data[f] == c && f !in r.errors
    case Rejected => f in r.errors && f !in r.data
  }

  /** Collects per-field outcomes into a validation result. */
  function Collect(outcomes: map<FieldName, FieldOutcome>): (r: Validation)
    ensures forall f :: f in outcomes ==> Reports(r, f, outcomes[f])
    ensures r.data.Keys + r.errors <= outcomes.Keys
  {
    Validation(map f | f in outcomes && outcomes[f].Accepted? :: outcomes[f].value,
               set f | f in outcomes && outcomes[f].Rejected?)
  }

  lemma InAllFields(f: FieldName)
    ensures f in AllFields
  {
  }

  /** The outcome of every field. */
  function Outcomes(v: Version, input: map<string, string>, partial: bool,
                    users: map<Store.UserId, Store.Account>): (m: map<FieldName, FieldOutcome>)
    ensures forall f :: f in m && m[f] == ValidateField(v, f, input, partial, users)
  {
    var m := map f | f in AllFields :: ValidateField(v, f, input, partial, users);
    assert forall f :: f in m by {
      forall f ensures f in m { InAllFields(f); }
    }
    m
  }

  /** Validates every declared field on its own and collects all errors; input keys
      that name no declared field are ignored. */
  function Validate(v: Version, input: map<string, string>, partial: bool,
                    users: map<Store.UserId, Store.Account>): (r: Validation)
    ensures forall f {:trigger Reports(r, f, ValidateField(v, f, input, partial, users))} ::
      Reports(r, f, ValidateField(v, f, input, partial, users))
  {
    Collect(Outcomes(v, input, partial, users))
  }

  /** A required field that is missing makes a full (non-partial) validation fail. */
  lemma RequiredFieldEnforced(v: Version, input: map<string, string>,
                              users: map<Store.UserId, Store.Account>, f: FieldName)
    requires Declared(v, f).Some? && Declared(v, f).value.required && Key(f) !in input
    ensures f in Validate(v, input, false, users).errors
  {
    assert Reports(Validate(v, input, false, users), f, ValidateField(v, f, input, false, users));
  }

  /** A partial update never rejects a field for being absent: every field it rejects
      was sent, is declared, and failed to clean or to pass its check. */
  lemma PartialRejectsOnlyWhatWasSent(v: Version, input: map<string, string>,
                                      users: map<Store.UserId, Store.Account>, f: FieldName)
    requires f in Validate(v, input, true, users).errors
    ensures Key(f) in input && Declared(v, f).Some?
    ensures var spec := Declared(v, f).value;
      Clean(spec.kind, input[Key(f)]).None? || !Passes(spec.check, Clean(spec.kind, input[Key(f)]).value, users)
  {
    assert Reports(Validate(v, input, true, users), f, ValidateField(v, f, input, true, users));
  }

  /** A field that validation accepts shows in the validated data with its value. */
  lemma AcceptedInData(v: Version, f: FieldName, input: map<string, string>, partial: bool,
                       users: map<Store.UserId, Store.Account>)
    requires ValidateField(v, f, input, partial, users).Accepted?
    ensures var data := Validate(v, input, partial, users).data;
      f in data && data[f] == ValidateField(v, f, input, partial, users).value
  {
    assert Reports(Validate(v, input, partial, users), f, ValidateField(v, f, input, partial, users));
  }

  /** A field the request leaves out never shows in the validated data. */
  lemma AbsentNotInData(v: Version, f: FieldName, input: map<string, string>, partial: bool,
                        users: map<Store.UserId, Store.Account>)
    requires Key(f) !in input
    ensures f !in Validate(v, input, partial, users).data
  {
    assert Reports(Validate(v, input, partial, users), f, ValidateField(v, f, input, partial, users));
  }

  /** Without errors, every required declared field of a full validation is accepted. */
  lemma NoErrorsAccepted(v: Version, f: FieldName, input: map<string, string>,
                         users: map<Store.UserId, Store.Account>)
    requires Validate(v, input, false, users).errors == {}
    requires Declared(v, f).Some? && Declared(v, f).value.required
    ensures ValidateField(v, f, input, false, users).Accepted?
  {
    assert Reports(Validate(v, input, false, users), f, ValidateField(v, f, input, false, users));
  }

  /** An accepted text field was sent, and its value is the sent text stripped of white
      space, which passed the field's check. */
  lemma AcceptedText(v: Version, f: FieldName, input: map<string, string>, partial: bool,
                     users: map<Store.UserId, Store.Account>)
    requires ValidateField(v, f, input, partial, users).Accepted?
    requires Declared(v, f).Some? && Declared(v, f).value.kind.Chars?
    ensures Key(f) in input
    ensures ValidateField(v, f, input, partial, users).value == Str(PyStrip(input[Key(f)]))
    ensures Passes(Declared(v, f).value.check, Str(PyStrip(input[Key(f)])), users)
  {
  }

  /** An accepted field is declared and was sent. */
  lemma AcceptedSent(v: Version, f: FieldName, input: map<string, string>, partial: bool,
                     users: map<Store.UserId, Store.Account>)
    requires ValidateField(v, f, input, partial, users).Accepted?
    ensures Key(f) in input && Declared(v, f).Some?
  {
  }

  /** An accepted date of birth is the parsed `%Y-%m-%d` text. */
  lemma AcceptedDate(v: Version, input: map<string, string>, partial: bool,
                     users: map<Store.UserId, Store.Account>)
    requires ValidateField(v, DateOfBirth, input, partial, users).Accepted?
    ensures Key(DateOfBirth) in input && Dates.Parse(input[Key(DateOfBirth)]).Some?
    ensures ValidateField(v, DateOfBirth, input, partial, users).value == Day(Dates.Parse(input[Key(DateOfBirth)]).value)
  {
  }

  /** An accepted picture is the uploaded file's name. */
  lemma AcceptedUpload(v: Version, input: map<string, string>, partial: bool,
                       users: map<Store.UserId, Store.Account>)
    requires ValidateField(v, ProfilePicture, input, partial, users).Accepted?
    ensures Key(ProfilePicture) in input
    ensures ValidateField(v, ProfilePicture, input, partial, users).value == Image(input[Key(ProfilePicture)])
  {
  }

  /** A credential of a valid corrected registration was sent, is stored stripped of
      white space, is not blank, and passed its uniqueness hook. */
  lemma CorrectedCredentialChecked(f: FieldName, input: map<string, string>,
                                   users: map<Store.UserId, Store.Account>)
    requires Validate(Corrected, input, false, users).errors == {}
    requires f == Username || f == Email || f == Password
    ensures var data := Validate(Corrected, input, false, users).data;
      && Key(f) in input && f in data && data[f] == Str(PyStrip(input[Key(f)]))
      && PyStrip(input[Key(f)]) != []
      && Passes(Declared(Corrected, f).value.check, data[f], users)
  {
    var o := ValidateField(Corrected, f, input, false, users);
    assert Reports(Validate(Corrected, input, false, users), f, o);
    assert o.Accepted?;
    AcceptedText(Corrected, f, input, false, users);
  }

  /** With the corrected fields, a valid registration carries a non-blank username and
      an email whose normalized forms no existing user has, and a non-blank password,
      each stripped of white space. */
  lemma CorrectedChecksCredentials(input: map<string, string>, users: map<Store.UserId, Store.Account>)
    requires Validate(Corrected, input, false, users).errors == {}
    ensures var data := Validate(Corrected, input, false, users).data;
      && "username" in input && "email" in input && "password" in input
      && Username in data && data[Username] == Str(PyStrip(input["username"]))
      && PyStrip(input["username"]) != []
      && !Store.UsernameTaken(users, Store.NormalizeUsername(PyStrip(input["username"])))
      && Email in data && data[Email] == Str(PyStrip(input["email"]))
      && !Store.EmailTaken(users, Store.NormalizeEmail(PyStrip(input["email"])))
      && Password in data && data[Password] == Str(PyStrip(input["password"]))
      && PyStrip(input["password"]) != []
  {
    CorrectedCredentialChecked(Username, input, users);
    CorrectedCredentialChecked(Email, input, users);
    CorrectedCredentialChecked(Password, input, users);
  }

  /** As written, the validated data never holds `username` or `email`, whatever the
      request carries: both are read-only. */
  lemma AsWrittenDropsCredentials(input: map<string, string>, partial: bool,
                                  users: map<Store.UserId, Store.Account>)
    ensures Username !in Validate(AsWritten, input, partial, users).data
    ensures Email !in Validate(AsWritten, input, partial, users).data
  {
    var r := Validate(AsWritten, input, partial, users);
    assert Reports(r, Username, ValidateField(AsWritten, Username, input, partial, users));
    assert Reports(r, Email, ValidateField(AsWritten, Email, input, partial, users));
  }

  /** Input keys that name no declared field do not affect validation. */
  lemma UndeclaredKeysIgnored(v: Version, input: map<string, string>, key: string,
                              partial: bool, users: map<Store.UserId, Store.Account>)
    requires forall f :: Declared(v, f).Some? ==> Key(f) != key
    ensures Validate(v, input - {key}, partial, users) == Validate(v, input, partial, users)
  {
    forall f
      ensures ValidateField(v, f, input - {key}, partial, users) == ValidateField(v, f, input, partial, users)
    {
      if Declared(v, f).Some? {
        assert Key(f) in input - {key} <==> Key(f) in input;
      }
    }
    assert Outcomes(v, input - {key}, partial, users) == Outcomes(v, input, partial, users);
  }

  /** The profile columns the validated data sets; every other field (the credentials
      included) is ignored, and a column without a value keeps its old one. */
  function ApplyValidated(p: Store.Profile, data: map<FieldName, Cleaned>): (q: Store.Profile)
    ensures Name !in data ==> q.name == p.name
    ensures Gender !in data ==> q.gender == p.gender
    ensures DateOfBirth !in data ==> q.dateOfBirth == p.dateOfBirth
    ensures Interests !in data ==> q.interests == p.interests
    ensures Personality !in data ==> q.personality == p.personality
    ensures Why !in data ==> q.why == p.why
    ensures ProfilePicture !in data ==> q.picture == p.picture
    ensures q.name != p.name ==> data[Name] == Str(q.name)
    ensures q.gender != p.gender ==> data[Gender] == Str(q.gender)
    ensures q.picture != p.picture ==> data[ProfilePicture].Image? && q.picture == Some(UploadTo + data[ProfilePicture].name)
  {
    p.(name := TextOr(data, Name, p.name),
       dateOfBirth := if DateOfBirth in data && data[DateOfBirth].Day?
                      then Some(data[DateOfBirth].date) else p.dateOfBirth,
       gender := TextOr(data, Gender, p.gender),
       interests := OptionalText(data, Interests, p.interests),
       personality := OptionalText(data, Personality, p.personality),
       why := OptionalText(data, Why, p.why),
       picture := if ProfilePicture in data && data[ProfilePicture].Image?
                  then Some(UploadTo + data[ProfilePicture].name) else p.picture)
  }

  function TextOr(data: map<FieldName, Cleaned>, f: FieldName, default: string): string {
    if f in data && data[f].Str? then data[f].s else default
  }

  function OptionalText(data: map<FieldName, Cleaned>, f: FieldName, default: Option<string>): Option<string> {
    if f in data && data[f].Str? then Some(data[f].s) else default
  }

  /** Removing the credentials before the profile is built changes nothing: the
      profile never stores a username, an email or a password. */
  lemma ProfileIgnoresCredentials(p: Store.Profile, data: map<FieldName, Cleaned>)
    ensures ApplyValidated(p, data - {Username, Email, Password}) == ApplyValidated(p, data)
  {
  }

  /** The profile column a text field is stored in (`None` for the other fields). */
  function TextColumn(q: Store.Profile, f: FieldName): Option<string> {
    match f
    case Name => Some(q.name)
    case Gender => Some(q.gender)
    case Interests => q.interests
    case Personality => q.personality
    case Why => q.why
    case _ => None
  }

  /** Applying validated data keeps the column of every field the request leaves out. */
  lemma OmittedColumnKept(p: Store.Profile, v: Version, f: FieldName, input: map<string, string>,
                          partial: bool, users: map<Store.UserId, Store.Account>)
    requires Key(f) !in input
    ensures var q := ApplyValidated(p, Validate(v, input, partial, users).data);
      && TextColumn(q, f) == TextColumn(p, f)
      && (f == DateOfBirth ==> q.dateOfBirth == p.dateOfBirth)
      && (f == ProfilePicture ==> q.picture == p.picture)
  {
    AbsentNotInData(v, f, input, partial, users);
  }

  /** Applying validated data stores an accepted field in its column: a text field as
      the sent text stripped of white space, the date of birth as the parsed date, a
      picture under the upload folder. */
  lemma AcceptedColumnSet(p: Store.Profile, v: Version, f: FieldName, input: map<string, string>,
                          partial: bool, users: map<Store.UserId, Store.Account>)
    requires ValidateField(v, f, input, partial, users).Accepted?
    ensures Key(f) in input
    ensures var q := ApplyValidated(p, Validate(v, input, partial, users).data);
      && (f == Name || f == Gender || f == Interests || f == Personality || f == Why ==>
            TextColumn(q, f) == Some(PyStrip(input[Key(f)])))
      && (f == DateOfBirth ==> q.dateOfBirth == Dates.Parse(input[Key(f)]))
      && (f == ProfilePicture ==> q.picture == Some(UploadTo + input[Key(f)]))
  {
    AcceptedInData(v, f, input, partial, users);
    AcceptedSent(v, f, input, partial, users);
    match f
    case DateOfBirth => AcceptedDate(v, input, partial, users);
    case ProfilePicture => AcceptedUpload(v, input, partial, users);
    case Username =>
    case Email =>
    case Password =>
    case _ => AcceptedText(v, f, input, partial, users);
  }

  /** The first key `create` pops that the validated data lacks, in the order
      `username`, `password`, `email`. */
  function MissingKey(data: map<FieldName, Cleaned>): (k: Option<FieldName>)
    ensures k.None? <==> Username in data && Password in data && Email in data
    ensures k.Some? ==> k.value !in data && (k.value == Username || k.value == Password || k.value == Email)
    ensures k.Some? && k.value != Username ==> Username in data
    ensures k == Some(Email) ==> Password in data
  {
    if Username !in data then Some(Username)
    else if Password !in data then Some(Password)
    else if Email !in data then Some(Email)
    else None
  }

  /** The text a validated value stands for. */
  function TextOf(c: Cleaned): string {
    match c
    case Str(s) => s
    case Day(d) => Dates.Format(d)
    case Image(n) => n
  }

  datatype CreateResult =
    | Created(user: Store.UserId) | KeyError(key: FieldName) | ValueError | IntegrityError

  /** `create`: pops the credentials (a missing one raises `KeyError` before anything is
      written), then `create_user` refuses an empty username (`ValueError`), normalizes
      the email and the username, hashes the password and inserts the user (the table
      refuses a username it already has); then the profile linked to the user is
      inserted from the remaining data. */
  method Create(db: Store.Database, validated: map<FieldName, Cleaned>) returns (r: CreateResult)
    requires db.Valid()
    modifies db
    ensures db.Valid()
    ensures r.KeyError? <==> MissingKey(validated).Some?
    ensures r.KeyError? ==> r.key == MissingKey(validated).value
    ensures r.ValueError? <==> MissingKey(validated).None? && TextOf(validated[Username]) == ""
    ensures r.IntegrityError? <==>
      && MissingKey(validated).None? && TextOf(validated[Username]) != ""
      && Store.UsernameTaken(old(db.users), Store.NormalizeUsername(TextOf(validated[Username])))
    ensures !r.Created? ==> unchanged(db)
    ensures r.Created? ==>
      && r.user !in old(db.users)
      && db.users == old(db.users)[r.user := Store.NewUser(TextOf(validated[Username]),
                                                          TextOf(validated[Email]),
                                                          TextOf(validated[Password]))]
      && db.profiles == old(db.profiles)[r.user := ApplyValidated(Store.EmptyProfile, validated)]
      && db.chats == old(db.chats) && db.nextChatId == old(db.nextChatId)
  {
    var data := validated;
    if Username !in data { return KeyError(Username); }
    var username := TextOf(data[Username]);
    data := data - {Username};
    if Password !in data { return KeyError(Password); }
    var password := TextOf(data[Password]);
    data := data - {Password};
    if Email !in data { return KeyError(Email); }
    var email := TextOf(data[Email]);
    data := data - {Email};
    ProfileIgnoresCredentials(Store.EmptyProfile, validated);
    assert validated - {Username, Email, Password} == data;
    r := CreateUserWithProfile(db, username, email, password, ApplyValidated(Store.EmptyProfile, data));
  }

  /** `User.objects.create_user(username=..., email=..., password=...)` followed by
      `UserProfile.objects.create(user=user, ...)` with the given profile columns. */
  method CreateUserWithProfile(db: Store.Database, username: string, email: string, password: string,
                               profile: Store.Profile) returns (r: CreateResult)
    requires db.Valid()
    modifies db
    ensures db.Valid()
    ensures !r.KeyError?
    ensures r.ValueError? <==> username == ""
    ensures r.IntegrityError? <==>
      username != "" && Store.UsernameTaken(old(db.users), Store.NormalizeUsername(username))
    ensures !r.Created? ==> unchanged(db)
    ensures r.Created? ==>
      && r.user !in old(db.users)
      && db.users == old(db.users)[r.user := Store.NewUser(username, email, password)]
      && db.profiles == old(db.profiles)[r.user := profile]
      && db.chats == old(db.chats) && db.nextChatId == old(db.nextChatId)
  {
    if username == "" { return ValueError; }
    var account := Store.NewUser(username, email, password);
    if Store.UsernameTaken(db.users, account.username) {
      return IntegrityError;
    }
    var id := db.AddUser(account);
    db.AddProfile(id, profile);
    return Created(id);
  }

  datatype Registration = Registered(user: Store.UserId) | Invalid(errors: set<FieldName>) | Crashed

  /** The registration endpoint as written: validate with the declared fields, then
      `create`. Validation never yields `username`, so a valid request always ends in
      `create`'s `KeyError` and nothing is stored. */
  method RegisterAsWritten(db: Store.Database, input: map<string, string>) returns (r: Registration)
    requires db.Valid()
    modifies db
    ensures db.Valid()
    ensures !r.Registered? && unchanged(db)
    ensures r.Invalid? <==> Validate(AsWritten, input, false, old(db.users)).errors != {}
  {
    var v := Validate(AsWritten, input, false, db.users);
    if v.errors != {} { return Invalid(v.errors); }
    AsWrittenDropsCredentials(input, false, db.users);
    var c := Create(db, v.data);
    return Crashed;
  }

  /** A valid as-written registration reaches `create` without a username: the request
      never creates a user. */
  lemma AsWrittenNeverCreates(input: map<string, string>, users: map<Store.UserId, Store.Account>)
    requires Validate(AsWritten, input, false, users).errors == {}
    ensures MissingKey(Validate(AsWritten, input, false, users).data) == Some(Username)
  {
    AsWrittenDropsCredentials(input, false, users);
  }

  /** A request the as-written validation accepts: a usable password, name, gender and
      date of birth, and none of the optional fields. */
  predicate CompleteRequest(input: map<string, string>) {
    && "password" in input && CleanChars(input["password"], false, None).Some?
    && "name" in input && CleanChars(input["name"], false, Some(50)).Some?
    && "gender" in input && CleanChars(input["gender"], false, Some(10)).Some?
    && "dateOfBirth_str" in input && Dates.Parse(input["dateOfBirth_str"]).Some?
    && "interests" !in input && "personality" !in input && "why" !in input
    && "profile_picture" !in input
  }

  /** Each field of such a request is accepted or skipped by the as-written validation. */
  lemma CompleteRequestFieldPasses(f: FieldName, input: map<string, string>,
                                   users: map<Store.UserId, Store.Account>)
    requires CompleteRequest(input)
    ensures !ValidateField(AsWritten, f, input, false, users).Rejected?
  {
    if Declared(AsWritten, f).Some? {
      var spec := Declared(AsWritten, f).value;
      assert Key(f) in input ==> Clean(spec.kind, input[Key(f)]).Some? by {
        match f
        case Password =>
        case Name =>
        case DateOfBirth =>
        case Gender =>
        case _ =>
      }
      CleanFieldNotRejected(AsWritten, f, input, users);
    }
  }

  /** A field without a uniqueness hook is rejected only when its text does not clean
      or it is required and absent. */
  lemma CleanFieldNotRejected(v: Version, f: FieldName, input: map<string, string>,
                              users: map<Store.UserId, Store.Account>)
    requires Declared(v, f).Some? && Declared(v, f).value.check == NoCheck
    requires Key(f) in input ==> Clean(Declared(v, f).value.kind, input[Key(f)]).Some?
    requires Key(f) !in input ==> !Declared(v, f).value.required
    ensures !ValidateField(v, f, input, false, users).Rejected?
  {
  }

  /** Such requests pass the as-written validation, and every one of them still
      reaches `create` without a username. */
  lemma AsWrittenAcceptsCompleteRequest(input: map<string, string>, users: map<Store.UserId, Store.Account>)
    requires CompleteRequest(input)
    ensures Validate(AsWritten, input, false, users).errors == {}
    ensures MissingKey(Validate(AsWritten, input, false, users).data) == Some(Username)
  {
    var r := Validate(AsWritten, input, false, users);
    forall f ensures f !in r.errors {
      CompleteRequestFieldPasses(f, input, users);
      assert Reports(r, f, ValidateField(AsWritten, f, input, false, users));
    }
    AsWrittenDropsCredentials(input, false, users);
  }

  /** Outside the credentials the two versions validate a field alike. */
  lemma VersionsAgreeOffCredentials(f: FieldName, input: map<string, string>, partial: bool,
                                    users: map<Store.UserId, Store.Account>)
    requires f != Username && f != Email
    ensures ValidateField(Corrected, f, input, partial, users) == ValidateField(AsWritten, f, input, partial, users)
  {
  }

  /** A username and an email that are sent, non-blank and free of NUL once stripped,
      and whose normalised forms are not yet stored. */
  predicate FreshCredentials(input: map<string, string>, users: map<Store.UserId, Store.Account>) {
    && "username" in input && PyStrip(input["username"]) != [] && '\0' !in PyStrip(input["username"])
    && !Store.UsernameTaken(users, Store.NormalizeUsername(PyStrip(input["username"])))
    && "email" in input && PyStrip(input["email"]) != [] && '\0' !in PyStrip(input["email"])
    && !Store.EmailTaken(users, Store.NormalizeEmail(PyStrip(input["email"])))
  }

  /** A credential that strips to usable text and passes its hook is accepted stripped. */
  lemma CredentialAccepted(f: FieldName, input: map<string, string>, users: map<Store.UserId, Store.Account>)
    requires f == Username || f == Email
    requires Key(f) in input && PyStrip(input[Key(f)]) != [] && '\0' !in PyStrip(input[Key(f)])
    requires Passes(Declared(Corrected, f).value.check, Str(PyStrip(input[Key(f)])), users)
    ensures ValidateField(Corrected, f, input, false, users) == Accepted(Str(PyStrip(input[Key(f)])))
  {
    assert Clean(Chars(false, None), input[Key(f)]) == Some(Str(PyStrip(input[Key(f)])));
  }

  /** No field of a complete request with fresh credentials is rejected. */
  lemma FreshRegistrationFieldPasses(f: FieldName, input: map<string, string>,
                                     users: map<Store.UserId, Store.Account>)
    requires CompleteRequest(input) && FreshCredentials(input, users)
    ensures !ValidateField(Corrected, f, input, false, users).Rejected?
  {
    if f == Username || f == Email {
      CredentialAccepted(f, input, users);
    } else {
      CompleteRequestFieldPasses(f, input, users);
      VersionsAgreeOffCredentials(f, input, false, users);
    }
  }

  /** With writable credentials, a complete request whose username and email are fresh
      passes validation with both credentials stripped, so `Register` stores it. */
  lemma CorrectedAcceptsFreshRegistration(input: map<string, string>, users: map<Store.UserId, Store.Account>)
    requires CompleteRequest(input) && FreshCredentials(input, users)
    ensures Validate(Corrected, input, false, users).errors == {}
    ensures var data := Validate(Corrected, input, false, users).data;
      && Username in data && data[Username] == Str(PyStrip(input["username"]))
      && Email in data && data[Email] == Str(PyStrip(input["email"]))
  {
    var r := Validate(Corrected, input, false, users);
    forall f ensures f !in r.errors {
      FreshRegistrationFieldPasses(f, input, users);
      assert Reports(r, f, ValidateField(Corrected, f, input, false, users));
    }
    CredentialAccepted(Username, input, users);
    assert Reports(r, Username, ValidateField(Corrected, Username, input, false, users));
    CredentialAccepted(Email, input, users);
    assert Reports(r, Email, ValidateField(Corrected, Email, input, false, users));
  }

  /** The username hook as written looks up the text as sent, while `create_user`
      stores its NFKC form: a username that is not its own normal form, whose normal
      form is taken, passes the hook and then makes the insert fail (`IntegrityError`,
      see `CreateUserWithProfile`). The corrected hook refuses it. */
  lemma RawUsernameHookMissesNormalForm(users: map<Store.UserId, Store.Account>, id: Store.UserId,
                                        name: string)
    requires users.Keys == {id} && users[id].username == Store.NormalizeUsername(name)
    requires Store.NormalizeUsername(name) != name
    ensures RawPasses(UsernameUnused, Str(name), users)
    ensures Store.UsernameTaken(users, Store.NormalizeUsername(name))
    ensures !Passes(UsernameUnused, Str(name), users)
  {
  }

  /** The ligature `\U{FB01}` is not its own normal form: it normalizes to `fi`. */
  lemma LigatureExample()
    ensures Store.NormalizeUsername("\U{FB01}") == "fi" && Store.NormalizeUsername("fi") == "fi"
  {
    assert Store.NormalizeUsername("\U{FB01}") == Store.Compatibility('\U{FB01}') + Store.NormalizeUsername([]);
  }

  /** The email hook as written looks up the address as sent, while `create_user`
      stores it with a lower-case domain: an address that differs from a stored one
      only in the case of its domain passes the hook and is stored as a second account
      with the same address. The corrected hook refuses it. */
  lemma RawEmailHookMissesDomainCase(users: map<Store.UserId, Store.Account>, id: Store.UserId,
                                     local: string, domain: string)
    requires Store.NoAt(domain)
    requires local == [] || !Text.IsPySpace(local[0])
    requires domain == [] || !Text.IsPySpace(domain[|domain| - 1])
    requires Store.LowerAscii(domain) != domain
    requires users.Keys == {id} && users[id].email == local + "@" + Store.LowerAscii(domain)
    ensures RawPasses(EmailUnused, Str(local + "@" + domain), users)
    ensures Store.EmailTaken(users, Store.NormalizeEmail(local + "@" + domain))
    ensures !Passes(EmailUnused, Str(local + "@" + domain), users)
  {
    var sent, stored := local + "@" + domain, local + "@" + Store.LowerAscii(domain);
    assert sent != stored by {
      Store.AddressParts(local, domain);
      Store.AddressParts(local, Store.LowerAscii(domain));
    }
    assert Store.NormalizeEmail(sent) == stored by {
      Store.NormalizeSplitEmail(local, domain);
    }
    assert users[id].email == stored;
  }

  /** A new user whose username and email are both unused keeps credentials unique. */
  lemma AddAccountKeepsUnique(users: map<Store.UserId, Store.Account>, id: Store.UserId,
                              account: Store.Account)
    requires id !in users
    requires !Store.UsernameTaken(users, account.username) && !Store.EmailTaken(users, account.email)
    ensures Store.UniqueCredentials(users) ==> Store.UniqueCredentials(users[id := account])
  {
    if Store.UniqueCredentials(users) {
      var next := users[id := account];
      forall a, b | a in next && b in next && a != b
        ensures next[a].username != next[b].username && next[a].email != next[b].email
      {
        if a == id {
          assert next[b] == users[b];
        } else if b == id {
          assert next[a] == users[a];
        }
      }
    }
  }

  /** The registration endpoint with the corrected fields: a request that passes
      validation creates exactly one user with the checked credentials, normalized
      and with the password hashed, and one linked profile; usernames and emails stay
      unique and `create_user` never fails. */
  method Register(db: Store.Database, input: map<string, string>) returns (r: Registration)
    requires db.Valid()
    modifies db
    ensures db.Valid()
    ensures Store.UniqueCredentials(old(db.users)) ==> Store.UniqueCredentials(db.users)
    ensures !r.Crashed?
    ensures r.Invalid? <==> Validate(Corrected, input, false, old(db.users)).errors != {}
    ensures r.Invalid? ==> r.errors == Validate(Corrected, input, false, old(db.users)).errors && unchanged(db)
    ensures r.Registered? ==>
      && r.user !in old(db.users)
      && "username" in input && "email" in input && "password" in input
      && db.users == old(db.users)[r.user := Store.NewUser(PyStrip(input["username"]),
                                                          PyStrip(input["email"]),
                                                          PyStrip(input["password"]))]
      && db.profiles ==
           old(db.profiles)[r.user := ApplyValidated(Store.EmptyProfile,
                                                     Validate(Corrected, input, false, old(db.users)).data)]
      && db.chats == old(db.chats)
  {
    var v := Validate(Corrected, input, false, db.users);
    if v.errors != {} { return Invalid(v.errors); }
    CorrectedChecksCredentials(input, db.users);
    ghost var users := db.users;
    var c := Create(db, v.data);
    AddAccountKeepsUnique(users, c.user, db.users[c.user]);
    return Registered(c.user);
  }

  /** The serialized profile: the credentials read through the linked user, the profile
      columns, the date in `%Y-%m-%d`, the picture as a URL under `mediaBase`. */
  function Representation(account: Store.Account, p: Store.Profile, mediaBase: string): (r: Json.Object)
    ensures r.Keys == {"username", "email", "name", "dateOfBirth_str", "gender", "interests",
                       "personality", "why", "profile_picture"}
    ensures "password" !in r
  {
    map["username" := Json.Str(account.username),
        "email" := Json.Str(account.email),
        "name" := Json.Str(p.name),
        "dateOfBirth_str" := DateValue(p.dateOfBirth),
        "gender" := Json.Str(p.gender),
        "interests" := Json.FromOption(p.interests),
        "personality" := Json.FromOption(p.personality),
        "why" := Json.FromOption(p.why),
        "profile_picture" := if p.picture.None? || p.picture.value == [] then Json.Null
                             else Json.Str(mediaBase + p.picture.value)]
  }

  /** The serialized profile carries the declared fields and never the password; the
      credentials are the user's and the text columns are copied; the date, when set,
      reads back through the input format; the picture is null exactly when there is
      none, and otherwise its name under `mediaBase`. */
  lemma RepresentationShape(account: Store.Account, p: Store.Profile, mediaBase: string)
    ensures var r := Representation(account, p, mediaBase);
      && r.Keys == {"username", "email", "name", "dateOfBirth_str", "gender", "interests",
                    "personality", "why", "profile_picture"}
      && "password" !in r
      && r["username"] == Json.Str(account.username) && r["email"] == Json.Str(account.email)
      && r["name"] == Json.Str(p.name) && r["gender"] == Json.Str(p.gender)
      && r["interests"] == Json.FromOption(p.interests)
      && r["personality"] == Json.FromOption(p.personality) && r["why"] == Json.FromOption(p.why)
      && (p.picture.Some? && p.picture.value != [] ==>
            r["profile_picture"] == Json.Str(mediaBase + p.picture.value))
      && (r["dateOfBirth_str"].Null? <==> p.dateOfBirth.None?)
      && (p.dateOfBirth.Some? ==> Dates.Parse(r["dateOfBirth_str"].s) == Some(p.dateOfBirth.value))
      && (r["profile_picture"].Null? <==> p.picture.None? || p.picture.value == [])
  {
    if p.dateOfBirth.Some? {
      Dates.ParseFormat(p.dateOfBirth.value);
    }
  }

  /** A date as `%Y-%m-%d`. */
  function DateValue(d: Option<Dates.CalendarDate>): Json.Value {
    match d
    case None => Json.Null
    case Some(date) => Json.Str(Dates.Format(date))
  }
}
