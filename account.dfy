/** The account screen: the profile fields it fills from the server's answer, and the
    multipart form it sends on save, with the picture's file name and type derived
    from its URI. */
module Account {
  import opened Wrappers
  import opened Text
  import Json
  import Helper

  /** `uri.split('/').pop() || 'profile.jpg'`: the text after the last `/`, or
      `profile.jpg` when that text is empty. */
  function Filename(uri: string): (name: string)
    ensures name != [] && '/' !in name
    ensures uri == [] || uri[|uri| - 1] == '/' ==> name == "profile.jpg"
    ensures uri != [] && uri[|uri| - 1] != '/' ==>
      && |name| <= |uri| && name == uri[|uri| - |name|..]
      && (|name| < |uri| ==> uri[|uri| - |name| - 1] == '/')
  {
    var segment := LastSegment(uri);
    if segment == [] then "profile.jpg" else segment
  }

  /** Where the run of `\w` characters ending at `end` starts. */
  function WordStart(s: string, end: nat): (k: nat)
    requires end <= |s|
    ensures k <= end
    ensures forall i :: k <= i < end ==> IsWordChar(s[i])
    ensures k > 0 ==> !IsWordChar(s[k - 1])
    decreases end
  {
    if end == 0 || !IsWordChar(s[end - 1]) then end else WordStart(s, end - 1)
  }

  /** The longest run of `\w` characters at the end of `s`. */
  function WordSuffix(s: string): (w: string)
    ensures |w| <= |s| && w == s[|s| - |w|..]
    ensures forall i :: 0 <= i < |w| ==> IsWordChar(w[i])
    ensures |w| < |s| ==> !IsWordChar(s[|s| - |w| - 1])
  {
    var k := WordStart(s, |s|);
    assert forall i :: 0 <= i < |s| - k ==> s[k..][i] == s[k + i];
    s[k..]
  }

  /** The group `/\.(\w+)$/` captures in the file name, if it matches. */
  function Extension(filename: string): Option<string> {
    var w := WordSuffix(filename);
    if w != [] && |w| < |filename| && filename[|filename| - |w| - 1] == '.' then Some(w) else None
  }

  /** `e` is what `/\.(\w+)$/` captures: a non-empty run of `\w` characters that ends
      the name, right after a `.`. */
  ghost predicate EndsWithExtension(filename: string, e: string) {
    && e != [] && (forall i :: 0 <= i < |e| ==> IsWordChar(e[i]))
    && exists p :: filename == p + "." + e
  }

  /** A run of `\w` characters from `k` to `end` after a non-word character starts
      at `k`. */
  lemma {:induction false} WordStartOfRun(s: string, end: nat, k: nat)
    requires k <= end <= |s|
    requires forall i :: k <= i < end ==> IsWordChar(s[i])
    requires k > 0 && !IsWordChar(s[k - 1])
    ensures WordStart(s, end) == k
    decreases end
  {
    if end > k {
      WordStartOfRun(s, end - 1, k);
    }
  }

  /** A name ending in `.` and a run of `\w` characters: that run is the longest `\w`
      suffix. */
  lemma WordSuffixAfterDot(filename: string, e: string)
    requires forall i :: 0 <= i < |e| ==> IsWordChar(e[i])
    requires |e| < |filename| && filename[|filename| - |e|..] == e && filename[|filename| - |e| - 1] == '.'
    ensures WordSuffix(filename) == e
  {
    var k := |filename| - |e|;
    forall i | k <= i < |filename| ensures IsWordChar(filename[i]) {
      assert filename[i] == e[i - k];
    }
    WordStartOfRun(filename, |filename|, k);
  }

  /** A derived extension is a capture of the regular expression. */
  lemma ExtensionCaptured(filename: string, e: string)
    requires Extension(filename) == Some(e)
    ensures EndsWithExtension(filename, e)
  {
    var p := filename[..|filename| - |e| - 1];
    assert filename == p + "." + e;
  }

  /** A capture of the regular expression is the derived extension. */
  lemma CaptureDerived(filename: string, e: string)
    requires EndsWithExtension(filename, e)
    ensures Extension(filename) == Some(e)
  {
    var p :| filename == p + "." + e;
    assert filename[|filename| - |e|..] == e;
    WordSuffixAfterDot(filename, e);
  }

  /** The derived extension is exactly the regular expression's capture. */
  lemma ExtensionMatches(filename: string, e: string)
    ensures Extension(filename) == Some(e) <==> EndsWithExtension(filename, e)
  {
    if Extension(filename) == Some(e) {
      ExtensionCaptured(filename, e);
    }
    if EndsWithExtension(filename, e) {
      CaptureDerived(filename, e);
    }
  }

  /** The picture's MIME type: `image/` and the extension, or `image` alone. */
  function MimeType(filename: string): (t: string)
    ensures Extension(filename).Some? ==> t == "image/" + Extension(filename).value
    ensures Extension(filename).None? ==> t == "image"
  {
    match Extension(filename)
    case Some(e) => "image/" + e
    case None => "image"
  }

  /** `data.key || ''`: the field's text, or the empty string when it is absent,
      `null` or empty. */
  function OrEmpty(v: Option<string>): (s: string)
    ensures s == "" <==> !Truthy(v)
    ensures Truthy(v) ==> s == v.value
  {
    if Truthy(v) then v.value else ""
  }

  /** A text field of the fetched profile, `''` when it is missing. */
  function TextField(data: Json.Object, key: string): string {
    OrEmpty(Json.Get(data, key))
  }

  /** A fetched text field is empty exactly when the answer has no non-empty text
      under its key, and otherwise is that text. */
  lemma TextFieldDefaults(data: Json.Object, key: string)
    ensures TextField(data, key) == "" <==> !(key in data && data[key].Str? && data[key].s != "")
    ensures TextField(data, key) != "" ==> data[key] == Json.Str(TextField(data, key))
  {
  }

  /** A part of the multipart body: a text field, or the picture file. */
  datatype Part = TextPart(key: string, value: string) | FilePart(key: string, uri: string, name: string, mimeType: string)

  /** The moods the account screen offers. */
  const MoodOptions: seq<string> := ["", "casual chat", "deep talk", "activity partner", "networking", "new to town"]

  /** Of the selectable moods only `deep talk` has a colour of its own on the map; the
      others fall back to black. */
  lemma OnlyDeepTalkColoured(m: string)
    requires m in MoodOptions
    ensures Helper.PersonColor(Some(m)) != "black" <==> m == "deep talk"
  {
    assert m == "" || m == "casual chat" || m == "deep talk" || m == "activity partner"
      || m == "networking" || m == "new to town";
  }

  /** The account screen's state. */
  class AccountForm {
    var username: Option<string>
    var email: Option<string>
    var name: string
    /** The text the date of birth was last set from. */
    var dateOfBirth: string
    var gender: string
    var interests: string
    var personality: string
    var why: string
    var profilePicture: Option<string>
    var mood: string

    /** The state on mount: empty fields, no picture, the date of birth at `today`. */
    constructor (today: string)
      ensures username == Some("") && email == Some("") && name == "" && gender == ""
      ensures interests == "" && personality == "" && why == "" && mood == ""
      ensures profilePicture.None? && dateOfBirth == today
    {
      username, email := Some(""), Some("");
      name, gender, interests, personality, why, mood := "", "", "", "", "", "";
      profilePicture := None;
      dateOfBirth := today;
    }

    /** The text fields `fetchProfile` sets, each `data.key || ''`. */
    method ApplyFetchedTexts(data: Json.Object)
      modifies this`name, this`gender, this`interests, this`personality, this`why, this`mood
      ensures name == TextField(data, "name") && gender == TextField(data, "gender")
      ensures interests == TextField(data, "interests")
      ensures personality == TextField(data, "personality")
      ensures why == TextField(data, "why") && mood == TextField(data, "mood")
    {
      name := TextField(data, "name");
      gender := TextField(data, "gender");
      interests := TextField(data, "interests");
      personality := TextField(data, "personality");
      why := TextField(data, "why");
      mood := TextField(data, "mood");
    }

    /** `fetchProfile` on a successful answer: the credentials are copied as they come,
        the text fields default to the empty string, and the date of birth and the
        picture change only when the answer carries a non-empty value. */
    method ApplyFetchedProfile(data: Json.Object)
      modifies this
      ensures username == Json.Get(data, "username") && email == Json.Get(data, "email")
      ensures name == TextField(data, "name") && gender == TextField(data, "gender")
      ensures interests == TextField(data, "interests")
      ensures personality == TextField(data, "personality")
      ensures why == TextField(data, "why") && mood == TextField(data, "mood")
      ensures dateOfBirth == (if Truthy(Json.Get(data, "dateOfBirth_str"))
                              then Json.Get(data, "dateOfBirth_str").value else old(dateOfBirth))
      ensures profilePicture == (if Truthy(Json.Get(data, "profile_picture"))
                                 then Json.Get(data, "profile_picture") else old(profilePicture))
    {
      username := Json.Get(data, "username");
      email := Json.Get(data, "email");
      var date := Json.Get(data, "dateOfBirth_str");
      if Truthy(date) {
        dateOfBirth := date.value;
      }
      var picture := Json.Get(data, "profile_picture");
      if Truthy(picture) {
        profilePicture := picture;
      }
      ApplyFetchedTexts(data);
    }

    /** `handleSave`'s form: the seven text fields in a fixed order, then the picture
        file only when a picture is set, named and typed after its URI. */
    method SaveParts(dateOfBirthText: string) returns (parts: seq<Part>)
      ensures |parts| == if Truthy(profilePicture) then 8 else 7
      ensures forall i :: 0 <= i < 7 ==> parts[i].TextPart?
      ensures parts[0] == TextPart("name", name) && parts[1] == TextPart("dateOfBirth_str", dateOfBirthText)
      ensures parts[2] == TextPart("gender", gender) && parts[3] == TextPart("interests", interests)
      ensures parts[4] == TextPart("personality", personality) && parts[5] == TextPart("why", why)
      ensures parts[6] == TextPart("mood", mood)
      ensures |parts| == 8 ==>
        parts[7] == FilePart("profile_picture", profilePicture.value, Filename(profilePicture.value),
                             MimeType(Filename(profilePicture.value)))
    {
      var texts := [TextPart("name", name), TextPart("dateOfBirth_str", dateOfBirthText),
                    TextPart("gender", gender), TextPart("interests", interests),
                    TextPart("personality", personality), TextPart("why", why), TextPart("mood", mood)];
      parts := texts;
      if Truthy(profilePicture) {
        var uri := profilePicture.value;
        var filename := Filename(uri);
        var mimeType := MimeType(filename);
        var picture := FilePart("profile_picture", uri, filename, mimeType);
        parts := texts + [picture];
        assert parts[..7] == texts && parts[7] == picture;
      }
    }
  }
}
