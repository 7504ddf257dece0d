/** The colour tables of the map screens: a colour per event type and per friendship
    mood, each a `switch` with a default. */
module Helper {
  import opened Wrappers

  /** `getEventColor`: the four event types have their own colours; anything else,
      an absent type included, is red. */
  function EventColor(eventType: Option<string>): (color: string)
    ensures eventType == Some("sport") <==> color == "green"
    ensures eventType == Some("cultural") <==> color == "purple"
    ensures eventType == Some("activity") <==> color == "orange"
    ensures eventType == Some("online") <==> color == "blue"
    ensures color == "red" <==> !(eventType.Some? && eventType.value in EventTypes)
  {
    match eventType
    case Some("sport") => "green"
    case Some("cultural") => "purple"
    case Some("activity") => "orange"
    case Some("online") => "blue"
    case _ => "red"
  }

  /** `getPersonColor`: three moods have their own colours; anything else, an absent
      mood included, is black. */
  function PersonColor(mood: Option<string>): (color: string)
    ensures mood == Some("quick chat") <==> color == "yellow"
    ensures mood == Some("deep talk") <==> color == "brown"
    ensures mood == Some("professional") <==> color == "gray"
    ensures color == "black" <==> !(mood.Some? && mood.value in PersonMoods)
  {
    match mood
    case Some("quick chat") => "yellow"
    case Some("deep talk") => "brown"
    case Some("professional") => "gray"
    case _ => "black"
  }

  /** The moods with a colour of their own. */
  const PersonMoods: seq<string> := ["quick chat", "deep talk", "professional"]

  /** The event types the map knows. */
  const EventTypes: seq<string> := ["sport", "cultural", "activity", "online"]

  /** The four known event types get four different colours, none of them the default
      red; every other type gets red. */
  lemma EventColorsDistinct(a: Option<string>, b: Option<string>)
    requires a != b
    requires a.Some? && a.value in EventTypes
    ensures EventColor(a) != EventColor(b)
    ensures EventColor(a) != "red"
  {
  }
}
