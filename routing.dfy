/** The WebSocket route table of the chat server: `ws/chats/<chat_id>/`. */
module Routing {
  import opened Wrappers

  /** The characters `[0-9a-f-]` of the capture group: digits, lower-case hex letters
      and the dash. */
  predicate IsIdChar(c: char) {
    ('0' <= c <= '9') || ('a' <= c <= 'f') || c == '-'
  }

  /** A text the group `(?P<chat_id>[0-9a-f-]+)` can capture. */
  predicate ValidChatId(id: string) {
    |id| > 0 && forall i :: 0 <= i < |id| ==> IsIdChar(id[i])
  }

  const Prefix: string := "ws/chats/"

  /** The path the route expects for a chat id. */
  function RoutePath(id: string): string {
    Prefix + id + "/"
  }

  /** Matching `ws/chats/(?P<chat_id>[0-9a-f-]+)/$` against the whole path (with the
      leading `/` already removed): the captured `chat_id`, or `None` when the route
      does not apply. */
  function ChatRoute(path: string): (r: Option<string>)
    ensures r.Some? ==> ValidChatId(r.value) && path == RoutePath(r.value)
    ensures r.None? ==> forall id :: ValidChatId(id) ==> path != RoutePath(id)
  {
    var n := |Prefix|;
    if |path| >= n + 2 && path[..n] == Prefix && path[|path| - 1] == '/'
       && ValidChatId(path[n..|path| - 1])
    then
      assert path == Prefix + path[n..|path| - 1] + "/";
      Some(path[n..|path| - 1])
    else
      assert forall id :: ValidChatId(id) && path == RoutePath(id) ==> path[n..|path| - 1] == id;
      None
  }

  /** The route captures exactly the valid ids, each as itself. */
  lemma RouteCapturesValidIds(id: string)
    ensures ChatRoute(RoutePath(id)) == if ValidChatId(id) then Some(id) else None
  {
    var p := RoutePath(id);
    assert p[|Prefix|..|p| - 1] == id;
  }

  /** Upper-case hexadecimal digits are outside the pattern. */
  lemma UpperCaseRejected(id: string, i: nat)
    requires i < |id| && 'A' <= id[i] <= 'F'
    ensures ChatRoute(RoutePath(id)) == None
  {
    RouteCapturesValidIds(id);
  }
}
