/**
 * The session-to-chat binding store (`load_session_chat_map`,
 * `bind_session_to_chat`, `get_chat_id_for_session`, bridge.py:849-889)
 * and the two places that decide whether to bind: a free-text message
 * (`_handle_regular_message`, bridge.py:1205-1227) and the background
 * poller (`session_poller`, bridge.py:1246-1261).
 *
 * Chat ids are stored as their decimal text (`str(chat_id)`), so a bound
 * chat is compared with the sender through `ShowInt`.
 */
module Bindings {
  import opened Wrappers
  import opened Text
  import opened SyncGate
  import opened Identity

  /** The map file `session_chat_map.json`: absent, unreadable or malformed, or a JSON object. */
  datatype MapFile = Missing | Corrupt | Stored(chats: map<string, string>)

  /** `load_session_chat_map`: a missing or broken file reads as the empty map. */
  function LoadMap(f: MapFile): (m: map<string, string>)
    ensures f.Stored? ==> m == f.chats
    ensures !f.Stored? ==> m == map[]
  {
    if f.Stored? then f.chats else map[]
  }

  /** `get_chat_id_for_session`: the chat bound to `sid`, never for the empty id. */
  function ChatIdForSession(f: MapFile, sid: string): (r: Option<string>)
    ensures r.Some? <==> sid != "" && sid in LoadMap(f)
    ensures r.Some? ==> r.value == LoadMap(f)[sid]
  {
    if sid == "" then None
    else if sid in LoadMap(f) then Some(LoadMap(f)[sid])
    else None
  }

  /**
   * The map file after `bind_session_to_chat(sid, chat)`: the loaded map
   * with `sid` set to the chat's decimal text and written back. An empty id
   * leaves the file alone, and so does a failed write (`saved` false).
   */
  function BindMap(f: MapFile, sid: string, chat: int, saved: bool): (r: MapFile)
    ensures sid != "" && saved ==> r.Stored? && r.chats.Keys == LoadMap(f).Keys + {sid} && r.chats[sid] == ShowInt(chat)
    ensures sid == "" || !saved ==> r == f
  {
    if sid == "" || !saved then f else Stored(LoadMap(f)[sid := ShowInt(chat)])
  }

  /** A bind makes the session answer the new chat and leaves every other session's chat as it was. */
  lemma BindThenLookup(f: MapFile, sid: string, chat: int, k: string)
    requires sid != ""
    ensures ChatIdForSession(BindMap(f, sid, chat, true), sid) == Some(ShowInt(chat))
    ensures k != sid ==> ChatIdForSession(BindMap(f, sid, chat, true), k) == ChatIdForSession(f, k)
  {
  }

  /** An empty id or a failed write changes nothing. */
  lemma BindNoop(f: MapFile, sid: string, chat: int, saved: bool)
    requires sid == "" || !saved
    ensures BindMap(f, sid, chat, saved) == f
  {
  }

  // ---------------------------------------------------------------------
  // A free-text message

  /** What `_handle_regular_message` does with a message. */
  datatype MessageAction =
    | RefuseInactive(state: SyncState)  // the sync gate is paused or terminated
    | RefuseNoTmux                      // the tmux session is missing
    | BindAndForward(sid: string)       // the current session was unbound: bind it to the sender, then forward
    | Forward                           // forward to the pane without binding
    | RefuseBoundElsewhere              // the current session belongs to another chat

  predicate Forwards(a: MessageAction) {
    a.BindAndForward? || a.Forward?
  }

  /**
   * The decision, given the sync state, whether tmux is up, the current
   * session id and the chat it is bound to (both as looked up by the bridge).
   */
  function RegularMessageDecision(state: SyncState, tmuxUp: bool, sid: Option<string>, bound: Option<string>, chat: int): (a: MessageAction)
    ensures a.RefuseInactive? <==> state != Active
    ensures a.RefuseInactive? ==> a.state == state
    ensures a == RefuseNoTmux <==> state == Active && !tmuxUp
    ensures a.BindAndForward? <==> state == Active && tmuxUp && Truthy(sid) && !Truthy(bound)
    ensures a.BindAndForward? ==> sid == Some(a.sid)
    ensures a == RefuseBoundElsewhere <==> state == Active && tmuxUp && Truthy(sid) && Truthy(bound) && bound.value != ShowInt(chat)
    ensures Forwards(a) <==> state == Active && tmuxUp && !(Truthy(sid) && Truthy(bound) && bound.value != ShowInt(chat))
  {
    if state != Active then RefuseInactive(state)
    else if !tmuxUp then RefuseNoTmux
    else if Truthy(sid) then
      if !Truthy(bound) then BindAndForward(sid.value)
      else if bound.value != ShowInt(chat) then RefuseBoundElsewhere
      else Forward
    else Forward
  }

  /**
   * A message from chat `c` binds the unbound session `sid`; afterwards a
   * message from any other chat is refused, and one from `c` is forwarded
   * without binding again.
   */
  lemma FirstChatOwnsSession(f: MapFile, sid: string, c: int, d: int, tmuxUp: bool)
    requires tmuxUp && sid != ""
    requires !Truthy(ChatIdForSession(f, sid))
    ensures RegularMessageDecision(Active, tmuxUp, Some(sid), ChatIdForSession(f, sid), c) == BindAndForward(sid)
    ensures d != c ==> RegularMessageDecision(Active, tmuxUp, Some(sid), ChatIdForSession(BindMap(f, sid, c, true), sid), d) == RefuseBoundElsewhere
    ensures RegularMessageDecision(Active, tmuxUp, Some(sid), ChatIdForSession(BindMap(f, sid, c, true), sid), c) == Forward
  {
    BindThenLookup(f, sid, c, sid);
    ShowIntInjective(c, d);
    ParseShowInt(c);
  }

  // ---------------------------------------------------------------------
  // One pass of the background poller

  /** What one pass of the poller decides: the new last-known id, and the chat to bind, if any. */
  datatype PollStep = PollStep(lastKnown: Option<string>, bindTo: Option<int>)

  /**
   * A pass: when the current id is non-empty and differs from the last one
   * seen, remember it, and if it is unbound and the chat-id file holds a
   * non-blank number, bind it to that chat. A chat-id file that does not
   * parse raises inside the pass and the exception is swallowed; the
   * last-known id has already been updated by then.
   */
  function Poll(current: Option<string>, lastKnown: Option<string>, bound: Option<string>, chatFile: Option<string>): (p: PollStep)
    ensures p.lastKnown == (if Truthy(current) && current != lastKnown then current else lastKnown)
    ensures p.bindTo.Some? <==>
              Truthy(current) && current != lastKnown && !Truthy(bound) && chatFile.Some? &&
              Strip(chatFile.value) != "" && ParseInt(Strip(chatFile.value)).Some?
    ensures p.bindTo.Some? ==> p.bindTo == ParseInt(Strip(chatFile.value))
  {
    if Truthy(current) && current != lastKnown then
      if !Truthy(bound) && chatFile.Some? && Strip(chatFile.value) != "" then
        PollStep(current, ParseInt(Strip(chatFile.value)))
      else PollStep(current, None)
    else PollStep(lastKnown, None)
  }

  /** A second pass over the same current id binds nothing: each new id is considered once. */
  lemma PollOncePerSession(current: Option<string>, lastKnown: Option<string>, bound: Option<string>, chatFile: Option<string>)
    ensures Poll(current, Poll(current, lastKnown, bound, chatFile).lastKnown, bound, chatFile).bindTo == None
  {
  }

  /** The poller never rebinds a session that already has a chat. */
  lemma PollKeepsBinding(current: Option<string>, lastKnown: Option<string>, bound: Option<string>, chatFile: Option<string>)
    requires Truthy(bound)
    ensures Poll(current, lastKnown, bound, chatFile).bindTo == None
  {
  }

  /** The chat id that `handle_message` wrote is the one the poller binds a new unbound session to. */
  lemma PollBindsLastChat(sid: string, lastKnown: Option<string>, f: MapFile, chat: int)
    requires sid != "" && Some(sid) != lastKnown
    requires !Truthy(ChatIdForSession(f, sid))
    ensures Poll(Some(sid), lastKnown, ChatIdForSession(f, sid), Some(ShowInt(chat))).bindTo == Some(chat)
  {
    ParseShowInt(chat);
    PollBindsParsed(sid, lastKnown, ChatIdForSession(f, sid), ShowInt(chat), chat);
  }

  /** A clean decimal in the chat-id file is what a new unbound session gets bound to. */
  lemma PollBindsParsed(sid: string, lastKnown: Option<string>, bound: Option<string>, text: string, chat: int)
    requires sid != "" && Some(sid) != lastKnown && !Truthy(bound)
    requires Strip(text) == text && text != "" && ParseInt(text) == Some(chat)
    ensures Poll(Some(sid), lastKnown, bound, Some(text)).bindTo == Some(chat)
  {
  }

}
