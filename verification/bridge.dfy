/**
 * The bridge's mutable world: the flag, map and marker files under
 * `~/.claude`, the tmux window, and the keys typed into the pane. Its
 * methods are the operations that change them: clearing the sync flags,
 * `/stop`, `/escape`, `/terminate` (bridge.py:137-150, 1055-1083),
 * binding (bridge.py:869-881), remembering the last chat
 * (bridge.py:1190-1191), forwarding a free-text message
 * (bridge.py:1205-1227) and one pass of the session poller
 * (bridge.py:1246-1261).
 *
 * A failing file write is a parameter (`writeOk`, `saveOk`, `markerOk`)
 * only where the source catches the error and carries on: the flag writes
 * of `/stop` and `/terminate` and the two writes of a bind. The other
 * writes and removals are modelled as always succeeding.
 */
module Bridge {
  import opened Wrappers
  import opened Text
  import opened SessionStore
  import opened Identity
  import opened SyncGate
  import opened Bindings
  import opened Pane

  /**
   * Once a session is bound to `chat` and named in both the window title
   * and the marker, it is the current session and every other chat is
   * refused.
   */
  lemma BoundSessionIsOwned(sid: string, chat: int, f: MapFile, recent: Option<string>)
    requires Strip(sid) == sid && sid !in GenericWindowNames
    ensures CurrentSessionId(TitleSid(Some(sid)), MarkerSid(Some(sid)), recent) == Some(sid)
    ensures forall d :: d != chat ==>
              RegularMessageDecision(Active, true, Some(sid), ChatIdForSession(BindMap(f, sid, chat, true), sid), d) == RefuseBoundElsewhere
  {
    AgreementWins(sid, recent);
    forall d | d != chat
      ensures RegularMessageDecision(Active, true, Some(sid), ChatIdForSession(BindMap(f, sid, chat, true), sid), d) == RefuseBoundElsewhere
    {
      BindThenLookup(f, sid, chat, sid);
      ShowIntInjective(chat, d);
      ParseShowInt(chat);
    }
  }

  class BridgeState {
    var pausedFlag: bool                 // telegram_sync_paused exists
    var disabledFlag: bool               // telegram_sync_disabled exists
    var pendingFlag: bool                // telegram_pending exists
    var chatIdFile: Option<string>       // telegram_chat_id, if present and readable
    var mapFile: MapFile                 // session_chat_map.json
    var marker: Option<string>           // current_session_id, if present and readable
    var tmuxUp: bool                     // the tmux session exists
    var windowName: string               // its window name
    var projects: Option<ProjectsDir>    // the session logs
    var sent: seq<PaneCmd>               // everything typed into the pane so far

    constructor (projects: Option<ProjectsDir>, tmuxUp: bool, windowName: string)
      ensures !pausedFlag && !disabledFlag && !pendingFlag
      ensures chatIdFile == None && mapFile == Missing && marker == None
      ensures this.projects == projects && this.tmuxUp == tmuxUp && this.windowName == windowName && sent == []
    {
      pausedFlag, disabledFlag, pendingFlag := false, false, false;
      chatIdFile, mapFile, marker := None, Missing, None;
      this.projects, this.tmuxUp, this.windowName := projects, tmuxUp, windowName;
      sent := [];
    }

    /** `get_sync_state` over the two flag files. */
    function State(): SyncState
      reads this`pausedFlag, this`disabledFlag
    {
      GetSyncState(pausedFlag, disabledFlag)
    }

    /** `tmux_get_title`: None when the tmux session is missing. */
    function Title(): Option<string>
      reads this`tmuxUp, this`windowName
    {
      if tmuxUp then TitleSid(Some(windowName)) else None
    }

    /** `get_current_session_id` over the window title, the marker file and the session logs. */
    function CurrentSid(): Option<string>
      reads this`tmuxUp, this`windowName, this`marker, this`projects
    {
      CurrentSessionId(Title(), MarkerSid(marker), RecentSid(projects))
    }

    /** `get_chat_id_for_session`. */
    function ChatFor(sid: string): Option<string>
      reads this`mapFile
    {
      ChatIdForSession(mapFile, sid)
    }

    /** The chat the current session is bound to, as the message handler looks it up. */
    function BoundChat(): Option<string>
      reads this`tmuxUp, this`windowName, this`marker, this`projects, this`mapFile
    {
      var sid := CurrentSid();
      if sid.Some? then ChatFor(sid.value) else None
    }

    /** `clear_sync_flags`: both flag files removed; sync is active. */
    method ClearSyncFlags()
      modifies this`pausedFlag, this`disabledFlag
      ensures !pausedFlag && !disabledFlag && State() == Active
    {
      pausedFlag, disabledFlag := false, false;
    }

    /**
     * `/stop`: write the paused flag and drop the pending flag. A failed
     * write changes nothing. The disabled flag is left alone, so a
     * terminated bridge stays terminated.
     */
    method Stop(writeOk: bool)
      modifies this`pausedFlag, this`pendingFlag
      ensures writeOk ==> pausedFlag && !pendingFlag
      ensures writeOk ==> State() == (if disabledFlag then Terminated else Paused)
      ensures !writeOk ==> pausedFlag == old(pausedFlag) && pendingFlag == old(pendingFlag)
    {
      if writeOk {
        pausedFlag, pendingFlag := true, false;
      }
    }

    /** `/escape`: Escape and Ctrl-C into the pane when tmux is up; the pending flag goes in any case. */
    method Escape()
      modifies this`sent, this`pendingFlag
      ensures sent == old(sent) + (if tmuxUp then [Key("Escape"), Key("C-c")] else [])
      ensures !pendingFlag
    {
      if tmuxUp {
        sent := sent + [Key("Escape"), Key("C-c")];
      }
      pendingFlag := false;
    }

    /** `/terminate`: write the disabled flag, drop the paused and pending flags. A failed write changes nothing. */
    method Terminate(writeOk: bool)
      modifies this`disabledFlag, this`pausedFlag, this`pendingFlag
      ensures writeOk ==> disabledFlag && !pausedFlag && !pendingFlag && State() == Terminated
      ensures !writeOk ==> pausedFlag == old(pausedFlag) && disabledFlag == old(disabledFlag) && pendingFlag == old(pendingFlag)
    {
      if writeOk {
        disabledFlag, pausedFlag, pendingFlag := true, false, false;
      }
    }

    /**
     * `bind_session_to_chat`: record the chat for the session in the map
     * file and make the session the current one in the marker file. An
     * empty id changes nothing.
     */
    method Bind(sid: string, chat: int, saveOk: bool, markerOk: bool)
      modifies this`mapFile, this`marker
      ensures mapFile == BindMap(old(mapFile), sid, chat, saveOk)
      ensures marker == (if sid != "" && markerOk then Some(sid) else old(marker))
      ensures sid != "" && saveOk ==> ChatFor(sid) == Some(ShowInt(chat))
      ensures forall k :: k != sid ==> ChatFor(k) == old(ChatFor(k))
    {
      if sid == "" {
        return;
      }
      mapFile := BindMap(mapFile, sid, chat, saveOk);
      if markerOk {
        marker := Some(sid);
      }
      forall k | k != sid
        ensures ChatFor(k) == old(ChatFor(k))
      {
        if saveOk {
          BindThenLookup(old(mapFile), sid, chat, k);
        }
      }
    }

    /** `tmux_set_title`: renames the window; nothing happens without a tmux session. */
    method SetTitle(title: string)
      modifies this`windowName
      ensures windowName == (if tmuxUp then title else old(windowName))
    {
      if tmuxUp {
        windowName := title;
      }
    }

    /** The first thing `handle_message` does with a message that has text and a chat: remember the chat. */
    method RememberChat(chat: int)
      modifies this`chatIdFile
      ensures chatIdFile == Some(ShowInt(chat))
    {
      chatIdFile := Some(ShowInt(chat));
    }

    /**
     * The bind both message paths perform: record the chat, then name the
     * window after the session. When the writes succeed and the id is a
     * clean window name, the title and the marker agree on it, so it is
     * the current session from then on, whatever the logs say.
     */
    method BindCurrent(sid: string, chat: int, saveOk: bool, markerOk: bool)
      modifies this`mapFile, this`marker, this`windowName
      ensures mapFile == BindMap(old(mapFile), sid, chat, saveOk)
      ensures marker == (if sid != "" && markerOk then Some(sid) else old(marker))
      ensures windowName == (if tmuxUp then sid else old(windowName))
      ensures sid != "" && saveOk ==> ChatFor(sid) == Some(ShowInt(chat))
      ensures tmuxUp && markerOk && Strip(sid) == sid && sid !in GenericWindowNames ==> CurrentSid() == Some(sid)
    {
      Bind(sid, chat, saveOk, markerOk);
      SetTitle(sid);
      if tmuxUp && markerOk && Strip(sid) == sid && sid !in GenericWindowNames {
        AgreedIsCurrent(sid);
      }
    }

    /** A clean id that both names the window and fills the marker is the current session. */
    lemma AgreedIsCurrent(sid: string)
      requires tmuxUp && windowName == sid && marker == Some(sid)
      requires Strip(sid) == sid && sid !in GenericWindowNames
      ensures CurrentSid() == Some(sid)
    {
      AgreementWins(sid, RecentSid(projects));
    }

    /** `tmux_send_message` followed by the pending-reply flag. */
    method Forward(text: string)
      modifies this`sent, this`pendingFlag
      ensures sent == old(sent) + Line(text) && pendingFlag
    {
      pendingFlag := true;
      sent := sent + Line(text);
    }

    /**
     * `_handle_regular_message`: decide, bind an unbound current session
     * to the sender, and forward the text (marking a reply as pending).
     */
    method HandleRegularMessage(chat: int, text: string, saveOk: bool, markerOk: bool) returns (a: MessageAction)
      modifies this`mapFile, this`marker, this`windowName, this`sent, this`pendingFlag
      ensures a == RegularMessageDecision(old(State()), old(tmuxUp), old(CurrentSid()), old(BoundChat()), chat)
      ensures Forwards(a) ==> sent == old(sent) + Line(text) && pendingFlag
      ensures !Forwards(a) ==> sent == old(sent) && pendingFlag == old(pendingFlag)
      ensures !a.BindAndForward? ==> mapFile == old(mapFile) && marker == old(marker) && windowName == old(windowName)
      ensures a.BindAndForward? ==> mapFile == BindMap(old(mapFile), a.sid, chat, saveOk) && windowName == a.sid
      ensures a.BindAndForward? ==> marker == (if markerOk then Some(a.sid) else old(marker))
    {
      a := RegularMessageDecision(State(), tmuxUp, CurrentSid(), BoundChat(), chat);
      CarryOut(a, chat, text, saveOk, markerOk);
    }

    /** The effects of a decided action: bind an unbound session, then forward the text. */
    method CarryOut(a: MessageAction, chat: int, text: string, saveOk: bool, markerOk: bool)
      requires a.BindAndForward? ==> tmuxUp
      modifies this`mapFile, this`marker, this`windowName, this`sent, this`pendingFlag
      ensures Forwards(a) ==> sent == old(sent) + Line(text) && pendingFlag
      ensures !Forwards(a) ==> sent == old(sent) && pendingFlag == old(pendingFlag)
      ensures !a.BindAndForward? ==> mapFile == old(mapFile) && marker == old(marker) && windowName == old(windowName)
      ensures a.BindAndForward? ==> mapFile == BindMap(old(mapFile), a.sid, chat, saveOk) && windowName == a.sid
      ensures a.BindAndForward? ==> marker == (if a.sid != "" && markerOk then Some(a.sid) else old(marker))
    {
      if a.BindAndForward? {
        BindCurrent(a.sid, chat, saveOk, markerOk);
      }
      if Forwards(a) {
        Forward(text);
      }
    }

    /**
     * One pass of `session_poller`: a new current session that is unbound
     * is bound to the last chat that wrote to the bridge. Returns the new
     * last-known session id.
     */
    method PollOnce(lastKnown: Option<string>, saveOk: bool, markerOk: bool) returns (newLast: Option<string>)
      modifies this`mapFile, this`marker, this`windowName
      ensures var p := Poll(old(CurrentSid()), lastKnown, old(BoundChat()), chatIdFile);
              newLast == p.lastKnown &&
              (p.bindTo.None? ==> mapFile == old(mapFile) && marker == old(marker) && windowName == old(windowName)) &&
              (p.bindTo.Some? ==> var sid := old(CurrentSid()).value;
                                  mapFile == BindMap(old(mapFile), sid, p.bindTo.value, saveOk) &&
                                  marker == (if sid != "" && markerOk then Some(sid) else old(marker)) &&
                                  windowName == (if tmuxUp then sid else old(windowName)))
    {
      var current, p := PollPlan(lastKnown);
      BindPolled(current, p.bindTo, saveOk, markerOk);
      newLast := p.lastKnown;
    }

    /** The poller's reading of the current session and its decision. */
    method PollPlan(lastKnown: Option<string>) returns (current: Option<string>, p: PollStep)
      ensures current == CurrentSid() && p == Poll(current, lastKnown, BoundChat(), chatIdFile)
      ensures p.bindTo.Some? ==> current.Some?
    {
      current := CurrentSid();
      p := Poll(current, lastKnown, BoundChat(), chatIdFile);
    }

    /** The poller's bind, when it decided on one: the session to the chat, and the window renamed. */
    method BindPolled(current: Option<string>, bindTo: Option<int>, saveOk: bool, markerOk: bool)
      requires bindTo.Some? ==> current.Some?
      modifies this`mapFile, this`marker, this`windowName
      ensures bindTo.None? ==> mapFile == old(mapFile) && marker == old(marker) && windowName == old(windowName)
      ensures bindTo.Some? ==> mapFile == BindMap(old(mapFile), current.value, bindTo.value, saveOk) &&
                               marker == (if current.value != "" && markerOk then Some(current.value) else old(marker)) &&
                               windowName == (if tmuxUp then current.value else old(windowName))
    {
      if bindTo.Some? {
        BindCurrent(current.value, bindTo.value, saveOk, markerOk);
      }
    }
  }
}
