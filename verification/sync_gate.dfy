/**
 * The sync gate (`get_sync_state`, bridge.py:144-150): two flag files under
 * `~/.claude` decide whether messages reach the pane.
 */
module SyncGate {
  datatype SyncState = Active | Paused | Terminated

  /** The disabled flag wins over the paused flag; with neither, sync is active. */
  function GetSyncState(paused: bool, disabled: bool): (s: SyncState)
    ensures s == Terminated <==> disabled
    ensures s == Paused <==> paused && !disabled
    ensures s == Active <==> !paused && !disabled
  {
    if disabled then Terminated
    else if paused then Paused
    else Active
  }
}
