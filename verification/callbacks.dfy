/**
 * Inline-keyboard callbacks: the payload parser (`parse_callback_data`,
 * bridge.py:153-160), the answer to a numbered question (`askq:<n>`,
 * bridge.py:987-1003) and the cache that maps short project hashes back to
 * encoded project names (`project_hash` / `project_from_hash`,
 * bridge.py:96-105).
 */
module Callbacks {
  import opened Wrappers
  import opened Text
  import opened Listing
  import opened Pane

  /** Telegram limits callback payloads; values longer than this are refused. */
  const MaxCallbackValue: nat := 128

  /** `parse_callback_data`: the text after `prefix`, when it is 1 to 128 characters long. */
  function ParseCallbackData(data: string, prefix: string): (r: Option<string>)
    ensures r.Some? <==> prefix <= data && 1 <= |data| - |prefix| <= MaxCallbackValue
    ensures r.Some? ==> data == prefix + r.value
  {
    if !(prefix <= data) then None
    else
      var value := data[|prefix|..];
      assert data == prefix + value;
      if value == [] || |value| > MaxCallbackValue then None else Some(value)
  }

  /** Building a payload from a prefix and a value of acceptable length and parsing it gives the value back. */
  lemma ParseBuiltCallback(prefix: string, value: string)
    requires 1 <= |value| <= MaxCallbackValue
    ensures ParseCallbackData(prefix + value, prefix) == Some(value)
  {
    assert (prefix + value)[|prefix|..] == value;
  }

  const AskPrefix: string := "askq:"

  /** What an `askq:` callback does. */
  datatype AskOutcome =
    | Ignored                                  // tmux up, but a malformed payload or not an integer
    | NoTmux                                   // tmux session missing: reported to the chat
    | Selected(keys: seq<PaneCmd>, option: int) // keys sent to the pane; the option number replied

  /**
   * Handles `askq:<n>`: with tmux down refuse before looking at the payload;
   * otherwise parse the payload, read it as an integer, send Down `n` times
   * then Enter, and reply "option n+1".
   */
  method AskAnswer(data: string, tmuxUp: bool) returns (o: AskOutcome)
    ensures o == NoTmux <==> !tmuxUp
    ensures o == Ignored <==> tmuxUp && (ParseCallbackData(data, AskPrefix).None? || ParseInt(ParseCallbackData(data, AskPrefix).value).None?)
    ensures o.Selected? ==> exists n :: ParseInt(data[|AskPrefix|..]) == Some(n) && o.option == n + 1 &&
                                        |o.keys| == (if n > 0 then n else 0) + 1
    ensures o.Selected? ==> o.keys[|o.keys| - 1] == Key("Enter") && forall i :: 0 <= i < |o.keys| - 1 ==> o.keys[i] == Key("Down")
  {
    // Every callback is refused first when the tmux session is gone; the
    // second check inside the `askq:` branch sees the same session state.
    if !tmuxUp {
      return NoTmux;
    }
    var idxStr := ParseCallbackData(data, AskPrefix);
    if idxStr.None? {
      return Ignored;
    }
    var idx := ParseInt(idxStr.value);
    if idx.None? {
      return Ignored;
    }
    var keys := AnswerKeys(idx.value);
    return Selected(keys, idx.value + 1);
  }

  /** The `askq:` payload for option index `n` selects option `n + 1` with exactly `n` Down keys. */
  lemma AskRoundTrip(n: nat)
    requires |ShowInt(n)| <= MaxCallbackValue
    ensures ParseCallbackData(AskPrefix + ShowInt(n), AskPrefix) == Some(ShowInt(n))
    ensures ParseInt(ShowInt(n)) == Some(n)
  {
    ParseBuiltCallback(AskPrefix, ShowInt(n));
    ParseShowInt(n);
  }

  /**
   * The in-memory cache from the first eight hex digits of a project's
   * digest to its encoded name. The digest is a parameter: MD5 is not part
   * of this model.
   */
  class ProjectHashCache {
    var cache: map<string, string>

    constructor ()
      ensures cache == map[]
    {
      cache := map[];
    }

    /** `project_hash`: the short hash, remembered for the name. */
    method ProjectHash(encodedName: string, hexDigest: string -> string) returns (h: string)
      modifies this
      ensures h == Prefix(hexDigest(encodedName), 8)
      ensures cache == old(cache)[h := encodedName]
      ensures ProjectFromHash(h) == Some(encodedName)
    {
      h := Prefix(hexDigest(encodedName), 8);
      cache := cache[h := encodedName];
    }

    /** `project_from_hash`: the name last hashed to `h`, if any. */
    function ProjectFromHash(h: string): (r: Option<string>)
      reads this
      ensures r.Some? <==> h in cache
      ensures r.Some? ==> r.value == cache[h]
    {
      if h in cache then Some(cache[h]) else None
    }
  }
}
