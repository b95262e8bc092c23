/** The decision rules of components/message-log.tsx: the badge colour of a
    phase (lines 13-22), the shortening of a message's printed content
    (lines 28-31) and the lock label (lines 65-70). The printed content is
    the `JSON.stringify` text, taken here as a given string. */
module MessageLog {
  import opened Types
  import opened Registry
  import opened Handshakes
  import opened RunFacts

  /** The longest content shown in full. */
  const ContentLimit: nat := 100

  const Ellipsis: string := "..."

  predicate EndsWith(s: string, suffix: string)
  {
    |suffix| <= |s| && s[|s| - |suffix|..] == suffix
  }

  /** `truncateContent` on the printed text `str`. */
  function TruncateContent(str: string): (r: string)
    ensures |str| <= ContentLimit ==> r == str
    ensures |str| > ContentLimit ==> r == str[..ContentLimit] + Ellipsis
    ensures |r| <= ContentLimit + |Ellipsis|
  {
    if |str| > ContentLimit then str[..ContentLimit] + Ellipsis else str
  }

  /** What is shown is always a prefix of the text, possibly followed by the
      ellipsis; for a text not already ending in "..." (a printed object ends
      in a brace) the ellipsis appears exactly when something was cut. */
  lemma TruncateShape(str: string)
    ensures var r := TruncateContent(str);
      var kept := if |str| > ContentLimit then ContentLimit else |str|;
      && r[..kept] == str[..kept]
      && (!EndsWith(str, Ellipsis) ==> (EndsWith(r, Ellipsis) <==> |str| > ContentLimit))
  {
    var r := TruncateContent(str);
    if |str| > ContentLimit {
      assert r[|r| - 3..] == Ellipsis;
    }
  }

  /** Shortening is idempotent: a shortened text is shown as it is. */
  lemma TruncateIdempotent(str: string)
    ensures TruncateContent(TruncateContent(str)) == TruncateContent(str)
  {
    if |str| > ContentLimit {
      var r := TruncateContent(str);
      assert r[..ContentLimit] == str[..ContentLimit];
    }
  }

  /** The badge colour classes. */
  datatype Colour = Blue | Green | Grey

  /** `getPhaseColor(phase)`: the `switch` on the phase's text. */
  function GetPhaseColor(phase: string): (r: Colour)
    ensures r == Blue <==> phase == "registration"
    ensures r == Green <==> phase == "authentication"
    ensures r == Grey <==> phase != "registration" && phase != "authentication"
  {
    if phase == "registration" then Blue
    else if phase == "authentication" then Green
    else Grey
  }

  /** How a `Phase` is written in a message. */
  function PhaseName(p: Phase): string
  {
    match p
    case Registration => "registration"
    case Authentication => "authentication"
  }

  /** Every phase a message can carry gets its own colour, never the default. */
  lemma PhaseColoursDistinct(p: Phase, q: Phase)
    ensures GetPhaseColor(PhaseName(p)) != Grey
    ensures p != q ==> GetPhaseColor(PhaseName(p)) != GetPhaseColor(PhaseName(q))
  {
  }

  /** The lock label. */
  function LockLabel(encrypted: bool): (r: string)
    ensures r == "Encrypted" <==> encrypted
    ensures r == "Plain" <==> !encrypted
  {
    if encrypted then "Encrypted" else "Plain"
  }

  /** Every message of a run is shown as encrypted. */
  lemma RunShownEncrypted(s: EngineState, evDraw: nat -> EvRegistrationDraws, csDraw: nat -> CsRegistrationDraws,
                          authDraw: nat -> AuthenticationDraws, speed: int, i: nat)
    requires speed > 0 && FindUsp(s.nodes).Some?
    requires i < |Run(s, evDraw, csDraw, authDraw, speed).messages|
    ensures LockLabel(Run(s, evDraw, csDraw, authDraw, speed).messages[i].encrypted) == "Encrypted"
  {
    RunLog(s, evDraw, csDraw, authDraw, speed);
  }
}
