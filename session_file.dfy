/** The name the transcript is saved under, `dnd_session_<stamp>.txt`. */
module SessionFile {
  import opened Wrappers

  const Prefix: string := "dnd_session_"
  const Suffix: string := ".txt"

  /** The file name for a formatted `YYYYMMDD_HHMMSS` stamp. */
  function SessionFileName(stamp: string): (name: string)
    ensures |name| == |Prefix| + |stamp| + |Suffix|
    ensures name[..|Prefix|] == Prefix
    ensures name[|Prefix|..|name| - |Suffix|] == stamp
    ensures name[|name| - |Suffix|..] == Suffix
  {
    Prefix + stamp + Suffix
  }

  /** Recovers the stamp from a session file name, if it is one. */
  function StampOf(name: string): Option<string> {
    if |name| >= |Prefix| + |Suffix|
       && name[..|Prefix|] == Prefix && name[|name| - |Suffix|..] == Suffix
    then Some(name[|Prefix|..|name| - |Suffix|])
    else None
  }

  /** Every session file name carries its stamp, so distinct stamps never collide. */
  lemma StampRoundTrip(stamp: string)
    ensures StampOf(SessionFileName(stamp)) == Some(stamp)
  {
  }

  lemma SessionFileNameInjective(a: string, b: string)
    requires SessionFileName(a) == SessionFileName(b)
    ensures a == b
  {
    StampRoundTrip(a);
    StampRoundTrip(b);
  }
}
