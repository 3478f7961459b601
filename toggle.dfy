/**
 * The foreground-only toggle: each SIGTSTP flips foregroundOnly and writes a
 * notice announcing the mode just entered.
 */
module Toggle {

  const EntryMessage: string := "\nEntering foreground-only mode (& is now ignored)\n:"
  const ExitMessage: string := "\nExiting foreground-only mode\n:"

  /** write(STDOUT_FILENO, message, count): the first count bytes of the message. */
  function Write(message: string, count: nat): string
    requires count <= |message|
  {
    message[..count]
  }

  /**
   * What catchSIGTSTP writes, given the flag before the signal. The byte counts
   * hard-wired in the source are the full lengths of the messages, so the whole
   * notice is written.
   */
  function Notice(wasForegroundOnly: bool): (written: string)
    ensures written == if wasForegroundOnly then ExitMessage else EntryMessage
  {
    if wasForegroundOnly then Write(ExitMessage, 31) else Write(EntryMessage, 51)
  }

  /** The flag after n signals in a row, and the notices written, in order. */
  function Toggles(flag: bool, n: nat): (bool, seq<string>)
    decreases n
  {
    if n == 0 then (flag, [])
    else
      var (f, notices) := Toggles(flag, n - 1);
      (!f, notices + [Notice(f)])
  }

  /**
   * The flag alternates and so do the notices: after n signals the flag is
   * flipped exactly when n is odd, and the k-th notice is the one for the mode
   * left at that moment.
   */
  lemma {:induction false} TogglesAlternate(flag: bool, n: nat)
    ensures Toggles(flag, n).0 == (flag != (n % 2 == 1))
    ensures |Toggles(flag, n).1| == n
    ensures forall k :: 0 <= k < n ==> Toggles(flag, n).1[k] == Notice(flag != (k % 2 == 1))
    decreases n
  {
    if n > 0 {
      TogglesAlternate(flag, n - 1);
    }
  }

  /**
   * Two signals restore the flag; starting from normal mode they write the entry
   * notice and then the exit notice.
   */
  lemma ToggleTwice(flag: bool)
    ensures Toggles(flag, 2).0 == flag
    ensures !flag ==> Toggles(flag, 2).1 == [EntryMessage, ExitMessage]
  {
    TogglesAlternate(flag, 2);
  }
}
