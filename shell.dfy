/**
 * The shell's mutable bookkeeping: the globals ExStat, termSig and
 * foregroundOnly, and main's job table pidList / childArrayLength.
 */
module SmallShell {
  import opened Common
  import opened Decimal
  import opened Status
  import opened Toggle
  import opened Jobs

  class Shell {
    var exStat: nat
    var termSig: nat
    var foregroundOnly: bool
    /** Pids of background children not yet reaped, in its first childArrayLength slots. */
    const pidList: array<nat>
    var childArrayLength: nat

    /** The table fits its array, and live pids are unique (the OS never reuses a live pid). */
    ghost predicate Valid()
      reads this, pidList
    {
      pidList.Length == MAXARG && childArrayLength <= MAXARG && Distinct(pidList[..childArrayLength])
    }

    /** The live background pids, in registration order. */
    function Jobs(): seq<nat>
      reads this, pidList
      requires childArrayLength <= pidList.Length
    {
      pidList[..childArrayLength]
    }

    function Tracker(): Record
      reads this
    {
      Record(exStat, termSig)
    }

    /** The state at start-up: no jobs, "exit value 0", normal mode. */
    constructor ()
      ensures Valid() && fresh(pidList)
      ensures Jobs() == [] && Tracker() == Initial && !foregroundOnly
    {
      exStat, termSig, foregroundOnly := 0, 0, false;
      pidList := new nat[MAXARG];
      childArrayLength := 0;
    }

    /** catchSIGTSTP: flips the mode and returns what it writes. */
    method CatchSIGTSTP() returns (written: string)
      modifies this`foregroundOnly
      ensures foregroundOnly == !old(foregroundOnly)
      ensures written == Notice(old(foregroundOnly))
    {
      if !foregroundOnly {
        foregroundOnly := true;
        written := Write(EntryMessage, 51);
      } else {
        foregroundOnly := false;
        written := Write(ExitMessage, 31);
      }
    }

    /** getSigStatus: overwrites ExStat and termSig from a child's outcome. */
    method GetSigStatus(o: Outcome)
      modifies this`exStat, this`termSig
      ensures Tracker() == Update(old(Tracker()), o)
    {
      match o
      case Exited(code) =>
        exStat := code;
        termSig := 0;
      case Signaled(signal) =>
        termSig := signal;
        exStat := 0;
      case Other =>
    }

    /**
     * The parent after a foreground child has ended: the outcome is recorded and,
     * when the child died of SIGINT, the status line is printed.
     */
    method FinishForeground(o: Outcome) returns (notice: Option<string>)
      modifies this`exStat, this`termSig
      ensures Tracker() == Update(old(Tracker()), o)
      ensures notice == InterruptNotice(Tracker())
    {
      GetSigStatus(o);
      if termSig == 2 {
        notice := Some(Report(Tracker()));
      } else {
        notice := None;
      }
    }

    /**
     * The parent after forking a background child: the pid goes into the next
     * free slot and is announced. The source checks no bound, so the table must
     * have a free slot; the OS guarantees the pid is not already live.
     */
    method Register(pid: nat) returns (announcement: string)
      requires Valid()
      requires childArrayLength < MAXARG
      requires pid !in Jobs()
      modifies this`childArrayLength, pidList
      ensures Valid()
      ensures Jobs() == old(Jobs()) + [pid]
      ensures pidList[childArrayLength..] == old(pidList[..])[childArrayLength..]
      ensures announcement == "Background PID is " + Show(pid)
    {
      pidList[childArrayLength] := pid;
      announcement := "Background PID is " + Show(pidList[childArrayLength]);
      childArrayLength := childArrayLength + 1;
    }

    /**
     * The top of the main loop when waitpid(-1, ..., WNOHANG) has reaped a
     * background child: the pid is removed by resizeArray and the length
     * decremented, the outcome is recorded, and the completion line is returned.
     * Only registered children reach this point.
     */
    method ReapBackground(pid: nat, o: Outcome) returns (notice: Option<string>)
      requires Valid()
      requires pid in Jobs()
      modifies this`childArrayLength, this`exStat, this`termSig, pidList
      ensures Valid()
      ensures Jobs() == Without(old(Jobs()), pid)
      ensures |Jobs()| == |old(Jobs())| - 1
      ensures pidList[childArrayLength..] == old(pidList[..])[childArrayLength..]
      ensures Tracker() == Update(old(Tracker()), o)
      ensures notice == BackgroundNotice(pid, o, Tracker())
    {
      ghost var before := Jobs();
      RemoveRegistered(before, pid);
      ResizeArray(pidList, pid, childArrayLength);
      childArrayLength := childArrayLength - 1;
      GetSigStatus(o);
      match o
      case Exited(_) =>
        notice := Some("background pid " + Show(pid) + " is done: exit status " + Show(exStat));
      case Signaled(_) =>
        notice := Some("background pid " + Show(pid) + " is done: terminated by signal " + Show(termSig));
      case Other =>
        notice := None;
    }
  }
}
