/**
 * The status tracker: the last termination outcome is kept as the pair of
 * globals ExStat and termSig, overwritten by getSigStatus and printed by getStatus.
 */
module Status {
  import opened Common
  import opened Decimal

  /**
   * How a child ended, as the wait macros tell it: WIFEXITED with WEXITSTATUS,
   * WIFSIGNALED with WTERMSIG, or neither.
   */
  datatype Outcome = Exited(code: nat) | Signaled(signal: nat) | Other

  /** A signalled child always has a non-zero signal number. */
  predicate IsWaitOutcome(o: Outcome)
  {
    o.Signaled? ==> o.signal > 0
  }

  /** The values of ExStat and termSig. */
  datatype Record = Record(exStat: nat, termSig: nat)

  /** Both globals start at 0. */
  const Initial: Record := Record(0, 0)

  /** getSigStatus: the new values of ExStat and termSig after a child's outcome. */
  function Update(r: Record, o: Outcome): Record
  {
    match o
    case Exited(code) => Record(code, 0)
    case Signaled(signal) => Record(0, signal)
    case Other => r
  }

  /** getStatus: the line printed for the record (without its newline). */
  function Report(r: Record): (line: string)
    ensures r.termSig == 0 ==>
      |line| > 11 && line[..11] == "exit value " && AllDigits(line[11..]) && Value(line[11..]) == r.exStat
    ensures r.termSig != 0 ==>
      |line| > 21 && line[..21] == "terminated by signal " && AllDigits(line[21..]) && Value(line[21..]) == r.termSig
  {
    if r.termSig == 0 then
      var digits := Show(r.exStat);
      ValueOfShow(r.exStat);
      assert ("exit value " + digits)[11..] == digits;
      "exit value " + digits
    else
      var digits := Show(r.termSig);
      ValueOfShow(r.termSig);
      assert ("terminated by signal " + digits)[21..] == digits;
      "terminated by signal " + digits
  }

  /** A record Update can produce from the initial one: never both fields non-zero. */
  predicate Settled(r: Record)
  {
    r.exStat == 0 || r.termSig == 0
  }

  /**
   * After a recorded outcome, `status` reports that outcome; an outcome that is
   * neither an exit nor a signal leaves the record as it was.
   */
  lemma ReportAfterUpdate(r: Record, o: Outcome)
    requires IsWaitOutcome(o)
    ensures o.Exited? ==> Report(Update(r, o)) == "exit value " + Show(o.code)
    ensures o.Signaled? ==> Report(Update(r, o)) == "terminated by signal " + Show(o.signal)
    ensures o.Other? ==> Update(r, o) == r
    ensures Settled(r) ==> Settled(Update(r, o))
  {
  }

  /** Before any foreground command has run, `status` reports "exit value 0". */
  lemma InitialReport()
    ensures Settled(Initial)
    ensures Report(Initial) == "exit value 0"
  {
  }

  lemma PrefixCancel(p: string, a: string, b: string)
    requires p + a == p + b
    ensures a == b
  {
    assert a == (p + a)[|p|..];
    assert b == (p + b)[|p|..];
  }

  lemma ReportStartsWithKind(r: Record)
    ensures Report(r)[0] == if r.termSig == 0 then 'e' else 't'
  {
  }

  /** The report loses nothing: on settled records, different records print differently. */
  lemma ReportInjective(a: Record, b: Record)
    requires Settled(a) && Settled(b)
    requires Report(a) == Report(b)
    ensures a == b
  {
    if a.termSig == 0 && b.termSig == 0 {
      PrefixCancel("exit value ", Show(a.exStat), Show(b.exStat));
      ShowInjective(a.exStat, b.exStat);
    } else if a.termSig != 0 && b.termSig != 0 {
      PrefixCancel("terminated by signal ", Show(a.termSig), Show(b.termSig));
      ShowInjective(a.termSig, b.termSig);
    } else {
      ReportStartsWithKind(a);
      ReportStartsWithKind(b);
    }
  }

  /**
   * After a foreground wait the status is printed only when termSig is 2, the
   * interrupt signal.
   */
  function InterruptNotice(r: Record): (notice: Option<string>)
    ensures notice.Some? <==> r.termSig == 2
    ensures notice.Some? ==> notice.value == "terminated by signal 2"
  {
    assert r.termSig == 2 ==> Report(r) == "terminated by signal 2" by {
      assert Show(2) == "2";
    }
    if r.termSig == 2 then Some(Report(r)) else None
  }

  /** A foreground child killed by SIGINT is reported; one that exited is not. */
  lemma InterruptNoticeAfterUpdate(r: Record, o: Outcome)
    requires IsWaitOutcome(o) && !o.Other?
    ensures InterruptNotice(Update(r, o)).Some? <==> o == Signaled(2)
    ensures o == Signaled(2) ==> InterruptNotice(Update(r, o)) == Some("terminated by signal 2")
  {
    if o == Signaled(2) {
      assert Update(r, o) == Record(0, 2);
      assert Show(2) == "2";
      assert Report(Record(0, 2)) == "terminated by signal " + "2";
      assert "terminated by signal " + "2" == "terminated by signal 2";
    }
  }

  /**
   * The completion line printed when a background child has been reaped, with
   * the record already updated from its outcome; nothing is printed for an
   * outcome that is neither an exit nor a signal.
   */
  function BackgroundNotice(pid: nat, o: Outcome, r: Record): (notice: Option<string>)
    ensures notice.None? <==> o.Other?
    ensures notice.Some? ==>
      var head := "background pid " + Show(pid) + " is done: ";
      |notice.value| > |head| && notice.value[..|head|] == head
  {
    match o
    case Exited(_) => Some("background pid " + Show(pid) + " is done: exit status " + Show(r.exStat))
    case Signaled(_) => Some("background pid " + Show(pid) + " is done: terminated by signal " + Show(r.termSig))
    case Other => None
  }

  /** The completion line carries the reaped child's own exit status or signal. */
  lemma BackgroundNoticeAfterUpdate(r: Record, pid: nat, o: Outcome)
    ensures o.Exited? ==>
      BackgroundNotice(pid, o, Update(r, o)) == Some("background pid " + Show(pid) + " is done: exit status " + Show(o.code))
    ensures o.Signaled? ==>
      BackgroundNotice(pid, o, Update(r, o)) == Some("background pid " + Show(pid) + " is done: terminated by signal " + Show(o.signal))
    ensures o.Other? ==> BackgroundNotice(pid, o, Update(r, o)) == None
  {
  }
}
