/**
 * expandInput: the line is rebuilt character by character, and every "$" that
 * is followed by another "$" becomes the shell's pid.
 */
module Expand {
  import opened Common
  import opened Decimal

  /** input[i + 1] == '$'; at the last character the source reads the terminating NUL. */
  predicate DollarAfter(s: string, i: nat) { i + 1 < |s| && s[i + 1] == '$' }

  /** input[i - 1] == '$' (never asked at i == 0 by the method below). */
  predicate DollarBefore(s: string, i: nat) { 0 < i <= |s| && s[i - 1] == '$' }

  /** What one pass of the loop appends to `temp` for the character at i. */
  function Piece(s: string, i: nat, pid: string): string
    requires i < |s|
  {
    if s[i] == '$' && DollarAfter(s, i) then pid
    else if s[i] == '$' && DollarBefore(s, i) then []
    else [s[i]]
  }

  /** The pieces for positions lo up to (not including) hi, in order. */
  function Span(s: string, lo: nat, hi: nat, pid: string): string
    requires lo <= hi <= |s|
    decreases hi - lo
  {
    if hi == lo then [] else Span(s, lo, hi - 1, pid) + Piece(s, hi - 1, pid)
  }

  /** p written k times. */
  function Repeat(p: string, k: nat): string
  {
    if k == 0 then [] else Repeat(p, k - 1) + p
  }

  /** k dollar signs. */
  function Dollars(k: nat): string
  {
    if k == 0 then [] else Dollars(k - 1) + "$"
  }

  /** Length of the run of '$' that s starts with. */
  function DollarRun(s: string): (k: nat)
    ensures k <= |s|
    ensures forall i :: 0 <= i < k ==> s[i] == '$'
    ensures k == |s| || s[k] != '$'
    ensures |s| > 0 && s[0] == '$' ==> k >= 1
    decreases |s|
  {
    if s == [] || s[0] != '$' then 0 else 1 + DollarRun(s[1..])
  }

  /** What a maximal run of k >= 1 dollar signs becomes. */
  function RunOutput(k: nat, pid: string): string
    requires k >= 1
  {
    if k == 1 then "$" else Repeat(pid, k - 1)
  }

  /**
   * The expansion, run by run: other characters are copied, a lone "$" stays,
   * and a run of k >= 2 dollar signs becomes the pid k - 1 times.
   */
  function ExpandRuns(s: string, pid: string): string
    decreases |s|
  {
    if s == [] then []
    else if s[0] != '$' then [s[0]] + ExpandRuns(s[1..], pid)
    else
      var k := DollarRun(s);
      RunOutput(k, pid) + ExpandRuns(s[k..], pid)
  }

  lemma {:induction false} SpanSplit(s: string, lo: nat, mid: nat, hi: nat, pid: string)
    requires lo <= mid <= hi <= |s|
    ensures Span(s, lo, hi, pid) == Span(s, lo, mid, pid) + Span(s, mid, hi, pid)
    decreases hi - mid
  {
    if hi > mid {
      SpanSplit(s, lo, mid, hi - 1, pid);
    }
  }

  lemma {:induction false} SpanOfPids(s: string, lo: nat, m: nat, pid: string)
    requires lo <= m < |s|
    requires forall i :: lo <= i <= m ==> s[i] == '$'
    ensures Span(s, lo, m, pid) == Repeat(pid, m - lo)
    decreases m - lo
  {
    if m > lo {
      SpanOfPids(s, lo, m - 1, pid);
    }
  }

  /** A maximal run of k dollar signs at lo expands the way ExpandRuns says. */
  lemma SpanOfRun(s: string, lo: nat, k: nat, pid: string)
    requires 1 <= k && lo + k <= |s|
    requires forall i :: lo <= i < lo + k ==> s[i] == '$'
    requires lo == 0 || s[lo - 1] != '$'
    requires lo + k == |s| || s[lo + k] != '$'
    ensures Span(s, lo, lo + k, pid) == RunOutput(k, pid)
  {
    if k == 1 {
      assert Span(s, lo, lo + 1, pid) == Span(s, lo, lo, pid) + Piece(s, lo, pid);
    } else {
      SpanOfPids(s, lo, lo + k - 1, pid);
      assert Piece(s, lo + k - 1, pid) == [];
    }
  }

  /** The step of SpanIsRuns at a character other than "$". */
  lemma SpanAtOther(s: string, lo: nat, pid: string)
    requires lo < |s| && s[lo] != '$'
    ensures Span(s, lo, |s|, pid) == [s[lo]] + Span(s, lo + 1, |s|, pid)
    ensures ExpandRuns(s[lo..], pid) == [s[lo]] + ExpandRuns(s[lo + 1..], pid)
  {
    SpanSplit(s, lo, lo + 1, |s|, pid);
    assert Span(s, lo, lo + 1, pid) == Span(s, lo, lo, pid) + Piece(s, lo, pid);
    assert s[lo..][1..] == s[lo + 1..];
  }

  /** What DollarRun says about the run of dollar signs starting at lo. */
  lemma RunBounds(s: string, lo: nat, k: nat)
    requires lo < |s| && s[lo] == '$'
    requires k == DollarRun(s[lo..])
    ensures 1 <= k && lo + k <= |s| && (lo + k == |s| || s[lo + k] != '$')
    ensures forall i :: lo <= i < lo + k ==> s[i] == '$'
  {
    var rest := s[lo..];
    forall i | lo <= i < lo + k ensures s[i] == '$' {
      assert rest[i - lo] == '$';
    }
    assert lo + k < |s| ==> rest[k] == s[lo + k];
  }

  /** The step of SpanIsRuns at the start of a maximal run of k dollar signs. */
  lemma SpanAtRun(s: string, lo: nat, k: nat, pid: string)
    requires 1 <= k && lo + k <= |s|
    requires forall i :: lo <= i < lo + k ==> s[i] == '$'
    requires lo == 0 || s[lo - 1] != '$'
    requires lo + k == |s| || s[lo + k] != '$'
    ensures Span(s, lo, |s|, pid) == RunOutput(k, pid) + Span(s, lo + k, |s|, pid)
  {
    SpanSplit(s, lo, lo + k, |s|, pid);
    SpanOfRun(s, lo, k, pid);
  }

  lemma RunsAtRun(s: string, lo: nat, k: nat, pid: string)
    requires lo < |s| && s[lo] == '$'
    requires k == DollarRun(s[lo..])
    ensures ExpandRuns(s[lo..], pid) == RunOutput(k, pid) + ExpandRuns(s[lo + k..], pid)
  {
    assert s[lo..][k..] == s[lo + k..];
  }

  /** Both readings of a run of k dollar signs starting at lo, with DollarRun kept out of sight. */
  lemma RunAt(s: string, lo: nat, pid: string) returns (k: nat)
    requires lo < |s| && s[lo] == '$'
    requires lo == 0 || s[lo - 1] != '$'
    ensures 1 <= k && lo + k <= |s| && (lo + k == |s| || s[lo + k] != '$')
    ensures Span(s, lo, |s|, pid) == RunOutput(k, pid) + Span(s, lo + k, |s|, pid)
    ensures ExpandRuns(s[lo..], pid) == RunOutput(k, pid) + ExpandRuns(s[lo + k..], pid)
  {
    k := DollarRun(s[lo..]);
    RunBounds(s, lo, k);
    SpanAtRun(s, lo, k, pid);
    RunsAtRun(s, lo, k, pid);
  }

  lemma {:induction false} SpanIsRuns(s: string, lo: nat, pid: string)
    requires lo <= |s|
    requires !(0 < lo < |s| && s[lo - 1] == '$' && s[lo] == '$')
    ensures Span(s, lo, |s|, pid) == ExpandRuns(s[lo..], pid)
    decreases |s| - lo
  {
    if lo == |s| {
      assert s[lo..] == [];
    } else if s[lo] != '$' {
      SpanAtOther(s, lo, pid);
      SpanIsRuns(s, lo + 1, pid);
    } else {
      var k := RunAt(s, lo, pid);
      SpanIsRuns(s, lo + k, pid);
    }
  }

  /** The per-character loop and the run-by-run reading agree on every line. */
  lemma SpanMatchesRuns(s: string, pid: string)
    ensures Span(s, 0, |s|, pid) == ExpandRuns(s, pid)
  {
    SpanIsRuns(s, 0, pid);
    assert s[0..] == s;
  }

  /**
   * expandInput with the pid passed in. `temp` starts uninitialised, so appending
   * the pid before any character has been copied is undefined, and so is reading
   * input[-1] for a lone "$" at position 0; a line that starts with "$" is
   * therefore excluded, as is the empty line (getInput never returns one).
   * pidChar holds five digits and its NUL, and temp holds MAXLINE characters
   * with its NUL, so larger pids and longer expansions overflow and are excluded.
   */
  method ExpandInput(input: string, pid: nat) returns (expanded: string)
    requires |input| > 0 && input[0] != '$'
    requires pid < 100000
    requires |ExpandRuns(input, Show(pid))| < MAXLINE
    ensures expanded == ExpandRuns(input, Show(pid))
  {
    var pidChar := Show(pid);
    var temp: string := [];
    var i := 0;
    while i < |input|
      invariant 0 <= i <= |input|
      invariant temp == Span(input, 0, i, pidChar)
    {
      if input[i] == '$' && i + 1 < |input| && input[i + 1] == '$' {
        temp := temp + pidChar;
      } else if input[i] == '$' && input[i - 1] == '$' {
      } else {
        temp := temp + [input[i]];
      }
      i := i + 1;
    }
    SpanMatchesRuns(input, pidChar);
    expanded := temp;
  }

  /** A line without "$" comes back unchanged. */
  lemma {:induction false} ExpandWithoutDollar(s: string, pid: string)
    requires forall i :: 0 <= i < |s| ==> s[i] != '$'
    ensures ExpandRuns(s, pid) == s
    decreases |s|
  {
    if s != [] {
      ExpandWithoutDollar(s[1..], pid);
    }
  }

  lemma {:induction false} DollarRunAppend(a: string, b: string)
    requires a == [] || b == [] || a[|a| - 1] != '$' || b[0] != '$'
    requires a != []
    ensures DollarRun(a + b) == DollarRun(a)
    decreases |a|
  {
    if a[0] == '$' && |a| > 1 {
      assert (a + b)[1..] == a[1..] + b;
      DollarRunAppend(a[1..], b);
    }
  }

  /** When no run of dollar signs straddles the seam, two pieces of a line expand separately. */
  lemma {:induction false} ExpandRunsAppend(a: string, b: string, pid: string)
    requires a == [] || b == [] || a[|a| - 1] != '$' || b[0] != '$'
    ensures ExpandRuns(a + b, pid) == ExpandRuns(a, pid) + ExpandRuns(b, pid)
    decreases |a|
  {
    if a == [] {
      assert a + b == b;
    } else if a[0] != '$' {
      assert (a + b)[1..] == a[1..] + b;
      ExpandRunsAppend(a[1..], b, pid);
    } else {
      DollarRunAppend(a, b);
      var k := DollarRun(a);
      assert (a + b)[k..] == a[k..] + b;
      ExpandRunsAppend(a[k..], b, pid);
    }
  }

  lemma {:induction false} DollarRunOfDollars(k: nat)
    ensures |Dollars(k)| == k
    ensures DollarRun(Dollars(k)) == k
    decreases k
  {
    if k > 0 {
      DollarRunOfDollars(k - 1);
      var d := Dollars(k);
      assert d == "$" + Dollars(k - 1) by {
        DollarsCons(k);
      }
    }
  }

  lemma {:induction false} DollarsCons(k: nat)
    requires k > 0
    ensures Dollars(k) == "$" + Dollars(k - 1)
    decreases k
  {
    if k > 1 {
      DollarsCons(k - 1);
    }
  }

  /**
   * Between two characters that are not "$", a run of k >= 2 dollar signs becomes
   * the pid k - 1 times: "$$" is one pid and "$$$" two.
   */
  lemma ExpandOfDollars(k: nat, pid: string)
    requires k >= 2
    ensures ExpandRuns(Dollars(k), pid) == Repeat(pid, k - 1)
  {
    var d := Dollars(k);
    DollarRunOfDollars(k);
    assert d[k..] == [];
  }

  lemma ExpandDollarRun(a: string, k: nat, b: string, pid: string)
    requires k >= 2
    requires a == [] || a[|a| - 1] != '$'
    requires b == [] || b[0] != '$'
    ensures ExpandRuns(a + Dollars(k) + b, pid) == ExpandRuns(a, pid) + Repeat(pid, k - 1) + ExpandRuns(b, pid)
  {
    var d := Dollars(k);
    DollarRunOfDollars(k);
    DollarsCons(k);
    calc {
      ExpandRuns(a + d + b, pid);
      { assert a + d + b == a + (d + b); }
      ExpandRuns(a + (d + b), pid);
      { assert (d + b)[0] == '$';
        ExpandRunsAppend(a, d + b, pid); }
      ExpandRuns(a, pid) + ExpandRuns(d + b, pid);
      { ExpandRunsAppend(d, b, pid); }
      ExpandRuns(a, pid) + (ExpandRuns(d, pid) + ExpandRuns(b, pid));
      { ExpandOfDollars(k, pid); }
      ExpandRuns(a, pid) + Repeat(pid, k - 1) + ExpandRuns(b, pid);
    }
  }

  lemma ThreeDollars()
    ensures Dollars(3) == "$$$"
  {
    assert Dollars(1) == "$";
    assert Dollars(2) == "$$";
  }

  lemma RepeatTwice(p: string)
    ensures Repeat(p, 2) == p + p
  {
    assert Repeat(p, 1) == p;
  }

  lemma ExpandTripleDollar(a: string, b: string, pid: string)
    requires a == [] || a[|a| - 1] != '$'
    requires b == [] || b[0] != '$'
    ensures ExpandRuns(a + "$$$" + b, pid) == ExpandRuns(a, pid) + pid + pid + ExpandRuns(b, pid)
  {
    var x, y := ExpandRuns(a, pid), ExpandRuns(b, pid);
    calc {
      ExpandRuns(a + "$$$" + b, pid);
      { ThreeDollars(); }
      ExpandRuns(a + Dollars(3) + b, pid);
      { ExpandDollarRun(a, 3, b, pid); }
      x + Repeat(pid, 2) + y;
      { RepeatTwice(pid); }
      x + (pid + pid) + y;
      x + pid + pid + y;
    }
  }
}
