/**
 * From the raw words of a command line to what the child process is given:
 * parseArgArray builds the exec argument list, and the child's scan of the raw
 * words picks the input and output redirection files.
 */
module Arguments {
  import opened Common

  predicate IsRedirect(w: string) { w == "<" || w == ">" }

  /** The words parseArgArray never passes on. */
  predicate IsOperator(w: string) { IsRedirect(w) || w == "&" }

  /**
   * The `skipFile` flag of parseArgArray before position j: the last word before j
   * other than "&" is a redirection operator, so the next ordinary word names a file.
   */
  function AwaitingFile(args: seq<string>, j: nat): bool
    requires j <= |args|
    decreases j
  {
    if j == 0 then false
    else if args[j - 1] == "&" then AwaitingFile(args, j - 1)
    else IsRedirect(args[j - 1])
  }

  /** Whether the word at j reaches the exec argument list. */
  predicate Kept(args: seq<string>, j: nat)
    requires j < |args|
  {
    !IsOperator(args[j]) && !AwaitingFile(args, j)
  }

  /** The kept words among the first n, in their original order. */
  function KeptPrefix(args: seq<string>, n: nat): seq<string>
    requires n <= |args|
    decreases n
  {
    if n == 0 then []
    else KeptPrefix(args, n - 1) + (if Kept(args, n - 1) then [args[n - 1]] else [])
  }

  /** The argument list handed to execvp. */
  function ExecArgs(args: seq<string>): seq<string>
  {
    KeptPrefix(args, |args|)
  }

  /**
   * parseArgArray: copies the first numArgs words of `original` into `argNew`,
   * leaving out "<", ">", "&" and the file name after each redirection operator;
   * returns how many were copied.
   */
  method ParseArgArray(original: array<string>, numArgs: nat, argNew: array<string>) returns (argCount: nat)
    requires numArgs <= original.Length && numArgs <= argNew.Length
    requires original != argNew
    modifies argNew
    ensures argCount <= numArgs
    ensures argNew[..argCount] == ExecArgs(original[..numArgs])
    ensures argNew[argCount..] == old(argNew[argCount..])
  {
    ghost var args := original[..numArgs];
    argCount := 0;
    var skipFile := false;
    var i := 0;
    while i < numArgs
      invariant 0 <= i <= numArgs
      invariant argCount <= i
      invariant skipFile == AwaitingFile(args, i)
      invariant argNew[..argCount] == KeptPrefix(args, i)
      invariant argNew[argCount..] == old(argNew[argCount..])
    {
      if original[i] == "<" || original[i] == ">" {
        skipFile := true;
      } else if original[i] != "&" {
        if skipFile {
          skipFile := false;
        } else {
          argNew[argCount] := original[i];
          argCount := argCount + 1;
        }
      }
      i := i + 1;
    }
  }

  /** No redirection operator and no "&" reaches exec. */
  lemma {:induction false} KeptPrefixHasNoOperator(args: seq<string>, n: nat)
    requires n <= |args|
    ensures forall k :: 0 <= k < |KeptPrefix(args, n)| ==> !IsOperator(KeptPrefix(args, n)[k])
    decreases n
  {
    if n > 0 {
      KeptPrefixHasNoOperator(args, n - 1);
    }
  }

  lemma ExecArgsHasNoOperator(args: seq<string>)
    ensures forall k :: 0 <= k < |ExecArgs(args)| ==> !IsOperator(ExecArgs(args)[k])
  {
    KeptPrefixHasNoOperator(args, |args|);
  }

  /** The i-th exec argument is the raw word at idx[i], and idx lists exactly the kept positions, increasing. */
  ghost predicate Selects(args: seq<string>, n: nat, out: seq<string>, idx: seq<nat>)
    requires n <= |args|
  {
    && |idx| == |out|
    && (forall k :: 0 <= k < |idx| ==> idx[k] < n && out[k] == args[idx[k]])
    && (forall k, l :: 0 <= k < l < |idx| ==> idx[k] < idx[l])
    && (forall j :: 0 <= j < n ==> (Kept(args, j) <==> j in idx))
  }

  lemma {:induction false} KeptPrefixSelects(args: seq<string>, n: nat) returns (idx: seq<nat>)
    requires n <= |args|
    ensures Selects(args, n, KeptPrefix(args, n), idx)
    decreases n
  {
    if n == 0 {
      idx := [];
    } else {
      var prev := KeptPrefixSelects(args, n - 1);
      var out := KeptPrefix(args, n - 1);
      if Kept(args, n - 1) {
        idx := prev + [n - 1];
        var grown := out + [args[n - 1]];
        assert KeptPrefix(args, n) == grown;
        forall k | 0 <= k < |idx|
          ensures idx[k] < n && grown[k] == args[idx[k]]
        {
          if k < |prev| {
            assert idx[k] == prev[k] && grown[k] == out[k];
          }
        }
        forall j | 0 <= j < n
          ensures Kept(args, j) <==> j in idx
        {
          assert j in idx <==> j in prev || j == n - 1;
        }
      } else {
        idx := prev;
        assert KeptPrefix(args, n) == out;
      }
    }
  }

  /**
   * The exec arguments are an order-preserving subsequence of the raw words: the
   * words at exactly the kept positions, left to right. Hence there are no more
   * of them than raw words.
   */
  lemma ExecArgsSelects(args: seq<string>) returns (idx: seq<nat>)
    ensures Selects(args, |args|, ExecArgs(args), idx)
    ensures |ExecArgs(args)| <= |args|
  {
    idx := KeptPrefixSelects(args, |args|);
    if |idx| > 0 {
      IncreasingBound(idx, |idx| - 1);
    }
  }

  lemma {:induction false} IncreasingBound(idx: seq<nat>, m: nat)
    requires m < |idx|
    requires forall k, l :: 0 <= k < l < |idx| ==> idx[k] < idx[l]
    ensures idx[m] >= m
    decreases m
  {
    if m > 0 {
      IncreasingBound(idx, m - 1);
    }
  }

  lemma {:induction false} AwaitingAcrossMarkers(args: seq<string>, i: nat, j: nat)
    requires i < j <= |args|
    requires IsRedirect(args[i])
    requires forall m :: i < m < j ==> args[m] == "&"
    ensures AwaitingFile(args, j)
    decreases j - i
  {
    if j - 1 > i {
      AwaitingAcrossMarkers(args, i, j - 1);
    }
  }

  /**
   * The first word after a redirection operator that is not "&" never reaches
   * exec: it is the file name, or itself an operator.
   */
  lemma FileOperandDropped(args: seq<string>, i: nat, j: nat)
    requires i < j < |args|
    requires IsRedirect(args[i])
    requires forall m :: i < m < j ==> args[m] == "&"
    ensures !Kept(args, j)
  {
    AwaitingAcrossMarkers(args, i, j);
  }

  /** Position i holds the last `op` that has a word after it. */
  predicate LastOperatorAt(args: seq<string>, op: string, i: int)
  {
    0 <= i < |args| - 1 && args[i] == op && forall j :: i < j < |args| - 1 ==> args[j] != op
  }

  /**
   * The redirection file the child ends up with for operator `op`: the word after
   * the last `op` that has a word after it. Later dup2 calls replace earlier
   * ones, so the last operator wins.
   */
  function LastTarget(args: seq<string>, op: string): (r: Option<string>)
    ensures r.None? <==> forall i :: 0 <= i < |args| - 1 ==> args[i] != op
    ensures r.Some? ==> exists i :: LastOperatorAt(args, op, i) && r == Some(args[i + 1])
    decreases |args|
  {
    if |args| < 2 then None
    else if args[|args| - 2] == op then
      assert LastOperatorAt(args, op, |args| - 2);
      Some(args[|args| - 1])
    else
      var front := args[..|args| - 1];
      var r := LastTarget(front, op);
      assert r.Some? ==> exists i :: LastOperatorAt(args, op, i) && r == Some(args[i + 1]) by {
        if r.Some? {
          var i :| LastOperatorAt(front, op, i) && r == Some(front[i + 1]);
          assert LastOperatorAt(args, op, i);
        }
      }
      r
  }

  /** One more position of the child's scan. */
  lemma LastTargetStep(args: seq<string>, op: string, i: nat)
    requires i + 1 < |args|
    ensures LastTarget(args[..i + 2], op)
         == if args[i] == op then Some(args[i + 1]) else LastTarget(args[..i + 1], op)
  {
    assert args[..i + 2][..i + 1] == args[..i + 1];
  }

  /**
   * The child's scan for "<" and ">" (the loop that opens and dup2s the files).
   * Reading the word after a final operator, or copying a file name of MAXARG
   * characters or more into the fixed buffer, is undefined in the source, so both
   * are excluded.
   */
  method RedirectTargets(args: seq<string>) returns (inFile: Option<string>, outFile: Option<string>)
    requires |args| == 0 || !IsRedirect(args[|args| - 1])
    requires forall i :: 0 <= i < |args| - 1 && IsRedirect(args[i]) ==> |args[i + 1]| < MAXARG
    ensures inFile == LastTarget(args, "<")
    ensures outFile == LastTarget(args, ">")
  {
    inFile, outFile := None, None;
    var i := 0;
    while i < |args|
      invariant 0 <= i <= |args|
      invariant i < |args| ==> inFile == LastTarget(args[..i + 1], "<") && outFile == LastTarget(args[..i + 1], ">")
      invariant i == |args| ==> inFile == LastTarget(args, "<") && outFile == LastTarget(args, ">")
    {
      if i + 1 < |args| {
        LastTargetStep(args, "<", i);
        LastTargetStep(args, ">", i);
      } else {
        assert args[..i + 1] == args;
      }
      if args[i] == "<" {
        inFile := Some(args[i + 1]);
      } else if args[i] == ">" {
        outFile := Some(args[i + 1]);
      }
      i := i + 1;
    }
  }

  /**
   * A command as the shell understands it: the exec argument list, the input and
   * output redirection files, and whether the last raw word is the "&" marker.
   */
  datatype Command = Command(argv: seq<string>, inFile: Option<string>, outFile: Option<string>, marked: bool)

  /** Everything the shell reads off the raw words of one line. */
  function ParseCommand(words: seq<string>): Command
  {
    Command(ExecArgs(words), LastTarget(words, "<"), LastTarget(words, ">"),
            |words| > 0 && words[|words| - 1] == "&")
  }

  function Redirection(op: string, target: Option<string>): seq<string>
  {
    if target.Some? then [op, target.value] else []
  }

  /** The words a user types for a command: arguments, "< in", "> out", then "&". */
  function Render(c: Command): seq<string>
  {
    c.argv + Redirection("<", c.inFile) + Redirection(">", c.outFile) + (if c.marked then ["&"] else [])
  }

  /** No argument and no file name is itself an operator. */
  predicate Renderable(c: Command)
  {
    && (forall k :: 0 <= k < |c.argv| ==> !IsOperator(c.argv[k]))
    && (c.inFile.Some? ==> !IsOperator(c.inFile.value))
    && (c.outFile.Some? ==> !IsOperator(c.outFile.value))
  }

  lemma {:induction false} KeptPrefixOfPrefix(a: seq<string>, b: seq<string>, j: nat)
    requires j <= |a|
    ensures AwaitingFile(a + b, j) == AwaitingFile(a, j)
    ensures KeptPrefix(a + b, j) == KeptPrefix(a, j)
    decreases j
  {
    if j > 0 {
      KeptPrefixOfPrefix(a, b, j - 1);
    }
  }

  lemma {:induction false} KeptPrefixAppend(a: seq<string>, b: seq<string>, m: nat)
    requires !AwaitingFile(a, |a|)
    requires m <= |b|
    ensures AwaitingFile(a + b, |a| + m) == AwaitingFile(b, m)
    ensures KeptPrefix(a + b, |a| + m) == ExecArgs(a) + KeptPrefix(b, m)
    decreases m
  {
    if m == 0 {
      KeptPrefixOfPrefix(a, b, |a|);
    } else {
      KeptPrefixAppend(a, b, m - 1);
      assert (a + b)[|a| + m - 1] == b[m - 1];
    }
  }

  /**
   * Once no file name is pending, the words that follow are treated on their own:
   * stripping distributes over concatenation.
   */
  lemma ExecArgsAppend(a: seq<string>, b: seq<string>)
    requires !AwaitingFile(a, |a|)
    ensures ExecArgs(a + b) == ExecArgs(a) + ExecArgs(b)
    ensures AwaitingFile(a + b, |a + b|) == AwaitingFile(b, |b|)
  {
    KeptPrefixAppend(a, b, |b|);
  }

  lemma {:induction false} KeptPrefixOfPlain(ws: seq<string>, n: nat)
    requires n <= |ws|
    requires forall k :: 0 <= k < |ws| ==> !IsOperator(ws[k])
    ensures !AwaitingFile(ws, n) && KeptPrefix(ws, n) == ws[..n]
    decreases n
  {
    if n > 0 {
      KeptPrefixOfPlain(ws, n - 1);
      assert ws[..n] == ws[..n - 1] + [ws[n - 1]];
    }
  }

  /** A trailing "&" adds nothing to the exec arguments. */
  lemma MarkerAddsNoArgument(ws: seq<string>)
    ensures ExecArgs(ws + ["&"]) == ExecArgs(ws)
  {
    var marked := ws + ["&"];
    KeptPrefixOfPrefix(ws, ["&"], |ws|);
    assert !Kept(marked, |ws|) by {
      assert marked[|ws|] == "&";
    }
  }

  /** A trailing "&" hides no redirection. */
  lemma MarkerHidesNoRedirection(ws: seq<string>, op: string)
    requires IsRedirect(op)
    requires |ws| == 0 || ws[|ws| - 1] != op
    ensures LastTarget(ws + ["&"], op) == LastTarget(ws, op)
  {
    var tail := ["&"];
    assert forall i :: 0 <= i < |tail| ==> tail[i] != op;
    LastTargetSkipsTail(ws, tail, op);
  }

  /** Removing words in front of which no operator stands does not change the last target. */
  lemma {:induction false} LastTargetSkipsTail(a: seq<string>, t: seq<string>, op: string)
    requires forall i :: 0 <= i < |t| ==> t[i] != op
    requires |a| == 0 || a[|a| - 1] != op
    ensures LastTarget(a + t, op) == LastTarget(a, op)
    decreases |t|
  {
    if t == [] {
      assert a + t == a;
    } else {
      var t' := t[..|t| - 1];
      assert (a + t)[..|a + t| - 1] == a + t';
      LastTargetSkipsTail(a, t', op);
    }
  }

  lemma RedirectionDropped(op: string, target: Option<string>)
    requires IsRedirect(op)
    requires target.Some? ==> !IsOperator(target.value)
    ensures ExecArgs(Redirection(op, target)) == []
    ensures !AwaitingFile(Redirection(op, target), |Redirection(op, target)|)
  {
    if target.Some? {
      var r := [op, target.value];
      assert AwaitingFile(r, 1);
      assert KeptPrefix(r, 1) == KeptPrefix(r, 0) == [];
    }
  }

  lemma ExecArgsOfRender(c: Command)
    requires Renderable(c)
    ensures ExecArgs(Render(c)) == c.argv
  {
    var argv, rin, rout := c.argv, Redirection("<", c.inFile), Redirection(">", c.outFile);
    var mark: seq<string> := if c.marked then ["&"] else [];
    KeptPrefixOfPlain(argv, |argv|);
    assert argv[..|argv|] == argv;
    RedirectionDropped("<", c.inFile);
    RedirectionDropped(">", c.outFile);
    assert c.marked ==> KeptPrefix(mark, 1) == KeptPrefix(mark, 0) == [];
    ExecArgsAppend(argv, rin);
    ExecArgsAppend(argv + rin, rout);
    ExecArgsAppend(argv + rin + rout, mark);
  }

  lemma InFileOfRender(c: Command)
    requires Renderable(c)
    ensures LastTarget(Render(c), "<") == c.inFile
  {
    var argv, rin, rout := c.argv, Redirection("<", c.inFile), Redirection(">", c.outFile);
    var mark: seq<string> := if c.marked then ["&"] else [];
    LastTargetSkipsTail(argv + rin, rout + mark, "<");
    assert argv + rin + rout + mark == (argv + rin) + (rout + mark);
    if c.inFile.None? {
      assert argv + rin == argv;
    }
  }

  lemma OutFileOfRender(c: Command)
    requires Renderable(c)
    ensures LastTarget(Render(c), ">") == c.outFile
  {
    var argv, rin, rout := c.argv, Redirection("<", c.inFile), Redirection(">", c.outFile);
    var mark: seq<string> := if c.marked then ["&"] else [];
    LastTargetSkipsTail(argv + rin + rout, mark, ">");
    if c.outFile.None? {
      assert argv + rin + rout == argv + rin;
      LastTargetSkipsTail(argv, rin, ">");
    }
  }

  /**
   * Reading back the words of a rendered command gives the command: the exec
   * arguments lose exactly the operators and file names, each redirection file
   * is found, and the "&" marker is seen.
   */
  lemma ParseRender(c: Command)
    requires Renderable(c)
    ensures ParseCommand(Render(c)) == c
  {
    ExecArgsOfRender(c);
    InFileOfRender(c);
    OutFileOfRender(c);
    var words := Render(c);
    if !c.marked && |words| > 0 {
      assert words[|words| - 1] != "&";
    }
  }
}
