/**
 * The decisions main takes for one expanded input line: skip it, run a
 * built-in, or launch a program in the foreground or the background.
 */
module Dispatch {
  import opened Common
  import opened Tokenize
  import opened Arguments

  /** What one command line leads to. */
  datatype Action =
    | Skip
    | Exit
    | ChangeDir(path: string)
    | ShowStatus
    | Launch(words: seq<string>, argv: seq<string>, background: bool)

  /** A line starting with "#", or of length one (a bare newline), is not processed. */
  predicate Skipped(line: string)
  {
    IsComment(line) || |line| == 1
  }

  predicate IsComment(s: string)
  {
    |s| > 0 && s[0] == '#'
  }

  predicate IsBuiltin(w: string)
  {
    w == "exit" || w == "cd" || w == "status"
  }

  /** changeDir's directory: home when cd has no argument, else the first argument. */
  function CdTarget(args: seq<string>, home: string): (path: string)
    requires |args| >= 1
    ensures path == home || path in args[1..]
    ensures |args| > 1 ==> path == args[1]
  {
    if |args| == 1 then home else args[1]
  }

  /**
   * The dispatch in main: skipped lines first, then the built-ins by first word,
   * then a launch whose exec arguments come from parseArgArray and which runs in
   * the background when its last raw word is "&" and foreground-only mode is
   * off. A line that is not skipped but has no word leaves argArray[0] NULL,
   * and one with more than MAXARG words overflows argArray, so both are excluded.
   */
  function Classify(line: string, home: string, foregroundOnly: bool): (a: Action)
    requires Skipped(line) || 0 < |Tokens(line)| <= MAXARG
    ensures a == Skip <==> Skipped(line)
    ensures a.Exit? || a.ChangeDir? || a.ShowStatus? ==> IsBuiltin(Tokens(line)[0])
    ensures a.ChangeDir? ==> Tokens(line)[0] == "cd" && (a.path == home || a.path in Tokens(line)[1..])
    ensures a.Launch? ==> a.words == Tokens(line) && !IsBuiltin(a.words[0]) && a.argv == ExecArgs(a.words)
    ensures a.Launch? ==> forall k :: 0 <= k < |a.argv| ==> !IsOperator(a.argv[k])
    ensures a.Launch? && a.background ==> a.words[|a.words| - 1] == "&" && !foregroundOnly
  {
    if Skipped(line) then Skip
    else
      var args := Tokens(line);
      if args[0] == "exit" then Exit
      else if args[0] == "cd" then ChangeDir(CdTarget(args, home))
      else if args[0] == "status" then ShowStatus
      else
        ExecArgsHasNoOperator(args);
        Launch(args, ExecArgs(args), args[|args| - 1] == "&" && !foregroundOnly)
  }

  /**
   * A typed command line is dispatched, and goes to the background exactly when
   * its first word is not a built-in, its last word is "&", and foreground-only
   * mode is off.
   */
  lemma BackgroundExactly(ws: seq<string>, home: string, foregroundOnly: bool)
    requires 0 < |ws| <= MAXARG
    requires forall k :: 0 <= k < |ws| ==> IsWord(ws[k])
    requires !IsComment(ws[0])
    ensures Tokens(Join(ws) + "\n") == ws && !Skipped(Join(ws) + "\n")
    ensures Classify(Join(ws) + "\n", home, foregroundOnly).Launch? <==> !IsBuiltin(ws[0])
    ensures (Classify(Join(ws) + "\n", home, foregroundOnly).Launch? && Classify(Join(ws) + "\n", home, foregroundOnly).background)
        <==> (!IsBuiltin(ws[0]) && ws[|ws| - 1] == "&" && !foregroundOnly)
  {
    TypedLine(ws);
  }

  /** The tokens of a typed line: the words themselves, the newline adds nothing. */
  lemma TypedLine(ws: seq<string>)
    requires |ws| > 0
    requires forall k :: 0 <= k < |ws| ==> IsWord(ws[k])
    requires !IsComment(ws[0])
    ensures Tokens(Join(ws) + "\n") == ws
    ensures !Skipped(Join(ws) + "\n")
  {
    TokensOfJoin(ws);
    TokensIgnoreTrailingDelimiter(Join(ws), '\n');
    JoinStartsWithFirstWord(ws);
  }

  /**
   * In foreground-only mode a trailing "&" is ignored without error: the line
   * with the marker launches the same program with the same arguments and the
   * same redirections in the foreground, exactly like the line without it.
   */
  lemma MarkerIgnoredInForegroundOnly(ws: seq<string>, home: string)
    requires |ws| > 0 && |ws| + 1 <= MAXARG
    requires forall k :: 0 <= k < |ws| ==> IsWord(ws[k])
    requires !IsComment(ws[0]) && !IsBuiltin(ws[0])
    requires !IsRedirect(ws[|ws| - 1])
    ensures Tokens(Join(ws + ["&"]) + "\n") == ws + ["&"] && !Skipped(Join(ws + ["&"]) + "\n")
    ensures Tokens(Join(ws) + "\n") == ws && !Skipped(Join(ws) + "\n")
    ensures Classify(Join(ws + ["&"]) + "\n", home, true) == Launch(ws + ["&"], ExecArgs(ws), false)
    ensures Classify(Join(ws) + "\n", home, true) == Launch(ws, ExecArgs(ws), false)
    ensures LastTarget(ws + ["&"], "<") == LastTarget(ws, "<")
    ensures LastTarget(ws + ["&"], ">") == LastTarget(ws, ">")
  {
    var marked := ws + ["&"];
    assert forall k :: 0 <= k < |marked| ==> IsWord(marked[k]);
    TypedLine(ws);
    TypedLine(marked);
    MarkerAddsNoArgument(ws);
    MarkerHidesNoRedirection(ws, "<");
    MarkerHidesNoRedirection(ws, ">");
    if ws[|ws| - 1] == "&" {
      assert Tokens(Join(ws) + "\n")[|ws| - 1] == "&";
    }
  }

  /** In normal mode the same line with a trailing "&" does go to the background. */
  lemma MarkerHonouredInNormalMode(ws: seq<string>, home: string)
    requires |ws| > 0 && |ws| + 1 <= MAXARG
    requires forall k :: 0 <= k < |ws| ==> IsWord(ws[k])
    requires !IsComment(ws[0]) && !IsBuiltin(ws[0])
    requires !IsRedirect(ws[|ws| - 1])
    ensures Tokens(Join(ws + ["&"]) + "\n") == ws + ["&"] && !Skipped(Join(ws + ["&"]) + "\n")
    ensures Classify(Join(ws + ["&"]) + "\n", home, false) == Launch(ws + ["&"], ExecArgs(ws), true)
  {
    var marked := ws + ["&"];
    assert forall k :: 0 <= k < |marked| ==> IsWord(marked[k]);
    TypedLine(marked);
    MarkerAddsNoArgument(ws);
  }

  /**
   * The built-ins are recognised by their first word alone: a typed line starting
   * with "exit", "cd" or "status" runs that built-in in either mode and whatever
   * follows, "&" included; cd with no argument goes to the home directory.
   */
  lemma BuiltinsRouted(ws: seq<string>, home: string, foregroundOnly: bool)
    requires 0 < |ws| <= MAXARG
    requires forall k :: 0 <= k < |ws| ==> IsWord(ws[k])
    requires IsBuiltin(ws[0])
    ensures Tokens(Join(ws) + "\n") == ws && !Skipped(Join(ws) + "\n")
    ensures ws[0] == "exit" ==> Classify(Join(ws) + "\n", home, foregroundOnly) == Exit
    ensures ws[0] == "status" ==> Classify(Join(ws) + "\n", home, foregroundOnly) == ShowStatus
    ensures ws == ["cd"] ==> Classify(Join(ws) + "\n", home, foregroundOnly) == ChangeDir(home)
    ensures ws[0] == "cd" && |ws| > 1 ==> Classify(Join(ws) + "\n", home, foregroundOnly) == ChangeDir(ws[1])
  {
    TypedLine(ws);
  }
}
