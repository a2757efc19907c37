/**
 * The read loop of `main` (myShell.c:253-313): tokenize each line, skip empty
 * ones, stop at `exit`, handle `cd` in the shell itself, and hand every other
 * line to the operator scan. Input lines are a parameter: each is what one call
 * of `fgets` returned, and the end of the sequence is the end of input.
 */
module Shell {
  import opened Wrappers
  import opened Argv
  import opened Tokenizer
  import opened Scanner

  /** Where `cd` goes: the HOME directory when no argument is given, else its argument. */
  datatype CdTarget = Home | Dir(path: string)

  /** What the shell does with one line. */
  datatype Action =
    | Skip                        // no tokens (myShell.c:278-280)
    | Exit                        // `exit` (myShell.c:286-289)
    | ChangeDir(target: CdTarget) // `cd` (myShell.c:292-306)
    | External(cmd: Command)      // anything else (myShell.c:310)

  /** The built-in dispatch of myShell.c:278-310. */
  function Dispatch(toks: seq<string>): (a: Action)
    ensures a == Skip <==> toks == []
    ensures a == Exit <==> toks != [] && toks[0] == "exit"
    ensures a.ChangeDir? <==> toks != [] && toks[0] == "cd"
    ensures a.ChangeDir? ==> (a.target == Home <==> |toks| == 1)
    ensures a.ChangeDir? && |toks| > 1 ==> a.target == Dir(toks[1])
    ensures a.External? <==> toks != [] && toks[0] != "exit" && toks[0] != "cd"
    ensures a.External? ==> a.cmd == Scan(toks)
  {
    if toks == [] then Skip
    else if toks[0] == "exit" then Exit
    else if toks[0] == "cd" then ChangeDir(if |toks| == 1 then Home else Dir(toks[1]))
    else External(Scan(toks))
  }

  /** The actions of a session: one per line read, up to and including the first `exit`. */
  function Session(lines: seq<string>): seq<Action>
  {
    if lines == [] then []
    else
      var a := Dispatch(Tokenize(lines[0]));
      if a == Exit then [a] else [a] + Session(lines[1..])
  }

  /**
   * A session has one action per line read, each the dispatch of that line;
   * no `exit` comes before the last action, and lines stay unread only after
   * an `exit`.
   */
  lemma {:induction false} SessionShape(lines: seq<string>)
    ensures |Session(lines)| <= |lines|
    ensures forall i :: 0 <= i < |Session(lines)| ==> Session(lines)[i] == Dispatch(Tokenize(lines[i]))
    ensures forall i :: 0 <= i < |Session(lines)| - 1 ==> Session(lines)[i] != Exit
    ensures |Session(lines)| < |lines| ==> Session(lines) != [] && Session(lines)[|Session(lines)| - 1] == Exit
  {
    if lines != [] {
      var a := Dispatch(Tokenize(lines[0]));
      var acts := Session(lines);
      if a == Exit {
        assert acts == [a];
      } else {
        var tail := lines[1..];
        var rest := Session(tail);
        assert acts == [a] + rest;
        SessionShape(tail);
        forall i | 1 <= i < |acts|
          ensures acts[i] == Dispatch(Tokenize(lines[i]))
        {
          assert acts[i] == rest[i - 1] && tail[i - 1] == lines[i];
        }
        forall i | 1 <= i < |acts| - 1
          ensures acts[i] != Exit
        {
          assert acts[i] == rest[i - 1];
        }
        if |acts| < |lines| {
          assert |rest| < |tail|;
          if rest != [] {
            assert acts[|acts| - 1] == rest[|rest| - 1];
          }
        }
      }
    }
  }

  lemma SessionFrom(lines: seq<string>, n: nat)
    requires n < |lines|
    ensures var a := Dispatch(Tokenize(lines[n]));
            Session(lines[n..]) == [a] + (if a == Exit then [] else Session(lines[n + 1..]))
  {
    assert lines[n..][1..] == lines[n + 1..];
  }

  /** Whether slot `k` is the `|` that a pipeline's scan overwrote with NULL. */
  predicate PipeSlot(a: Action, k: nat) {
    a.External? && a.cmd.Pipeline? && k == |a.cmd.left|
  }

  /**
   * The argument array after a line: its tokens in order (NULL over the `|` a
   * pipeline's scan overwrote), NULL right after them, and past that sentinel
   * whatever the array held before.
   */
  predicate LineLeft(now: seq<Slot>, before: seq<Slot>, toks: seq<string>, a: Action) {
    |toks| < |now| && now[|toks|] == None &&
    (forall k :: 0 <= k < |toks| ==> now[k] == if PipeSlot(a, k) then None else Some(toks[k])) &&
    (forall k :: |toks| < k < |now| && k < |before| ==> now[k] == before[k])
  }

  /** What `parse_comando` leaves: the tokens, NULL after them, and the older slots past it. */
  predicate Parsed(now: seq<Slot>, before: seq<Slot>, toks: seq<string>) {
    |toks| < |now| == |before| && now[|toks|] == None &&
    (forall k :: 0 <= k < |toks| ==> now[k] == Some(toks[k])) &&
    (forall k :: |toks| < k < |now| ==> now[k] == before[k])
  }

  /** A line that is not a pipeline leaves the array as `parse_comando` left it. */
  lemma LeftAfterParse(now: seq<Slot>, before: seq<Slot>, toks: seq<string>, a: Action)
    requires Parsed(now, before, toks) && !(a.External? && a.cmd.Pipeline?)
    ensures LineLeft(now, before, toks, a)
  {
  }

  /** A pipeline additionally has NULL over its `|`. */
  lemma LeftAfterPipe(now: seq<Slot>, before: seq<Slot>, toks: seq<string>, a: Action)
    requires Parsed(now, before, toks) && a.External? && a.cmd.Pipeline? && |a.cmd.left| < |toks|
    ensures LineLeft(now[|a.cmd.left| := None], before, toks, a)
  {
  }

  /**
   * One pass of the loop body of `main` after the line is read
   * (myShell.c:275-310): tokenize into `args`, then dispatch.
   */
  method HandleLine(line: string, args: array<Slot>) returns (a: Action)
    requires args.Length == MaxArgs
    modifies args
    ensures a == Dispatch(Tokenize(line))
    ensures LineLeft(args[..], old(args[..]), Tokenize(line), a)
  {
    ghost var toks := Tokenize(line);
    ghost var before := args[..];
    ParseComando(line, args);
    ghost var filled := args[..];
    assert Parsed(filled, before, toks);
    TokensOfSlots(filled, toks);
    if args[0] == None {
      a := Skip;
    } else if args[0] == Some("exit") {
      a := Exit;
    } else if args[0] == Some("cd") {
      if args[1] == None {
        a := ChangeDir(Home);
      } else {
        a := ChangeDir(Dir(args[1].value));
      }
    } else {
      var cmd := Analyse(args);
      a := External(cmd);
      if cmd.Pipeline? {
        LeftAfterPipe(filled, before, toks, a);
        return;
      }
    }
    LeftAfterParse(filled, before, toks, a);
  }

  /** A line without a newline whose words are single-space separated gives exactly those words. */
  lemma TokenizeJoined(ws: seq<string>)
    requires 1 <= |ws| < MaxArgs && '\n' !in Join(ws)
    requires forall w :: w in ws ==> w != "" && NoSpace(w)
    ensures Tokenize(Join(ws)) == ws
  {
    var line := Join(ws);
    assert NewlineIndex(line) == |line|;
    assert CutLine(line) == line;
    WordsJoin(ws);
  }

  /** The tokens of the two lines of the stale-slot example. */
  lemma StaleExampleTokens()
    ensures Tokenize("a b c d") == ["a", "b", "c", "d"]
    ensures Tokenize("ls >") == ["ls", ">"]
  {
    assert Join(["d"]) == "d";
    assert Join(["c", "d"]) == "c d";
    assert Join(["b", "c", "d"]) == "b c d";
    assert Join(["a", "b", "c", "d"]) == "a b c d";
    TokenizeJoined(["a", "b", "c", "d"]);
    assert Join([">"]) == ">";
    assert Join(["ls", ">"]) == "ls >";
    TokenizeJoined(["ls", ">"]);
  }

  /** A vector without `|` whose first token is no built-in goes to the compaction. */
  lemma PlainDispatch(toks: seq<string>)
    requires toks != [] && toks[0] != "exit" && toks[0] != "cd" && "|" !in toks
    ensures Dispatch(toks) == External(Simple(Compact(toks)))
  {
  }

  /**
   * The line `a b c d`, then the line `ls >`, through the one shared array:
   * the second line's tokens and sentinel sit over the first line's, and slot 3
   * still holds `d`. These are the slots `StaleSlotCopied` starts from.
   */
  method StaleAfterTwoLines(args: array<Slot>)
    requires args.Length == MaxArgs
    modifies args
    ensures args[0] == Some("ls") && args[1] == Some(">") && args[2] == None
    ensures args[3] == Some("d") && args[4] == None
  {
    StaleExampleTokens();
    PlainDispatch(["a", "b", "c", "d"]);
    PlainDispatch(["ls", ">"]);
    var first := HandleLine("a b c d", args);
    ghost var mid := args[..];
    assert !PipeSlot(first, 3) && mid[3] == Some("d") && mid[4] == None;
    var second := HandleLine("ls >", args);
    ghost var last := args[..];
    assert !PipeSlot(second, 0) && !PipeSlot(second, 1);
    assert last[0] == Some("ls") && last[1] == Some(">") && last[2] == None;
    assert last[3] == mid[3] && last[4] == mid[4];
  }

  /**
   * The loop of `main` with its one argument array. Lines after `exit` are
   * never read.
   */
  method Repl(lines: seq<string>) returns (acts: seq<Action>)
    ensures acts == Session(lines)
  {
    var args := new Slot[MaxArgs];
    acts := [];
    var n := 0;
    while n < |lines|
      invariant n <= |lines|
      invariant acts + Session(lines[n..]) == Session(lines)
      invariant args.Length == MaxArgs
    {
      SessionFrom(lines, n);
      var a := HandleLine(lines[n], args);
      ghost var rest := if a == Exit then [] else Session(lines[n + 1..]);
      assert Session(lines[n..]) == [a] + rest;
      assert acts + [a] + rest == Session(lines);
      acts := acts + [a];
      if a == Exit {
        assert acts == Session(lines);
        break;
      }
      n := n + 1;
    }
    assert n == |lines| ==> lines[n..] == [];
  }
}
