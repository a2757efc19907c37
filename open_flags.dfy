/**
 * How the child opens the file of an output redirection
 * (myShell.c:83-92): write-only, created when missing, and either appended
 * to (`>>`) or truncated (`>`), with permission bits rw-r--r--.
 */
module OpenFlags {
  import opened Wrappers
  import opened Scanner

  datatype Flag = WriteOnly | Create | Append | Truncate

  /** Octal 0644: read and write for the owner, read for group and others. */
  const OutputMode: nat := 6 * 64 + 4 * 8 + 4

  datatype OpenRequest = OpenRequest(flags: set<Flag>, mode: nat)

  /** The `flags` and mode passed to `open` for an output redirection. */
  function OutputOpen(append: bool): (r: OpenRequest)
    ensures WriteOnly in r.flags && Create in r.flags
    ensures Append in r.flags <==> append
    ensures Truncate in r.flags <==> !append
    ensures !(Append in r.flags && Truncate in r.flags)
    ensures r.mode == 0x1A4
  {
    var flags := {WriteOnly, Create};
    OpenRequest(if append then flags + {Append} else flags + {Truncate}, OutputMode)
  }

  /** The output file a simple command opens, if it has one, and how. */
  function OutputRedirection(c: SimpleCommand): (r: Option<(string, OpenRequest)>)
    ensures r.Some? <==> c.outPath.Some?
    ensures r.Some? ==> r.value.0 == c.outPath.value && r.value.1 == OutputOpen(c.append)
  {
    if c.outPath.Some? then Some((c.outPath.value, OutputOpen(c.append))) else None
  }

  /**
   * End to end: the last `>` of a command line truncates its file and the last
   * `>>` appends to it, whatever redirections came before.
   */
  lemma LastOutputOpens(pre: seq<string>, op: string, p: string, post: seq<string>)
    requires Resumes(pre) && (op == ">" || op == ">>")
    requires forall i :: 0 <= i < |Items(post)| ==> !Items(post)[i].Output?
    ensures var r := OutputRedirection(Compact(pre + [op, p] + post));
            r.Some? && r.value.0 == p &&
            (Append in r.value.1.flags <==> op == ">>") &&
            (Truncate in r.value.1.flags <==> op == ">")
  {
    LastOutputWins(pre, op, p, post);
  }
}
