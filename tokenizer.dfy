/**
 * The tokenizer `parse_comando` (myShell.c:35-53): cut the line at its first
 * newline, split it on single spaces as `strtok(line, " ")` does, and store at
 * most MaxArgs - 1 tokens followed by NULL in the argument array.
 *
 * The specification is stated without `strtok`: `Fields` splits on every
 * space and keeps the empty pieces, `Words` drops the empty ones, and
 * `Tokenize` keeps the first MaxArgs - 1 words of the cut line.
 */
module Tokenizer {
  import opened Wrappers
  import opened Argv

  /** Index of the first newline, or the length when there is none: `strcspn(line, "\n")`. */
  function NewlineIndex(line: string): (k: nat)
    ensures k <= |line|
    ensures forall i :: 0 <= i < k ==> line[i] != '\n'
    ensures k < |line| ==> line[k] == '\n'
  {
    if line == [] || line[0] == '\n' then 0 else 1 + NewlineIndex(line[1..])
  }

  /** The line as `strtok` sees it once the newline is overwritten (myShell.c:40). */
  function CutLine(line: string): (s: string)
    ensures '\n' !in s
    ensures s <= line
    ensures |s| < |line| ==> line[|s|] == '\n'
  {
    line[..NewlineIndex(line)]
  }

  /** The pieces between consecutive spaces, empty pieces included. */
  function Fields(s: string): (fs: seq<string>)
    ensures |fs| >= 1
  {
    if s == [] then [""]
    else
      var rest := Fields(s[1..]);
      if s[0] == ' ' then [""] + rest else [[s[0]] + rest[0]] + rest[1..]
  }

  /** Glue pieces back together with one space between neighbours. */
  function Join(fs: seq<string>): string
    requires |fs| >= 1
  {
    if |fs| == 1 then fs[0] else fs[0] + " " + Join(fs[1..])
  }

  predicate NoSpace(w: string) {
    ' ' !in w
  }

  /** Splitting loses nothing: the pieces rejoined are the original text. */
  lemma {:induction false} JoinFields(s: string)
    ensures Join(Fields(s)) == s
  {
    if s != [] {
      var rest := Fields(s[1..]);
      JoinFields(s[1..]);
      if s[0] == ' ' {
        assert Join([""] + rest) == "" + " " + Join(rest);
      } else if |rest| == 1 {
        assert [s[0]] + rest[0] == s;
      } else {
        assert Join([[s[0]] + rest[0]] + rest[1..]) == [s[0]] + rest[0] + " " + Join(rest[1..]);
      }
    }
  }

  /** No piece holds a space. */
  lemma {:induction false} FieldsNoSpace(s: string)
    ensures forall f :: f in Fields(s) ==> NoSpace(f)
  {
    if s != [] {
      FieldsNoSpace(s[1..]);
      var rest := Fields(s[1..]);
      if s[0] != ' ' {
        assert NoSpace(rest[0]);
        assert NoSpace([s[0]] + rest[0]);
      }
    }
  }

  /** Every character of every piece comes from the text. */
  lemma {:induction false} FieldsChars(s: string, c: char)
    requires c !in s
    ensures forall f :: f in Fields(s) ==> c !in f
  {
    if s != [] {
      FieldsChars(s[1..], c);
      var rest := Fields(s[1..]);
      if s[0] != ' ' {
        assert c !in rest[0];
        assert c !in [s[0]] + rest[0];
      }
    }
  }

  /** Pieces without spaces, joined with spaces, split back into the same pieces. */
  lemma {:induction false} FieldsJoin(fs: seq<string>)
    requires |fs| >= 1 && forall f :: f in fs ==> NoSpace(f)
    ensures Fields(Join(fs)) == fs
  {
    if |fs| == 1 {
      FieldsOfWord(fs[0], "");
      assert fs[0] + "" == fs[0];
    } else {
      var j := Join(fs[1..]);
      assert forall f :: f in fs[1..] ==> f in fs;
      FieldsJoin(fs[1..]);
      FieldsOfWord(fs[0], " " + j);
      assert fs[0] + " " + j == fs[0] + (" " + j);
      assert (" " + j)[1..] == j;
      assert Fields(" " + j) == [""] + fs[1..];
      assert fs[0] + "" == fs[0];
      assert fs == [fs[0]] + fs[1..];
    }
  }

  /** A space-free prefix becomes the start of the first piece of what follows it. */
  lemma {:induction false} FieldsOfWord(w: string, t: string)
    requires NoSpace(w)
    ensures Fields(w + t) == [w + Fields(t)[0]] + Fields(t)[1..]
  {
    var ft := Fields(t);
    if w == [] {
      assert w + t == t && w + ft[0] == ft[0];
      assert ft == [ft[0]] + ft[1..];
    } else {
      FieldsOfWord(w[1..], t);
      assert (w + t)[1..] == w[1..] + t;
      assert w[0] in w;
      var rest := Fields(w[1..] + t);
      assert rest[0] == w[1..] + ft[0];
      assert rest[1..] == ft[1..];
      assert [w[0]] + (w[1..] + ft[0]) == w + ft[0];
    }
  }

  /** The non-empty pieces, in order. */
  function NonEmpty(fs: seq<string>): (ws: seq<string>)
    ensures |ws| <= |fs|
    ensures forall w :: w in ws ==> w in fs && w != ""
  {
    if fs == [] then []
    else if fs[0] == "" then NonEmpty(fs[1..])
    else [fs[0]] + NonEmpty(fs[1..])
  }

  /** The words of a text: the maximal runs of non-space characters, left to right. */
  function Words(s: string): seq<string>
  {
    NonEmpty(Fields(s))
  }

  lemma WordsShape(s: string)
    ensures forall w :: w in Words(s) ==> w != "" && NoSpace(w)
  {
    FieldsNoSpace(s);
  }

  /** A run of spaces yields no empty words: a leading space changes nothing. */
  lemma LeadingSpace(s: string)
    requires s != [] && s[0] == ' '
    ensures Words(s) == Words(s[1..])
  {
    assert Fields(s) == [""] + Fields(s[1..]);
  }

  /** A non-empty space-free prefix that ends at a space or at the end is the first word. */
  lemma LeadingWord(s: string, k: nat)
    requires 0 < k <= |s| && NoSpace(s[..k]) && (k == |s| || s[k] == ' ')
    ensures Words(s) == [s[..k]] + Words(s[k..])
  {
    var t := s[k..];
    assert s == s[..k] + t;
    FieldsOfWord(s[..k], t);
    var ft := Fields(t);
    assert ft[0] == "";
    assert s[..k] + ft[0] == s[..k];
    assert ft == [ft[0]] + ft[1..];
  }

  /** Words without spaces, joined by single spaces, are the words of the result. */
  lemma {:induction false} WordsJoin(ws: seq<string>)
    requires |ws| >= 1 && forall w :: w in ws ==> w != "" && NoSpace(w)
    ensures Words(Join(ws)) == ws
  {
    FieldsJoin(ws);
    NonEmptyKeeps(ws);
  }

  lemma {:induction false} NonEmptyKeeps(ws: seq<string>)
    requires forall w :: w in ws ==> w != ""
    ensures NonEmpty(ws) == ws
  {
    if ws != [] {
      assert ws[0] in ws;
      assert forall w :: w in ws[1..] ==> w in ws;
      NonEmptyKeeps(ws[1..]);
    }
  }

  /** `take` of the first `n` elements, or all of them when there are fewer. */
  function Take<T>(xs: seq<T>, n: nat): (ys: seq<T>)
    ensures |ys| == if |xs| <= n then |xs| else n
    ensures ys <= xs
    ensures forall y :: y in ys ==> y in xs
    ensures |xs| <= n ==> ys == xs
  {
    if |xs| <= n then xs else xs[..n]
  }

  /** What `parse_comando` leaves in the argument array, before its sentinel. */
  function Tokenize(line: string): seq<string>
  {
    Take(Words(CutLine(line)), MaxArgs - 1)
  }

  /**
   * At most MaxArgs - 1 tokens, a prefix of the words of the line up to its
   * first newline (all of them when fewer), none empty or holding a space or
   * a newline.
   */
  lemma TokenizeShape(line: string)
    ensures |Tokenize(line)| <= MaxArgs - 1
    ensures Tokenize(line) <= Words(CutLine(line))
    ensures |Tokenize(line)| < MaxArgs - 1 ==> Tokenize(line) == Words(CutLine(line))
    ensures forall t :: t in Tokenize(line) ==> t != "" && NoSpace(t) && '\n' !in t
  {
    var s := CutLine(line);
    WordsShape(s);
    FieldsChars(s, '\n');
  }

  /** Nothing after the first newline contributes to the tokens. */
  lemma IgnoresAfterNewline(before: string, after: string)
    requires '\n' !in before
    ensures Tokenize(before + "\n" + after) == Tokenize(before)
  {
    var line := before + "\n" + after;
    assert forall i :: 0 <= i < |before| ==> line[i] == before[i] && before[i] != '\n';
    assert line[|before|] == '\n';
    assert NewlineIndex(line) == |before|;
    assert NewlineIndex(before) == |before|;
    assert line[..|before|] == before;
    assert CutLine(line) == CutLine(before);
  }

  /** `Some(w)` contributes `[w]`, `None` nothing. */
  function AsSeq(tok: Option<string>): seq<string>
  {
    if tok.Some? then [tok.value] else []
  }

  /** The first half of `strtok`: step over the spaces at `from` (its `strspn`). */
  method SkipSpaces(s: string, from: nat) returns (i: nat)
    requires from <= |s|
    ensures from <= i <= |s| && (i == |s| || s[i] != ' ')
    ensures forall k :: from <= k < i ==> s[k] == ' '
    ensures Words(s[from..]) == Words(s[i..])
  {
    i := from;
    while i < |s| && s[i] == ' '
      invariant from <= i <= |s|
      invariant forall k :: from <= k < i ==> s[k] == ' '
      invariant Words(s[from..]) == Words(s[i..])
    {
      LeadingSpace(s[i..]);
      assert s[i..][1..] == s[i + 1..];
      i := i + 1;
    }
  }

  /** The second half of `strtok`: the end of the word that starts at `i` (its `strcspn`). */
  method WordEnd(s: string, i: nat) returns (j: nat)
    requires i < |s| && s[i] != ' '
    ensures i < j <= |s| && (j == |s| || s[j] == ' ')
    ensures NoSpace(s[i..j])
  {
    j := i + 1;
    while j < |s| && s[j] != ' '
      invariant i < j <= |s|
      invariant NoSpace(s[i..j])
    {
      assert s[i..j + 1] == s[i..j] + [s[j]];
      j := j + 1;
    }
  }

  /**
   * One call of `strtok` (myShell.c:43, 48): skip the spaces at `from`, then
   * return the word that starts there and the position just past it, or NULL
   * when only spaces remain.
   */
  method NextToken(s: string, from: nat) returns (tok: Option<string>, next: nat)
    requires from <= |s|
    ensures next <= |s|
    ensures tok.None? <==> Words(s[from..]) == []
    ensures Words(s[from..]) == AsSeq(tok) + Words(s[next..])
  {
    var i := SkipSpaces(s, from);
    if i == |s| {
      assert s[i..] == [];
      return None, i;
    }
    var j := WordEnd(s, i);
    var rest := s[i..];
    assert rest[..j - i] == s[i..j] && rest[j - i..] == s[j..];
    LeadingWord(rest, j - i);
    tok, next := Some(s[i..j]), j;
  }

  /** The loop of `parse_comando` stops when the words run out or MaxArgs - 1 are stored. */
  lemma TokenizeStopsAt(line: string, i: nat)
    requires i <= |Words(CutLine(line))| && i <= MaxArgs - 1
    requires i == |Words(CutLine(line))| || i == MaxArgs - 1
    ensures Tokenize(line) == Words(CutLine(line))[..i]
  {
  }

  /**
   * `parse_comando`: the first MaxArgs - 1 words of the line up to its first
   * newline, then NULL; the slots after the sentinel keep what an earlier line
   * left there.
   */
  method ParseComando(line: string, args: array<Slot>)
    requires args.Length == MaxArgs
    modifies args
    ensures forall k :: 0 <= k < |Tokenize(line)| ==> args[k] == Some(Tokenize(line)[k])
    ensures args[|Tokenize(line)|] == None
    ensures forall k :: |Tokenize(line)| < k < MaxArgs ==> args[k] == old(args[k])
  {
    var s := CutLine(line);
    ghost var ws := Words(s);
    var i := 0;
    var tok: Option<string>, pos: nat := NextToken(s, 0);
    while tok.Some? && i < MaxArgs - 1
      invariant i <= MaxArgs - 1 && pos <= |s|
      invariant i <= |ws| && ws[i..] == AsSeq(tok) + Words(s[pos..])
      invariant tok.None? ==> ws[i..] == []
      invariant forall k :: 0 <= k < i ==> args[k] == Some(ws[k])
      invariant forall k :: i <= k < args.Length ==> args[k] == old(args[k])
    {
      args[i] := tok;
      assert ws[i + 1..] == ws[i..][1..];
      i := i + 1;
      tok, pos := NextToken(s, pos);
    }
    args[i] := None;
    TokenizeStopsAt(line, i);
  }
}
