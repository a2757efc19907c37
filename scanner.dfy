/**
 * The operator scan of `analisar_e_executar` (myShell.c:193-248): split at the
 * first `|`, or compact the tokens into a plain argument vector while picking
 * up the redirections `<`, `>`, `>>` and a trailing `&`.
 *
 * The compaction is specified in two steps. `Items` cuts the tokens into the
 * pieces the loop of myShell.c:221-243 acts on: a word, a redirection with the
 * path that follows it, or the `&` that ends the scan. `Summary` then says what
 * the scan yields, piece by piece: the words in order, the path of the LAST
 * input and of the LAST output redirection, and whether a final `&` was seen.
 * `Fold` replays the pieces one at a time as the loop does, and `FoldSummary`
 * proves that both readings agree.
 */
module Scanner {
  import opened Wrappers
  import opened Argv

  /** What `executar_comando_simples` receives (myShell.c:247). */
  datatype SimpleCommand = SimpleCommand(
    args: seq<string>,
    inPath: Option<string>,
    outPath: Option<string>,
    append: bool,
    background: bool)

  /** What the scan hands on: two commands joined by a pipe, or one simple command. */
  datatype Command =
    | Pipeline(left: seq<string>, right: seq<string>)
    | Simple(cmd: SimpleCommand)

  /** The scanner's variables before the loop (myShell.c:194-197, 219). */
  const Start := SimpleCommand([], None, None, false, false)

  predicate IsRedirect(t: string) {
    t == "<" || t == ">" || t == ">>"
  }

  /** The tokens the compaction never copies. */
  predicate IsMarker(t: string) {
    IsRedirect(t) || t == "&"
  }

  /** Every token the scan gives a meaning to. */
  predicate IsOperator(t: string) {
    t == "|" || IsMarker(t)
  }

  // ---------------------------------------------------------------------------
  // The pipe pass (myShell.c:200-214)

  /** Index of the first `|`, if any. */
  function PipeIndex(toks: seq<string>): (k: Option<nat>)
    ensures k.None? <==> "|" !in toks
    ensures k.Some? ==> k.value < |toks| && toks[k.value] == "|" && "|" !in toks[..k.value]
  {
    if toks == [] then None
    else if toks[0] == "|" then Some(0)
    else
      match PipeIndex(toks[1..])
      case None => None
      case Some(k) =>
        assert toks[..k + 1] == [toks[0]] + toks[1..][..k];
        Some(k + 1)
  }

  /** The whole scan: split at the first pipe, or compact. */
  function Scan(toks: seq<string>): (c: Command)
    ensures c.Pipeline? <==> "|" in toks
    ensures c.Pipeline? ==> "|" !in c.left && c.left + ["|"] + c.right == toks
    ensures c.Simple? ==> c.cmd == Compact(toks)
  {
    match PipeIndex(toks)
    case Some(k) =>
      assert toks[..k] + ["|"] + toks[k + 1..] == toks;
      Pipeline(toks[..k], toks[k + 1..])
    case None => Simple(Compact(toks))
  }

  /** Splitting is undone by joining: any `left` free of pipes is recovered exactly. */
  lemma PipeSplitInverse(left: seq<string>, right: seq<string>)
    requires "|" !in left
    ensures Scan(left + ["|"] + right) == Pipeline(left, right)
  {
    var toks := left + ["|"] + right;
    assert toks[|left|] == "|";
    assert forall j :: 0 <= j < |left| ==> toks[j] == left[j];
    var k := PipeIndex(toks).value;
    assert forall j :: 0 <= j < k ==> toks[..k][j] == toks[j];
    assert k == |left|;
    assert toks[..k] == left;
    assert toks[k + 1..] == right;
  }

  // ---------------------------------------------------------------------------
  // The pieces the compaction loop acts on (myShell.c:221-243)

  datatype Item =
    | Word(w: string)                           // copied to args_simples
    | Input(path: Option<string>)               // `<` and the token after it
    | Output(path: Option<string>, append: bool) // `>` or `>>` and the token after it
    | Amp(final: bool)                          // `&`, and whether it was the last token

  /** The token after position 0, or NULL when there is none. */
  function PathAfter(toks: seq<string>): Option<string> {
    if |toks| > 1 then Some(toks[1]) else None
  }

  /** The pieces of a token vector, left to right; nothing after the first `&`. */
  function Items(toks: seq<string>): seq<Item>
    decreases |toks|
  {
    if toks == [] then []
    else if toks[0] == "&" then [Amp(|toks| == 1)]
    else if IsRedirect(toks[0]) then
      var item := if toks[0] == "<" then Input(PathAfter(toks)) else Output(PathAfter(toks), toks[0] == ">>");
      if |toks| == 1 then [item] else [item] + Items(toks[2..])
    else [Word(toks[0])] + Items(toks[1..])
  }

  /** The tokens a piece stands for. */
  function Spell(item: Item): seq<string> {
    match item
    case Word(w) => [w]
    case Input(p) => ["<"] + (if p.Some? then [p.value] else [])
    case Output(p, a) => [if a then ">>" else ">"] + (if p.Some? then [p.value] else [])
    case Amp(_) => ["&"]
  }

  function Flatten(items: seq<Item>): seq<string> {
    if items == [] then [] else Spell(items[0]) + Flatten(items[1..])
  }

  /**
   * The pieces spell out a prefix of the tokens; it is all of them unless the
   * scan stopped at an `&` that was not last, and a final `&` spells all of them.
   */
  lemma {:induction false} ItemsCover(toks: seq<string>)
    ensures Flatten(Items(toks)) <= toks
    ensures |Flatten(Items(toks))| < |toks| ==> Items(toks)[|Items(toks)| - 1] == Amp(false)
    ensures Amp(true) in Items(toks) ==> Flatten(Items(toks)) == toks
  {
    var items := Items(toks);
    if toks == [] {
    } else if toks[0] == "&" {
      assert items == [Amp(|toks| == 1)];
      assert Flatten(items) == ["&"];
    } else {
      var k := if IsRedirect(toks[0]) then 2 else 1;
      var item := items[0];
      if |toks| < k {
        assert items == [item];
        assert Flatten(items) == Spell(item) == toks;
      } else {
        var tail := toks[k..];
        var rest := Items(tail);
        ItemsCover(tail);
        assert items == [item] + rest;
        assert Spell(item) == toks[..k];
        assert Flatten(items) == toks[..k] + Flatten(rest);
        assert toks == toks[..k] + tail;
        assert !item.Amp?;
        if |Flatten(items)| < |toks| {
          assert |Flatten(rest)| < |tail|;
          assert items[|items| - 1] == rest[|rest| - 1];
        }
        if Amp(true) in items {
          assert Amp(true) in rest;
        }
      }
    }
  }

  /** Pieces the loop can produce: only a final piece may lack its path or be an `&`. */
  predicate WellFormed(items: seq<Item>) {
    (forall i :: 0 <= i < |items| && items[i].Word? ==> !IsMarker(items[i].w)) &&
    (forall i :: 0 <= i < |items| - 1 ==> Closed(items[i])) &&
    (forall i :: 0 <= i < |items| && items[i].Amp? ==> items[i].final)
  }

  /** A piece after which scanning goes on: not an `&`, not a redirection missing its path. */
  predicate Closed(item: Item) {
    match item
    case Word(_) => true
    case Input(p) => p.Some?
    case Output(p, _) => p.Some?
    case Amp(_) => false
  }

  /** Re-scanning the spelling of well-formed pieces gives the same pieces. */
  lemma {:induction false} ItemsFlatten(items: seq<Item>)
    requires WellFormed(items)
    ensures Items(Flatten(items)) == items
  {
    if items != [] {
      var rest := items[1..];
      assert WellFormed(rest) by {
        forall i | 0 <= i < |rest| - 1 ensures Closed(rest[i]) {
          assert rest[i] == items[i + 1];
        }
      }
      ItemsFlatten(rest);
      var toks := Flatten(items);
      assert toks == Spell(items[0]) + Flatten(rest);
      match items[0]
      case Word(w) =>
        assert toks[1..] == Flatten(rest);
      case Input(p) =>
        if p.Some? {
          assert toks[2..] == Flatten(rest);
        } else {
          assert rest == [];
        }
      case Output(p, a) =>
        if p.Some? {
          assert toks[2..] == Flatten(rest);
        } else {
          assert rest == [];
        }
      case Amp(f) =>
        assert rest == [];
    }
  }

  /** The piece that starts at a token other than `&`. */
  function Head(toks: seq<string>): Item
    requires toks != []
  {
    if toks[0] == "<" then Input(PathAfter(toks))
    else if IsRedirect(toks[0]) then Output(PathAfter(toks), toks[0] == ">>")
    else Word(toks[0])
  }

  /** How many tokens that piece takes: a redirection takes its path when there is one. */
  function Width(toks: seq<string>): nat
    requires toks != []
  {
    if IsRedirect(toks[0]) && |toks| > 1 then 2 else 1
  }

  lemma ItemsCons(toks: seq<string>)
    requires toks != [] && toks[0] != "&"
    ensures Width(toks) <= |toks|
    ensures Items(toks) == [Head(toks)] + Items(toks[Width(toks)..])
  {
    if IsRedirect(toks[0]) && |toks| == 1 {
      assert toks[1..] == [];
    }
  }

  /** Scanning a prefix that ends between pieces, then the rest, is scanning both. */
  lemma {:induction false} ItemsAppend(pre: seq<string>, post: seq<string>)
    requires Resumes(pre)
    ensures Items(pre + post) == Items(pre) + Items(post)
    decreases |pre|
  {
    if pre == [] {
      assert pre + post == post;
    } else {
      var toks := pre + post;
      assert toks[0] == pre[0];
      assert Closed(Items(pre)[0]);
      ItemsCons(pre);
      ItemsCons(toks);
      var k := Width(pre);
      if IsRedirect(pre[0]) {
        assert |pre| > 1;
        assert toks[1] == pre[1];
      }
      assert Width(toks) == k && Head(toks) == Head(pre);
      assert toks[k..] == pre[k..] + post;
      var later := Items(pre[k..]);
      var items := Items(pre);
      assert items == [Head(pre)] + later;
      forall i | 0 <= i < |later|
        ensures Closed(later[i])
      {
        assert later[i] == items[i + 1];
      }
      assert Resumes(pre[k..]);
      ItemsAppend(pre[k..], post);
      assert [Head(pre)] + (later + Items(post)) == ([Head(pre)] + later) + Items(post);
    }
  }

  // ---------------------------------------------------------------------------
  // What the pieces mean

  /** One pass of the loop body (myShell.c:222-242). */
  function Step(st: SimpleCommand, item: Item): SimpleCommand {
    match item
    case Word(w) => st.(args := st.args + [w])
    case Input(p) => st.(inPath := p)
    case Output(p, a) => st.(outPath := p, append := a)
    case Amp(f) => st.(background := st.background || f)
  }

  /** A piece changes only the part of the state it is about, and a word only extends the vector. */
  lemma StepFrame(st: SimpleCommand, item: Item)
    ensures Step(st, item).args == st.args || item.Word?
    ensures Step(st, item).inPath == st.inPath || item.Input?
    ensures (Step(st, item).outPath, Step(st, item).append) == (st.outPath, st.append) || item.Output?
    ensures Step(st, item).background == st.background || item == Amp(true)
    ensures item.Word? ==> st.args < Step(st, item).args
  {
  }

  /** The loop, one piece after the other. */
  function Fold(st: SimpleCommand, items: seq<Item>): SimpleCommand
    decreases |items|
  {
    if items == [] then st else Fold(Step(st, items[0]), items[1..])
  }

  function WordsOf(items: seq<Item>): seq<string> {
    if items == [] then []
    else (if items[0].Word? then [items[0].w] else []) + WordsOf(items[1..])
  }

  /** Path of the last input redirection; none when there is no `<`. */
  function LastInput(items: seq<Item>): Option<string> {
    if items == [] then None
    else if items[|items| - 1].Input? then items[|items| - 1].path
    else LastInput(items[..|items| - 1])
  }

  /** The last output redirection, if any. */
  function LastOutput(items: seq<Item>): (out: Option<Item>)
    ensures out.Some? ==> out.value.Output?
  {
    if items == [] then None
    else if items[|items| - 1].Output? then Some(items[|items| - 1])
    else LastOutput(items[..|items| - 1])
  }

  /** What the pieces yield, read declaratively. */
  function Summary(items: seq<Item>): SimpleCommand {
    var out := LastOutput(items);
    SimpleCommand(
      WordsOf(items),
      LastInput(items),
      if out.Some? then out.value.path else None,
      out.Some? && out.value.append,
      Amp(true) in items)
  }

  /** The compaction of a pipe-free token vector. */
  function Compact(toks: seq<string>): SimpleCommand {
    Summary(Items(toks))
  }

  lemma {:induction false} WordsOfAppend(xs: seq<Item>, ys: seq<Item>)
    ensures WordsOf(xs + ys) == WordsOf(xs) + WordsOf(ys)
  {
    if xs != [] {
      assert (xs + ys)[0] == xs[0];
      assert (xs + ys)[1..] == xs[1..] + ys;
      WordsOfAppend(xs[1..], ys);
    } else {
      assert xs + ys == ys;
    }
  }

  lemma {:induction false} FoldSnoc(st: SimpleCommand, xs: seq<Item>, x: Item)
    ensures Fold(st, xs + [x]) == Step(Fold(st, xs), x)
    decreases |xs|
  {
    if xs != [] {
      assert (xs + [x])[1..] == xs[1..] + [x];
      FoldSnoc(Step(st, xs[0]), xs[1..], x);
    }
  }

  /** Replaying the pieces from the initial state yields exactly their summary. */
  lemma {:induction false} FoldSummary(items: seq<Item>)
    ensures Fold(Start, items) == Summary(items)
  {
    if items != [] {
      var xs, x := items[..|items| - 1], items[|items| - 1];
      assert items == xs + [x];
      FoldSummary(xs);
      FoldSnoc(Start, xs, x);
      WordsOfAppend(xs, [x]);
      assert WordsOf([x]) == if x.Word? then [x.w] else [];
    }
  }

  // ---------------------------------------------------------------------------
  // Properties of the compaction

  /** `xs` is obtained from `ys` by deleting elements: an in-order subsequence. */
  predicate Subsequence<T(==)>(xs: seq<T>, ys: seq<T>)
    decreases |ys|
  {
    xs == [] ||
    (ys != [] && ((xs[0] == ys[0] && Subsequence(xs[1..], ys[1..])) || Subsequence(xs, ys[1..])))
  }

  lemma {:induction false} SubsequenceLength<T>(xs: seq<T>, ys: seq<T>)
    requires Subsequence(xs, ys)
    ensures |xs| <= |ys|
  {
    if xs != [] {
      if xs[0] == ys[0] && Subsequence(xs[1..], ys[1..]) {
        SubsequenceLength(xs[1..], ys[1..]);
      } else {
        SubsequenceLength(xs, ys[1..]);
      }
    }
  }

  lemma {:induction false} WordsOfItems(toks: seq<string>)
    ensures Subsequence(WordsOf(Items(toks)), toks)
    ensures forall a :: a in WordsOf(Items(toks)) ==> !IsMarker(a)
  {
    if toks == [] || toks[0] == "&" {
    } else if IsRedirect(toks[0]) {
      if |toks| > 1 {
        WordsOfItems(toks[2..]);
        assert WordsOf(Items(toks)) == WordsOf(Items(toks[2..]));
        assert toks[2..] == toks[1..][1..];
      }
    } else {
      WordsOfItems(toks[1..]);
      assert WordsOf(Items(toks)) == [toks[0]] + WordsOf(Items(toks[1..]));
    }
  }

  /**
   * The compacted vector keeps tokens of the input in their order, is no longer
   * than it (so it fits args_simples with its sentinel), and holds none of
   * `<`, `>`, `>>`, `&`.
   */
  lemma ArgsSubsequence(toks: seq<string>)
    ensures Subsequence(Compact(toks).args, toks)
    ensures |Compact(toks).args| <= |toks|
    ensures forall a :: a in Compact(toks).args ==> !IsMarker(a)
  {
    WordsOfItems(toks);
    SubsequenceLength(Compact(toks).args, toks);
  }

  lemma {:induction false} PlainFold(st: SimpleCommand, toks: seq<string>)
    requires forall i :: 0 <= i < |toks| ==> !IsMarker(toks[i])
    ensures Fold(st, Items(toks)) == st.(args := st.args + toks)
    decreases |toks|
  {
    if toks != [] {
      PlainFold(st.(args := st.args + [toks[0]]), toks[1..]);
      assert st.args + [toks[0]] + toks[1..] == st.args + toks;
    }
  }

  /** Without operators the scan passes the vector on unchanged, with no redirection. */
  lemma NoOperatorsIdentity(toks: seq<string>)
    requires forall i :: 0 <= i < |toks| ==> !IsOperator(toks[i])
    ensures Scan(toks) == Simple(SimpleCommand(toks, None, None, false, false))
  {
    PlainFold(Start, toks);
    FoldSummary(Items(toks));
  }

  /** `pre` is a sequence of complete pieces: the scan resumes right after it. */
  predicate Resumes(pre: seq<string>) {
    forall i :: 0 <= i < |Items(pre)| ==> Closed(Items(pre)[i])
  }

  lemma {:induction false} LastInputSnoc(xs: seq<Item>, ys: seq<Item>, x: Item)
    requires forall i :: 0 <= i < |ys| ==> !ys[i].Input?
    ensures LastInput(xs + [x] + ys) == LastInput(xs + [x])
  {
    if ys == [] {
      assert xs + [x] + ys == xs + [x];
    } else {
      var zs := xs + [x] + ys;
      assert zs[|zs| - 1] == ys[|ys| - 1];
      assert zs[..|zs| - 1] == xs + [x] + ys[..|ys| - 1];
      LastInputSnoc(xs, ys[..|ys| - 1], x);
    }
  }

  lemma {:induction false} LastOutputSnoc(xs: seq<Item>, ys: seq<Item>, x: Item)
    requires forall i :: 0 <= i < |ys| ==> !ys[i].Output?
    ensures LastOutput(xs + [x] + ys) == LastOutput(xs + [x])
  {
    if ys == [] {
      assert xs + [x] + ys == xs + [x];
    } else {
      var zs := xs + [x] + ys;
      assert zs[|zs| - 1] == ys[|ys| - 1];
      assert zs[..|zs| - 1] == xs + [x] + ys[..|ys| - 1];
      LastOutputSnoc(xs, ys[..|ys| - 1], x);
    }
  }

  lemma RedirectItems(pre: seq<string>, op: string, p: string, post: seq<string>)
    requires Resumes(pre) && IsRedirect(op)
    ensures Items(pre + [op, p] + post) ==
            Items(pre) + [if op == "<" then Input(Some(p)) else Output(Some(p), op == ">>")] + Items(post)
  {
    ItemsAppend(pre, [op, p] + post);
    assert pre + [op, p] + post == pre + ([op, p] + post);
    assert ([op, p] + post)[2..] == post;
  }

  /** The token after a redirection is its path and is not copied (myShell.c:222-232). */
  lemma RedirectSkipsPath(pre: seq<string>, op: string, p: string, post: seq<string>)
    requires Resumes(pre) && IsRedirect(op)
    ensures Compact(pre + [op, p] + post).args == Compact(pre).args + Compact(post).args
  {
    RedirectItems(pre, op, p, post);
    var x := if op == "<" then Input(Some(p)) else Output(Some(p), op == ">>");
    WordsOfAppend(Items(pre) + [x], Items(post));
    WordsOfAppend(Items(pre), [x]);
  }

  /** The last `<` decides the input, however many came before (myShell.c:222-224). */
  lemma LastInputWins(pre: seq<string>, p: string, post: seq<string>)
    requires Resumes(pre)
    requires forall i :: 0 <= i < |Items(post)| ==> !Items(post)[i].Input?
    ensures Compact(pre + ["<", p] + post).inPath == Some(p)
  {
    RedirectItems(pre, "<", p, post);
    LastInputSnoc(Items(pre), Items(post), Input(Some(p)));
  }

  /** The last `>` or `>>` decides the output and its mode (myShell.c:225-232). */
  lemma LastOutputWins(pre: seq<string>, op: string, p: string, post: seq<string>)
    requires Resumes(pre) && (op == ">" || op == ">>")
    requires forall i :: 0 <= i < |Items(post)| ==> !Items(post)[i].Output?
    ensures Compact(pre + [op, p] + post).outPath == Some(p)
    ensures Compact(pre + [op, p] + post).append == (op == ">>")
  {
    RedirectItems(pre, op, p, post);
    LastOutputSnoc(Items(pre), Items(post), Output(Some(p), op == ">>"));
  }

  /**
   * A redirection that is the last token has no path: the path becomes absent,
   * even if an earlier redirection of the same kind had set one.
   */
  lemma DanglingRedirect(pre: seq<string>, op: string)
    requires Resumes(pre) && IsRedirect(op)
    ensures Compact(pre + [op]).args == Compact(pre).args
    ensures op == "<" ==> Compact(pre + [op]).inPath == None
    ensures op != "<" ==> Compact(pre + [op]).outPath == None
    ensures op != "<" ==> Compact(pre + [op]).append == (op == ">>")
    ensures !Compact(pre + [op]).background
  {
    ItemsAppend(pre, [op]);
    var x := if op == "<" then Input(None) else Output(None, op == ">>");
    assert Items([op]) == [x];
    WordsOfAppend(Items(pre), [x]);
    assert Amp(true) !in Items(pre) by {
      forall i | 0 <= i < |Items(pre)| ensures Items(pre)[i] != Amp(true) {
        assert Closed(Items(pre)[i]);
      }
    }
  }

  /**
   * The first `&` ends the scan: what follows it is dropped, and it marks the
   * command as background exactly when it was the last token (myShell.c:233-238).
   */
  lemma AmpEndsScan(pre: seq<string>, post: seq<string>)
    requires Resumes(pre)
    ensures !Compact(pre).background
    ensures Compact(pre + ["&"] + post) == Compact(pre).(background := post == [])
  {
    ItemsAppend(pre, ["&"] + post);
    assert pre + ["&"] + post == pre + (["&"] + post);
    var x := Amp(post == []);
    assert Items(["&"] + post) == [x];
    var xs := Items(pre);
    WordsOfAppend(xs, [x]);
    assert (xs + [x])[..|xs|] == xs;
    assert Amp(true) !in xs by {
      forall i | 0 <= i < |xs| ensures xs[i] != Amp(true) {
        assert Closed(xs[i]);
      }
    }
  }

  /** Background is set only by a final `&`. */
  lemma BackgroundNeedsFinalAmp(toks: seq<string>)
    requires Compact(toks).background
    ensures toks != [] && toks[|toks| - 1] == "&"
  {
    var items := Items(toks);
    assert Amp(true) in items;
    BackgroundIsLast(toks);
    var last := items[|items| - 1];
    assert last == Amp(true);
    FlattenLast(items);
    ItemsCover(toks);
  }

  lemma {:induction false} BackgroundIsLast(toks: seq<string>)
    requires Amp(true) in Items(toks)
    ensures Items(toks) != [] && Items(toks)[|Items(toks)| - 1] == Amp(true)
  {
    if toks != [] && toks[0] != "&" {
      ItemsCons(toks);
      var items, later := Items(toks), Items(toks[Width(toks)..]);
      assert items == [Head(toks)] + later;
      assert Amp(true) in later;
      BackgroundIsLast(toks[Width(toks)..]);
      assert items[|items| - 1] == later[|later| - 1];
    }
  }

  lemma {:induction false} FlattenLast(items: seq<Item>)
    requires items != [] && items[|items| - 1].Amp?
    ensures Flatten(items) != [] && Flatten(items)[|Flatten(items)| - 1] == "&"
  {
    var f, rest := Flatten(items), Flatten(items[1..]);
    assert f == Spell(items[0]) + rest;
    if |items| == 1 {
      assert rest == [];
      assert f == ["&"];
    } else {
      assert items[1..][|items| - 2] == items[|items| - 1];
      FlattenLast(items[1..]);
      assert f[|f| - 1] == rest[|rest| - 1];
    }
  }

  // ---------------------------------------------------------------------------
  // The scan as the source runs it, on the argument array

  /** The search of myShell.c:201-207, without its write: the index of the first `|`, or -1. */
  method FindPipe(args: array<Slot>) returns (k: int)
    requires None in args[..]
    ensures -1 <= k < |Tokens(args[..])|
    ensures k == -1 <==> "|" !in Tokens(args[..])
    ensures k >= 0 ==> Tokens(args[..])[k] == "|" && "|" !in Tokens(args[..])[..k]
  {
    ghost var toks := Tokens(args[..]);
    var i := 0;
    while args[i] != None
      invariant i <= |toks|
      invariant "|" !in toks[..i]
      decreases |toks| - i
    {
      if args[i] == Some("|") {
        return i;
      }
      assert toks[..i + 1] == toks[..i] + [toks[i]];
      i := i + 1;
    }
    assert toks[..i] == toks;
    return -1;
  }

  /** The token after position `i`, or NULL when `i` is the last one. */
  function PathAt(toks: seq<string>, i: nat): Option<string> {
    if i + 1 < |toks| then Some(toks[i + 1]) else None
  }

  /** Where the scan goes on after the redirection at `i`: past its path, or onto the end. */
  function AfterRedirect(toks: seq<string>, i: nat): nat {
    if i + 1 < |toks| then i + 2 else i + 1
  }

  /** Slot `i` holds token `i`, and the slot after it holds the next token or the sentinel. */
  lemma SlotsAt(slots: seq<Slot>, i: nat)
    requires None in slots && i < |Tokens(slots)|
    ensures i + 1 < |slots|
    ensures slots[i] == Some(Tokens(slots)[i])
    ensures slots[i + 1] == PathAt(Tokens(slots), i)
  {
  }

  lemma FoldRedirectAt(toks: seq<string>, i: nat, st: SimpleCommand)
    requires i < |toks| && IsRedirect(toks[i])
    ensures AfterRedirect(toks, i) <= |toks|
    ensures Fold(st, Items(toks[i..])) == Fold(
      if toks[i] == "<" then st.(inPath := PathAt(toks, i))
      else st.(outPath := PathAt(toks, i), append := toks[i] == ">>"),
      Items(toks[AfterRedirect(toks, i)..]))
  {
    var t := toks[i..];
    assert t[0] == toks[i];
    if i + 1 < |toks| {
      assert t[2..] == toks[i + 2..];
    } else {
      assert toks[i + 1..] == [];
    }
  }

  lemma FoldWordAt(toks: seq<string>, i: nat, st: SimpleCommand)
    requires i < |toks| && !IsMarker(toks[i])
    ensures Fold(st, Items(toks[i..])) == Fold(st.(args := st.args + [toks[i]]), Items(toks[i + 1..]))
  {
    var t := toks[i..];
    assert t[0] == toks[i];
    assert t[1..] == toks[i + 1..];
  }

  /** One pass of the loop body over a token other than `&`: the new state and where the scan goes on. */
  function StepAt(toks: seq<string>, i: nat, st: SimpleCommand): (r: (SimpleCommand, nat))
    requires i < |toks|
    ensures i < r.1 <= |toks|
  {
    var t := toks[i];
    if t == "<" then (st.(inPath := PathAt(toks, i)), AfterRedirect(toks, i))
    else if t == ">" || t == ">>" then (st.(outPath := PathAt(toks, i), append := t == ">>"), AfterRedirect(toks, i))
    else (st.(args := st.args + [t]), i + 1)
  }

  /** Off `&`, one pass of the loop body at `i` is the step of the piece that starts at `i`. */
  lemma StepAtIsStep(toks: seq<string>, i: nat, st: SimpleCommand)
    requires i < |toks| && toks[i] != "&"
    ensures StepAt(toks, i, st).0 == Step(st, Head(toks[i..]))
    ensures StepAt(toks, i, st).1 == i + Width(toks[i..])
  {
    var t := toks[i..];
    assert t[0] == toks[i];
  }

  lemma FoldStepAt(toks: seq<string>, i: nat, st: SimpleCommand)
    requires i < |toks| && toks[i] != "&"
    ensures StepAt(toks, i, st).1 <= |toks|
    ensures Fold(st, Items(toks[i..])) == Fold(StepAt(toks, i, st).0, Items(toks[StepAt(toks, i, st).1..]))
  {
    if IsRedirect(toks[i]) {
      FoldRedirectAt(toks, i, st);
    } else {
      FoldWordAt(toks, i, st);
    }
  }

  lemma FoldAmpAt(toks: seq<string>, i: nat, st: SimpleCommand)
    requires i < |toks| && toks[i] == "&"
    ensures Fold(st, Items(toks[i..])) == st.(background := st.background || i + 1 == |toks|)
  {
    var t := toks[i..];
    assert t[0] == toks[i];
  }

  /** An array whose first slots hold `toks` denotes `toks` once NULL is stored after them. */
  lemma ArrayTokens(a: array<Slot>, toks: seq<string>)
    requires |toks| < a.Length
    requires forall k :: 0 <= k < |toks| ==> a[k] == Some(toks[k])
    ensures Tokens(a[..][|toks| := None]) == toks
  {
    TokensOfSlots(a[..][|toks| := None], toks);
  }

  /**
   * The compaction loop of myShell.c:216-244 over a pipe-free vector, filling a
   * fresh `args_simples` array. It departs from the source in one place: a
   * redirection that is the last token does not step over the NULL sentinel.
   */
  method Compaction(args: array<Slot>) returns (c: SimpleCommand)
    requires args.Length == MaxArgs && None in args[..]
    ensures c == Compact(Tokens(args[..]))
  {
    ghost var slots := args[..];
    ghost var toks := Tokens(slots);
    ghost var goal := Fold(Start, Items(toks));
    var background := false;
    var inPath: Option<string> := None;
    var outPath: Option<string> := None;
    var append := false;
    var argsSimples := new Slot[MaxArgs];
    var argIndex := 0;
    ghost var kept: seq<string> := [];
    var i := 0;
    while args[i] != None
      invariant i <= |toks| < MaxArgs && argIndex == |kept| <= i
      invariant forall k :: 0 <= k < argIndex ==> argsSimples[k] == Some(kept[k])
      invariant args[..] == slots
      invariant Fold(SimpleCommand(kept, inPath, outPath, append, background), Items(toks[i..])) == goal
      decreases |toks| - i
    {
      SlotsAt(slots, i);
      assert args[i] == slots[i] && args[i + 1] == slots[i + 1];
      var t := args[i].value;
      ghost var st := SimpleCommand(kept, inPath, outPath, append, background);
      ghost var next := StepAt(toks, i, st);
      if t == "<" {
        FoldStepAt(toks, i, st);
        inPath := args[i + 1];
        if args[i + 1] != None {
          i := i + 1;
        }
      } else if t == ">" {
        FoldStepAt(toks, i, st);
        outPath, append := args[i + 1], false;
        if args[i + 1] != None {
          i := i + 1;
        }
      } else if t == ">>" {
        FoldStepAt(toks, i, st);
        outPath, append := args[i + 1], true;
        if args[i + 1] != None {
          i := i + 1;
        }
      } else if t == "&" {
        FoldAmpAt(toks, i, st);
        if args[i + 1] == None {
          background := true;
        }
        break;
      } else {
        FoldStepAt(toks, i, st);
        argsSimples[argIndex] := Some(t);
        argIndex := argIndex + 1;
        kept := kept + [t];
      }
      i := i + 1;
      assert i == next.1 && SimpleCommand(kept, inPath, outPath, append, background) == next.0;
    }
    ArrayTokens(argsSimples, kept);
    ghost var filled := argsSimples[..];
    argsSimples[argIndex] := None;
    FoldSummary(Items(toks));
    assert args[..] == slots;
    assert argsSimples[..] == filled[argIndex := None];
    c := SimpleCommand(Tokens(argsSimples[..]), inPath, outPath, append, background);
  }

  /**
   * `analisar_e_executar` up to the calls of the executors (myShell.c:193-247):
   * the command they would be handed. On a pipe the `|` slot is overwritten
   * with NULL, so that the array itself holds the left command and the slots
   * after it the right one.
   */
  method Analyse(args: array<Slot>) returns (cmd: Command)
    requires args.Length == MaxArgs && None in args[..]
    modifies args
    ensures cmd == Scan(old(Tokens(args[..])))
    ensures cmd.Pipeline? ==> args[..] == old(args[..])[|cmd.left| := None]
    ensures cmd.Simple? ==> args[..] == old(args[..])
  {
    var k := FindPipe(args);
    if k != -1 {
      TokensSplitAt(args[..], k);
      args[k] := None;
      cmd := Pipeline(Tokens(args[..]), Tokens(args[k + 1..]));
      return;
    }
    var simple := Compaction(args);
    cmd := Simple(simple);
  }

  // ---------------------------------------------------------------------------
  // The compaction loop exactly as written

  /**
   * The loop of myShell.c:221-243 run on the raw slots of the argument array,
   * from slot `i`. After a redirection it always advances two slots, so when
   * the redirection is the last token it steps over the NULL sentinel and goes
   * on with whatever an earlier line left in the slots beyond. `None` stands for
   * a read outside the array.
   */
  function CompactAsWritten(slots: seq<Slot>, i: nat, st: SimpleCommand): (r: Option<SimpleCommand>)
    ensures i < |slots| && slots[i].None? ==> r == Some(st)
    ensures r.Some? ==> st.args <= r.value.args
    ensures r.Some? && r.value.background && !st.background ==>
              exists j :: i <= j < |slots| - 1 && slots[j] == Some("&") && slots[j + 1] == None
    decreases |slots| - i
  {
    if i >= |slots| then None
    else if slots[i].None? then Some(st)
    else
      var t := slots[i].value;
      if IsRedirect(t) then
        if i + 1 >= |slots| then None
        else
          var st' := if t == "<" then st.(inPath := slots[i + 1])
                     else st.(outPath := slots[i + 1], append := t == ">>");
          CompactAsWritten(slots, i + 2, st')
      else if t == "&" then
        if i + 1 >= |slots| then None
        else Some(st.(background := st.background || slots[i + 1].None?))
      else CompactAsWritten(slots, i + 1, st.(args := st.args + [t]))
  }

  /** Every redirection among the pieces has its path. */
  predicate PathsGiven(items: seq<Item>) {
    forall k :: 0 <= k < |items| ==> !(items[k].Input? || items[k].Output?) || items[k].path.Some?
  }

  /**
   * Where no redirection lacks its path, the loop as written and the corrected
   * one agree.
   */
  lemma {:induction false} AsWrittenAgrees(slots: seq<Slot>, i: nat, st: SimpleCommand)
    requires None in slots && i <= |Tokens(slots)|
    requires PathsGiven(Items(Tokens(slots)[i..]))
    ensures CompactAsWritten(slots, i, st) == Some(Fold(st, Items(Tokens(slots)[i..])))
    decreases |slots| - i
  {
    var toks := Tokens(slots);
    if i < |toks| {
      var t := toks[i];
      var rest := toks[i..];
      assert rest[0] == t;
      SlotsAt(slots, i);
      if t != "&" {
        ItemsCons(rest);
        var k := Width(rest);
        var items, later := Items(rest), Items(rest[k..]);
        assert items == [Head(rest)] + later && items[0] == Head(rest) && items[1..] == later;
        assert rest[k..] == toks[i + k..];
        forall j | 0 <= j < |later|
          ensures !(later[j].Input? || later[j].Output?) || later[j].path.Some?
        {
          assert later[j] == items[j + 1];
        }
        var st' := Step(st, Head(rest));
        assert Fold(st, items) == Fold(st', later);
        if IsRedirect(t) {
          assert items[0].path.Some?;
          assert k == 2 && slots[i + 1] == Some(toks[i + 1]);
        }
        assert PathsGiven(later) && Items(toks[i + k..]) == later;
        AsWrittenAgrees(slots, i + k, st');
        assert CompactAsWritten(slots, i, st) == CompactAsWritten(slots, i + k, st');
      }
    }
  }

  /**
   * Counterexample: after the line `a b c d`, slot 3 still points at `d`; the
   * line `ls >` then leaves `ls`, `>`, NULL, `d`, NULL in the first five slots.
   * The loop as written runs `ls d`; the corrected one runs `ls`.
   */
  lemma StaleSlotCopied(slots: seq<Slot>)
    requires |slots| == MaxArgs
    requires slots[0] == Some("ls") && slots[1] == Some(">") && slots[2] == None
    requires slots[3] == Some("d") && slots[4] == None
    ensures CompactAsWritten(slots, 0, Start) == Some(SimpleCommand(["ls", "d"], None, None, false, false))
    ensures Compact(Tokens(slots)) == SimpleCommand(["ls"], None, None, false, false)
  {
    var ls := Start.(args := ["ls"]);
    assert Start.args + ["ls"] == ["ls"] && ["ls"] + ["d"] == ["ls", "d"];
    assert CompactAsWritten(slots, 3, ls) == Some(ls.(args := ["ls", "d"]));
    assert CompactAsWritten(slots, 0, Start) == CompactAsWritten(slots, 1, ls);
    TokensOfSlots(slots, ["ls", ">"]);
    DanglingOutput();
  }

  /** `ls >` compacts to `ls` with no output file. */
  lemma DanglingOutput()
    ensures Compact(["ls", ">"]) == SimpleCommand(["ls"], None, None, false, false)
  {
    var items := [Word("ls"), Output(None, false)];
    assert ["ls", ">"][1..] == [">"];
    assert Items(["ls", ">"]) == items;
    assert items[..1] == [Word("ls")] && items[1..] == [Output(None, false)];
    assert LastOutput(items) == Some(Output(None, false));
    assert LastInput(items) == LastInput([Word("ls")]) == None;
    assert WordsOf(items) == ["ls"] + WordsOf([Output(None, false)]) == ["ls"];
  }

  /**
   * Counterexample: with all MaxArgs - 1 slots in use and `>` the last token,
   * the loop as written reads the slot after the sentinel, which lies outside
   * the array.
   */
  lemma {:induction false} OverReadPastArray(slots: seq<Slot>, i: nat, st: SimpleCommand)
    requires 2 <= |slots| && i <= |slots| - 2
    requires forall k :: i <= k < |slots| - 2 ==> slots[k].Some? && !IsMarker(slots[k].value)
    requires slots[|slots| - 2] == Some(">") && slots[|slots| - 1] == None
    ensures CompactAsWritten(slots, i, st) == None
    decreases |slots| - i
  {
    if i < |slots| - 2 {
      OverReadPastArray(slots, i + 1, st.(args := st.args + [slots[i].value]));
    }
  }
}
