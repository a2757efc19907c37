/**
 * Argument vectors as the shell keeps them: a fixed array of string slots in
 * which the tokens of a command line are followed by a NULL sentinel
 * (myShell.c:17, 52, 244). A slot is `None` for NULL and `Some(t)` for a
 * pointer to token `t`.
 */
module Argv {
  import opened Wrappers

  /** Length of the line buffer, terminator included (myShell.c:16). */
  const MaxLine: nat := 80
  /** Number of slots of an argument array, sentinel included (myShell.c:17). */
  const MaxArgs: nat := 20

  type Slot = Option<string>

  /** The tokens a NULL-terminated vector denotes: the slots before the first NULL. */
  function Tokens(slots: seq<Slot>): (toks: seq<string>)
    ensures |toks| <= |slots|
    ensures forall i :: 0 <= i < |toks| ==> slots[i] == Some(toks[i])
    ensures None in slots ==> |toks| < |slots| && slots[|toks|] == None
    ensures None !in slots ==> |toks| == |slots|
  {
    if slots == [] || slots[0].None? then []
    else [slots[0].value] + Tokens(slots[1..])
  }

  /** A vector whose slots hold `toks` and then NULL denotes `toks`, whatever follows the sentinel. */
  lemma {:induction false} TokensOfSlots(slots: seq<Slot>, toks: seq<string>)
    requires |toks| < |slots| && slots[|toks|] == None
    requires forall i :: 0 <= i < |toks| ==> slots[i] == Some(toks[i])
    ensures Tokens(slots) == toks
  {
    if toks != [] {
      assert slots[0] == Some(toks[0]);
      TokensOfSlots(slots[1..], toks[1..]);
    }
  }

  /**
   * Overwriting the slot of token `k` with NULL cuts the vector there, and the
   * vector starting just after it denotes the tokens after `k` (myShell.c:204, 212).
   */
  lemma TokensSplitAt(slots: seq<Slot>, k: nat)
    requires None in slots && k < |Tokens(slots)|
    ensures Tokens(slots[k := None]) == Tokens(slots)[..k]
    ensures Tokens(slots[k + 1..]) == Tokens(slots)[k + 1..]
  {
    var toks := Tokens(slots);
    TokensOfSlots(slots[k := None], toks[..k]);
    TokensOfSlots(slots[k + 1..], toks[k + 1..]);
  }
}
