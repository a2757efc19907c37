# myShell command-line front end in Dafny

myShell is a small interactive shell (`myShell.c`). Each line goes through the same steps.
It is read, cut into tokens, and checked for the built-ins `exit` and `cd`. Any other line
goes to `analisar_e_executar`. That function either splits the tokens at the first `|` into
a two-stage pipeline, or compacts them into a plain argument vector plus a redirection spec:
an input path after `<`, an output path after `>` or `>>` with truncate or append mode, and a
background flag for a final `&`. The child process opens an output file with write-only,
create, and append or truncate flags, and mode 0644.

This project models the part that decides *what* to run. The part that runs it is left out.

- `argv.dfy` (module `Argv`): NULL-terminated argument arrays. An array holds `Slot`s:
  `None` for NULL, `Some(t)` for a token. `Tokens` gives the vector an array denotes.
- `tokenizer.dfy` (module `Tokenizer`): `parse_comando`. It is specified without `strtok`:
  - `Fields` splits on every space and keeps empty pieces. `JoinFields` and `FieldsJoin`
    prove that it is the inverse of joining with single spaces.
  - `Words` drops the empty pieces.
  - `Tokenize` keeps the first 19 words of the line cut at its first newline.
  - The method `ParseComando` fills the argument array with a loop. Method `NextToken`
    models one `strtok` call: `SkipSpaces` steps over the separators and `WordEnd` finds the
    end of the word. All are proved against `Words` and `Tokenize`.
- `scanner.dfy` (module `Scanner`): `analisar_e_executar`.
  - `Scan` splits at the first pipe, or compacts with `Compact`.
  - `Items` cuts the tokens into the pieces the compaction loop acts on: a word, a
    redirection with its path, or the `&` that ends the scan.
  - `Summary` reads those pieces declaratively: the words in order, the last input path,
    the last output path and its mode, and whether a final `&` was seen.
  - `Fold` replays the pieces one by one as the loop does. `FoldSummary` proves that the two
    readings agree.
  - The methods `FindPipe`, `Compaction` and `Analyse` run on the array as the source does.
    That includes overwriting the `|` slot with NULL.
- `open_flags.dfy` (module `OpenFlags`): the open flags and mode for an output redirection.
- `shell.dfy` (module `Shell`): the built-in dispatch and the read loop of `main`. The input
  is given as a sequence of lines.

## Model

| member | source | states |
|---|---|---|
| `Argv.Tokens` | myShell.c:51-52 | the vector an array denotes is the slots before the first NULL. When a NULL exists, it sits right after the last token |
| `Argv.TokensOfSlots` | myShell.c:51-52 | an array whose slots hold the tokens followed by NULL denotes exactly those tokens, whatever stale slots follow |
| `Argv.TokensSplitAt` | myShell.c:204-212 | writing NULL over token k cuts the vector to its first k tokens. The vector that starts at slot k+1 denotes the tokens after k |
| `Tokenizer.NewlineIndex` | myShell.c:40 | the index is the first newline, or the length when there is none: no newline before it, and a newline at it |
| `Tokenizer.CutLine` | myShell.c:40 | the cut line is a prefix of the line, contains no newline, and ends just before the first newline |
| `Tokenizer.JoinFields` | myShell.c:43-49 | splitting on spaces loses nothing: rejoining the pieces with single spaces gives back the text |
| `Tokenizer.FieldsJoin` | myShell.c:43-49 | pieces without spaces, joined with single spaces, split back into the same pieces |
| `Tokenizer.FieldsNoSpace` | myShell.c:43-49 | no piece contains the delimiter `' '` |
| `Tokenizer.FieldsChars` | myShell.c:40-49 | a character absent from the text appears in no piece |
| `Tokenizer.WordsShape` | myShell.c:43-49 | every word is non-empty and holds no space |
| `Tokenizer.LeadingSpace` | myShell.c:43-48 | a leading space yields no empty token, so runs of spaces count as one separator |
| `Tokenizer.LeadingWord` | myShell.c:43-48 | a non-empty space-free run that ends at a space or at the end of the text is the next token. Tabs and other characters are not separators |
| `Tokenizer.WordsJoin` | myShell.c:43-49 | non-empty space-free words joined with single spaces tokenize back to the same words |
| `Tokenizer.Take` | myShell.c:44 | keeps a prefix of exactly min(n, length) elements, so all of them when there are at most n |
| `Tokenizer.TokenizeShape` | myShell.c:40-52 | at most 19 tokens. They are a prefix of the words of the line up to its first newline, and all of those words when fewer than 19. Each is non-empty and holds no space and no newline |
| `Tokenizer.IgnoresAfterNewline` | myShell.c:40 | nothing after the first newline affects the tokens |
| `Tokenizer.TokenizeStopsAt` | myShell.c:44 | the fill loop ends either when the words run out or when 19 are stored, and either way it has stored `Tokenize` |
| `Tokenizer.SkipSpaces` | myShell.c:43-48 | stops at the first non-space at or after the start, or at the end; the spaces skipped change no word |
| `Tokenizer.WordEnd` | myShell.c:43-48 | from a non-space, stops at the next space or the end; everything in between is free of spaces |
| `Tokenizer.NextToken` | myShell.c:43-48 | one `strtok` call returns NULL exactly when only spaces remain. Otherwise it returns the next word, and the words after the returned position are the remaining ones |
| `Tokenizer.ParseComando` | myShell.c:35-53 | the array holds `Tokenize(line)` in order, then NULL right after the last token. Every slot past the sentinel keeps its old content |
| `Scanner.PipeIndex` | myShell.c:201-207 | absent exactly when there is no pipe token. Otherwise it is the index of a pipe token with none before it |
| `Scanner.Scan` | myShell.c:200-214 | a pipeline exactly when a pipe token occurs. Then `left` has no pipe token, and left, a pipe token and right is the original vector. Otherwise the vector is compacted |
| `Scanner.PipeSplitInverse` | myShell.c:201-212 | any pipe-free `left` and any `right` joined by a pipe token split back into exactly `left` and `right`. Later pipes stay in `right` |
| `Scanner.ItemsCover` | myShell.c:221-243 | the pieces spell a prefix of the tokens. They spell all of them unless the scan stopped at an `&` that was not last. A final `&` means every token was consumed |
| `Scanner.ItemsFlatten` | myShell.c:221-243 | re-scanning the spelling of any well-formed sequence of pieces gives the same pieces |
| `Scanner.ItemsCons` | myShell.c:221-243 | a vector that does not start with `&` yields its first piece, then the pieces of what follows it; a redirection takes its path along when there is one |
| `Scanner.ItemsAppend` | myShell.c:221-243 | scanning a vector that ends between complete pieces, followed by more tokens, is scanning each part in turn |
| `Scanner.WordsOfAppend` | myShell.c:239-241 | the words of two piece sequences together are the words of each, in order |
| `Scanner.StepFrame` | myShell.c:222-242 | one piece changes only the field it is about: a word extends the vector, `<` the input path, `>`/`>>` the output path and mode, a final `&` the background flag |
| `Scanner.FoldSnoc` | myShell.c:221-243 | replaying one more piece applies one more loop step to the state |
| `Scanner.FoldSummary` | myShell.c:221-244 | the step-by-step loop from the initial variables ends with exactly the declarative summary: words in order, the last input path, the last output path and mode, and the final-`&` flag |
| `Scanner.SubsequenceLength` | myShell.c:218-244 | a subsequence is no longer than the sequence it is taken from |
| `Scanner.WordsOfItems` | myShell.c:239-241 | the copied words form a subsequence of the tokens and include no `<`, `>`, `>>` or `&` |
| `Scanner.ArgsSubsequence` | myShell.c:218-244 | the compacted vector is an in-order subsequence of the input, no longer than it (so it fits `args_simples`), and contains none of `<`, `>`, `>>`, `&` |
| `Scanner.PlainFold` | myShell.c:239-241 | on tokens with no `<`, `>`, `>>`, `&`, the loop appends all of them and changes nothing else |
| `Scanner.NoOperatorsIdentity` | myShell.c:200-244 | with no operator tokens the scan yields a simple command whose vector equals the input, with both paths absent, truncate mode and no background |
| `Scanner.LastInputSnoc` | myShell.c:222-224 | pieces without input redirections leave the last input path as it was |
| `Scanner.LastOutputSnoc` | myShell.c:225-232 | pieces without output redirections leave the last output redirection as it was |
| `Scanner.RedirectItems` | myShell.c:222-232 | a redirection with a following token makes one piece carrying that token as its path |
| `Scanner.RedirectSkipsPath` | myShell.c:222-232 | the token after `<`, `>` or `>>` is not copied: the compacted vector is that of the part before plus that of the part after |
| `Scanner.LastInputWins` | myShell.c:222-224 | the path after the last `<` is the input path, whatever earlier `<` set |
| `Scanner.LastOutputWins` | myShell.c:225-232 | the path after the last `>`/`>>` is the output path. Append is false for `>` and true for `>>` |
| `Scanner.DanglingRedirect` | myShell.c:222-232 | a redirection that is the last token sets its path to absent, even over an earlier one. `>>` still sets append. The vector is unchanged and background stays false |
| `Scanner.AmpEndsScan` | myShell.c:233-238 | the first `&` stops the scan and every later token is dropped. Background is true exactly when the `&` was the last token |
| `Scanner.BackgroundIsLast` | myShell.c:233-238 | a final-`&` piece can only be the last piece |
| `Scanner.FlattenLast` | myShell.c:233-238 | pieces ending in an `&` piece spell tokens ending in `&` |
| `Scanner.BackgroundNeedsFinalAmp` | myShell.c:233-238 | background is set only when the last token is `&` |
| `Scanner.FindPipe` | myShell.c:201-207 | returns the index of the first pipe token of the array's vector, or -1 exactly when there is none |
| `Scanner.SlotsAt` | myShell.c:221-223 | the slot after a token is in the array, and holds the next token or the NULL sentinel, so `args[i+1]` never reads past the sentinel's slot |
| `Scanner.FoldRedirectAt` | myShell.c:222-232 | a redirection at position i sets its path (and mode), and the scan resumes past the path, or at the end when there is none |
| `Scanner.FoldWordAt` | myShell.c:239-241 | an ordinary token is appended to the compacted vector and the scan resumes at the next token |
| `Scanner.StepAt` | myShell.c:222-242 | one pass of the loop body at index i moves the index forward, never past the end of the vector |
| `Scanner.StepAtIsStep` | myShell.c:222-242 | off `&`, one pass of the loop body at index i applies the step of the piece that starts at i, and moves the index past exactly that piece |
| `Scanner.FoldStepAt` | myShell.c:222-241 | one pass of the loop body over a token other than `&` leaves the outcome of the whole scan unchanged |
| `Scanner.FoldAmpAt` | myShell.c:233-238 | at `&` the scan ends, setting background exactly when the `&` was the last token |
| `Scanner.ArrayTokens` | myShell.c:244 | once NULL is stored after the copied words, `args_simples` denotes exactly those words |
| `Scanner.Compaction` | myShell.c:216-244 | the loop that fills `args_simples` returns exactly `Compact` of the array's vector, and never reads past its NULL |
| `Scanner.Analyse` | myShell.c:193-247 | returns `Scan` of the vector. On a pipe, only the pipe token slot is overwritten with NULL. Otherwise the array is untouched |
| `Scanner.CompactAsWritten` | myShell.c:221-243 | the loop as written, over raw slots: it stops at a NULL it lands on, only appends to the vector, and sets background only where an `&` slot is followed by NULL |
| `Scanner.AsWrittenAgrees` | myShell.c:221-243 | when no redirection lacks its path, the loop as written gives the same command as the corrected one |
| `Scanner.StaleSlotCopied` | myShell.c:221-232 | slots `ls`, `>`, NULL, `d`, NULL: the loop as written runs `ls d`, the corrected loop runs `ls` |
| `Scanner.DanglingOutput` | myShell.c:225-228 | `ls >` compacts to `ls` with no output path, truncate mode and no background |
| `Scanner.OverReadPastArray` | myShell.c:221-232 | with 19 tokens, of which the last is `>` and none before is an operator, the loop as written reads outside the 20-slot array |
| `OpenFlags.OutputOpen` | myShell.c:85-92 | flags always include write-only and create. They include append exactly when appending and truncate exactly otherwise, never both. The mode is 0644 |
| `OpenFlags.OutputRedirection` | myShell.c:83-92 | an output file is opened exactly when the command has an output path, with the flags for its mode |
| `OpenFlags.LastOutputOpens` | myShell.c:225-232 | the last `>` of a line truncates its file and the last `>>` appends to it |
| `Shell.Dispatch` | myShell.c:278-310 | no tokens: skip. First token `exit`: stop. First token `cd`: go to HOME when there is no second token, else to the second token, ignoring the rest and never scanning. Anything else: the scan of the tokens |
| `Shell.SessionShape` | myShell.c:262-311 | one action per line read, each the dispatch of that line's tokens. No `exit` before the last action. Input remains unread only after an `exit` |
| `Shell.SessionFrom` | myShell.c:262-311 | a session from line n is that line's action, followed by the rest unless it was `exit` |
| `Shell.HandleLine` | myShell.c:275-310 | the loop body returns the dispatch of the line's tokens. The array then holds those tokens, with NULL at the pipe token's slot for a pipeline, then the NULL sentinel; every later slot keeps its old content |
| `Shell.TokenizeJoined` | myShell.c:35-53 | a line made of up to 19 non-empty space-free words joined by single spaces, with no newline, tokenizes to those words |
| `Shell.StaleExampleTokens` | myShell.c:35-53 | the lines `a b c d` and `ls >` tokenize to their four and two words |
| `Shell.PlainDispatch` | myShell.c:278-310 | a non-empty line that is not `exit` or `cd` and has no pipe is dispatched as the simple command compacted from its tokens |
| `Shell.LeftAfterParse` | myShell.c:35-53 | after tokenizing, an array with tokens, sentinel and old later slots is in the state a non-pipeline line leaves |
| `Shell.LeftAfterPipe` | myShell.c:204-212 | NULL over the pipe token of a tokenized array gives the state a pipeline line leaves |
| `Shell.StaleAfterTwoLines` | myShell.c:262-310 | after the lines `a b c d` and `ls >`, the array holds `ls`, `>`, NULL, then the stale `d` and NULL |
| `Shell.Repl` | myShell.c:253-313 | the read loop produces exactly `Session(lines)` |

## Left out

- Process creation and wiring in `executar_comando_simples` and `executar_pipe` (myShell.c:59-187):
  `fork`, `execvp`, `waitpid`, `pipe`, `dup2`, `open`, `close`. These are kernel calls across
  concurrent processes. The model stops at the command value those functions would receive.
  The only part modelled is the choice of output flags and mode.
- Opening the input file read-only (myShell.c:72) and the error exits of the child: process-side
  effects, as above.
- The `SIGCHLD` handler `handle_sigchld` and its installation (myShell.c:24-28, 259): asynchronous
  signal handling.
- The effects of `cd` (`chdir`, `getenv("HOME")`, myShell.c:295, 300): only the chosen target
  (`Home` or a directory) is modelled.
- Prompt printing, `fflush`, the messages on `exit` and end of input (myShell.c:265-272, 287):
  terminal output.
- `fgets` (myShell.c:269): the lines are a parameter, each being what one call returned. A line
  longer than 79 characters arrives in several pieces; that split is not modelled. A NUL character
  inside a line is not modelled.
- `strtok`'s hidden cursor and its writes into the line buffer: `NextToken` returns the same
  tokens by position instead.
- Argument slots are strings, not pointers into the line buffer. The aliasing between `args` and
  the line buffer across iterations is not modelled. The stale-slot finding below shows its one
  observable effect.
- `Scanner.CompactAsWritten`: matches the source only when the new line ends before the offset of
  the stale token. In C a stale slot points into the reused line buffer: after `a b c dd` and then
  `ls > ` slot 3 points at an empty string, so the source runs `ls ''`, while the model gives `ls dd`.
- `Scanner.Compaction`: deliberately differs from the source when `<`, `>` or `>>` is the last
  token. The source steps over the NULL sentinel there; the model stops at it. See Findings.

## Findings

| source | as written | input that shows it | evidently intended | confidence | as-written member | corrected member |
|---|---|---|---|---|---|---|
| myShell.c:221-232 | after `<`, `>` or `>>` the index is bumped once in the body and once by the loop, even when the operator was the last token and the path slot was the NULL sentinel | the line `a b c d`, then the line `ls >`: slot 3 still points at `d`, so the shell runs `ls d`; with 19 tokens ending in `>` the loop reads `args[20]`, outside the array | stop at the sentinel: a dangling redirection only makes its path absent | not executed | `Scanner.StaleSlotCopied` (over `Scanner.CompactAsWritten`) | `Scanner.Compaction` |
