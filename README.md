# CSV key-value store, modelled in Dafny

The program is a small interactive key-value store. Its data lives in a flat
file `data.csv` with one `key,value` line per record. Every command that
needs the data does the same three things:

- it loads the whole file into an ordered list of pairs (`load_csv`);
- it changes that list in memory;
- it writes the whole list back (`save_csv`).

`main` prints a banner and then loops. Each turn reads a line, trims it and
splits it on whitespace. It then dispatches on the first word: `set`, `get`,
`delete`, `list`, `quit`/`exit`, or an unknown command.

The model has four modules, one per file:

- `Seqs` (`seqs.dfy`): a few generic sequence lemmas.
- `Text` (`text.dfy`): the Rust string operations the program relies on. These are
  `trim` (with Unicode White_Space), `BufRead::lines`, `split_whitespace` and
  `join(" ")`.
- `Store` (`store.dfy`): `load_csv` as the method `LoadCsv` and `save_csv` as
  the method `SaveCsv`. The first-comma `splitn(2, ',')` is the function
  `SplitFirstComma`. Each loop method is proved against a specification
  function: `Loaded` for loading, `Serialize` for saving. The round trip
  between them is proved exactly.
- `Commands` (`commands.dfy`): the operations on the list of pairs:
  - `retain` is `WithoutKey`;
  - `retain` followed by `push` is `SetPairs`;
  - `find_map` is `Lookup`;
  - the `list` printing is `ListOutput`.

  It also holds the per-command behaviour, as the function `Dispatch` and the
  imperative method `Execute`, and the input loop, as the function `RunLoop`
  and the methods `Turn` and `Run`.

State is modelled as values:

- The file is an `Option<string>`. `None` means it cannot be opened, which the
  program treats as an empty store.
- Everything printed is a `seq<string>`, one element per printed line.
- The input is a sequence of lines. `None` stands for a failed `read_line`.
- Whether a save succeeds is an input, one boolean per input line. A
  successful save replaces the file's text with `Serialize(pairs)`. A failed
  save leaves the file as it was and prints `Could not update the file.`

In four places the code does less than a user of the store would expect.
The model follows the code in each:

- **Round trip.** One would expect saving and then loading to give back the
  records whenever keys and values contain no line break. The code loses more
  than that. `load_csv` trims every line and splits at the
  first comma, so a pair fails to round-trip when:
  - its key contains a comma,
  - its key starts with whitespace,
  - or its value ends with whitespace.

  `Store.RoundTripIff` states the exact condition (`Storable`).
  `Commands.CommaKeyLost` shows the comma case through the commands: after
  `set x,y v`, `get x,y` prints `Key not found`. `Commands.GetCommaKey`
  shows that `get` never finds a key with a comma, whatever the file holds.
- **Unique keys.** One would expect at most one record per key after every
  `set` and `delete`. The code keeps this whenever the `set` key has no
  comma, which `Commands.DispatchKeepsKeysUnique` proves. A comma key whose
  part before the comma is already stored creates a duplicate:
  `Commands.CommaKeyDuplicates` shows that `set x,y v` on a file holding key
  `x` leaves two records with key `x`.
- **Repeated `set`.** One would expect repeating a `set` to change nothing.
  This holds for a key without a comma (`Commands.SetTwiceSameFile`). For a
  comma key it does not: `Commands.CommaSetTwiceChanges` shows that a second
  `set x,y v` adds another record to the file.
- **End of input.** One would expect the loop to stop at end of input. In
  the code, `read_line` then returns an empty line, which is skipped, so the
  loop spins forever. The model's loop ends when its input sequence is used
  up, with `stop` false.

## Model

| member | source | states |
|---|---|---|
| Text.LeadingWhitespace | src/main.rs:116 | the length of the leading run of whitespace: everything before it is whitespace, and the next character, if any, is not |
| Text.TrimStart | src/main.rs:116 | the result is a suffix of the input; what was dropped is all whitespace; the result is empty or starts with non-whitespace |
| Text.TrimEnd | src/main.rs:116 | the result is a prefix of the input; what was dropped is all whitespace; the result is empty or ends with non-whitespace |
| Text.Trim | src/main.rs:116 | the result is the slice of the input after its leading whitespace run; what is dropped at both ends is all whitespace; the result neither starts nor ends with whitespace, and it is empty exactly when the input is all whitespace |
| Text.TrimKeepsOut | src/main.rs:22 | trimming never introduces a character that was not in the input |
| Text.TrimNoop | src/main.rs:116 | a string that is empty or has non-whitespace at both ends is its own trim |
| Text.TrimWord | src/main.rs:22 | a single whitespace-free word is its own trim |
| Text.IndexOf | src/main.rs:118 | the index of the first occurrence: it holds the character and nothing before it does |
| Text.IndexOfAfterPrefix | src/main.rs:118 | in `x + [c] + y` with no `c` in `x`, the first `c` is at position `|x|` |
| Text.StripCR | src/main.rs:114 | a trailing carriage return is always removed, exactly one, and a line without one is unchanged |
| Text.Lines | src/main.rs:114 | `BufRead::lines` returns no lines exactly when the text is empty |
| Text.LinesShape | src/main.rs:114 | no line returned by `lines` contains a line feed, and there are no lines exactly when the text is empty |
| Text.LinesCons | src/main.rs:114 | `lines` of `x + "\n" + rest` is `x` (without a trailing carriage return) followed by the lines of `rest` |
| Text.WordLength | src/main.rs:25 | the longest whitespace-free prefix: it has no whitespace and is followed by whitespace or the end |
| Text.WordLengthOfWord | src/main.rs:25 | a word followed by whitespace or nothing has exactly its own length as its first word length |
| Text.Tokenize | src/main.rs:25 | every token of `split_whitespace` is non-empty and has no whitespace |
| Text.TokenizeEmpty | src/main.rs:23-26 | there are no tokens exactly when the line is all whitespace |
| Text.TokenizeWordThen | src/main.rs:25 | a word followed by whitespace or nothing is the first token, and the rest is tokenized on its own |
| Text.TokenizeWord | src/main.rs:25 | a single word splits into just that word |
| Text.TokenizeSpaceThen | src/main.rs:25 | any leading whitespace does not change the tokens |
| Text.JoinSpace | src/main.rs:37 | a join of words starts with the first word |
| Text.TokenizeJoinSpace | src/main.rs:37 | splitting the space-joined words gives back exactly those words |
| Text.JoinSpaceShape | src/main.rs:37 | a join of words is empty only for no words, has no whitespace at either end and contains no line feed |
| Store.FormatPair | src/main.rs:137 | a record's line always holds a comma, and when the key has none the first comma is right after the key |
| Store.SplitFirstComma | src/main.rs:118-120 | there are two parts exactly when the line has a comma; the key then has no comma and `key + "," + value` is the line |
| Store.ParseLine | src/main.rs:115-121 | a line gives a pair exactly when its trimmed text has a comma; the pair's key has no comma and key, comma and value rebuild the trimmed line |
| Store.ParseLines | src/main.rs:114-123 | loading never yields more pairs than there are lines, and no loaded key holds a comma |
| Store.ParseLinesAppend | src/main.rs:114-123 | loading is line by line: the pairs of two blocks of lines are the first block's pairs followed by the second's |
| Store.ParseLinesAround | src/main.rs:117-120 | a blank line or a line with no comma contributes nothing; any other line contributes its own pair, in place |
| Store.Loaded | src/main.rs:109-126 | a file that cannot be opened gives no pairs; otherwise there are at most as many pairs as lines, and no key holds a comma |
| Store.LoadCsv | src/main.rs:109-126 | the loop returns `Loaded(file)`: nothing when the file cannot be opened, otherwise the pairs of the file's lines in line order |
| Store.Serialize | src/main.rs:136-138 | the saved text is empty exactly when there are no pairs, and otherwise it ends with a line feed |
| Store.SerializeOne | src/main.rs:137 | one pair is written as its `key,value` line followed by a line feed |
| Store.SerializeAppend | src/main.rs:136-138 | saving is record by record: the text of two blocks of pairs is the first block's text followed by the second's |
| Store.SaveCsv | src/main.rs:129-140 | the loop of `writeln!` calls produces exactly `Serialize(pairs)`: one `key,value` line per pair, in order |
| Store.ParseFormattedLine | src/main.rs:137 | the line written for a storable pair has no line feed and no trailing carriage return, and it is read back as that same pair |
| Store.FormattedLineTrimmed | src/main.rs:116 | a storable pair's line is left unchanged by trimming |
| Store.SplitFormatted | src/main.rs:118 | a line whose key has no comma splits back into that key and value |
| Store.FormatPairNoLineFeed | src/main.rs:137 | a pair without line feeds is written as a single line |
| Store.LoadSerialize | src/main.rs:109-140 | round trip: loading what `save_csv` wrote gives back the same pairs in the same order, when every pair is storable |
| Store.ParsedLineStorable | src/main.rs:116-120 | every pair read from a line is storable |
| Store.ParsedLinesStorable | src/main.rs:114-123 | every pair loaded from lines without line feeds is storable |
| Store.LoadedStorable | src/main.rs:109-126 | every pair `load_csv` returns, whatever the file holds, is storable |
| Store.SaveLoadedIsStable | src/main.rs:109-140 | saving the loaded pairs and loading again gives the same pairs |
| Store.RoundTripIff | src/main.rs:109-140 | a save then a load reproduces the pairs if and only if every pair is storable |
| Commands.WithoutKey | src/main.rs:42 | `retain` keeps a pair exactly when it was there and has a different key, and never adds pairs |
| Commands.WithoutKeyAppend | src/main.rs:74 | `retain` works pair by pair and keeps the order of what it keeps |
| Commands.WithoutKeyUnchanged | src/main.rs:73-75 | the length is unchanged if and only if no pair has the key, and then the pairs are unchanged |
| Commands.WithoutKeyRemovesAll | src/main.rs:74 | after `retain` no pair has the key, duplicates included |
| Commands.UniqueCons | src/main.rs:43 | a pair put in front of pairs with unique keys, none of them its own key, keeps the keys unique |
| Commands.WithoutKeyUnique | src/main.rs:74 | `retain` keeps keys unique |
| Commands.SetPairs | src/main.rs:40-43 | after `set`, the new pair is last, no earlier pair has its key, and the other pairs are exactly the old pairs with other keys |
| Commands.SetPairsUnique | src/main.rs:42-43 | `set` keeps keys unique |
| Commands.SetOverwrites | src/main.rs:42-43 | a second `set` of the same key gives the same pairs as the second `set` alone |
| Commands.SetIdempotent | src/main.rs:42-43 | repeating the same `set` gives the same pairs |
| Commands.Lookup | src/main.rs:59 | `find_map` finds nothing exactly when no pair has the key; otherwise it returns the value of the first pair with the key |
| Commands.LookupAppend | src/main.rs:59 | the first match in two blocks is in the first block if it has the key, otherwise in the second |
| Commands.LookupWithoutOther | src/main.rs:74 | removing one key does not change what a lookup of another key finds |
| Commands.LookupAfterSet | src/main.rs:40-59 | after `set key value`, a lookup of `key` finds `value` |
| Commands.LookupAfterSetOther | src/main.rs:40-59 | `set` of one key does not change what a lookup of another key finds |
| Commands.LookupAfterDelete | src/main.rs:72-74 | after `delete key`, a lookup of `key` finds nothing and lookups of other keys are unchanged |
| Commands.FormatAll | src/main.rs:91-93 | there is one printed line per pair |
| Commands.ListOutput | src/main.rs:87-94 | `list` always prints at least one line, and at least one per pair |
| Commands.ListOutputShape | src/main.rs:87-94 | `list` prints exactly `(empty)` when there are no pairs, and otherwise one `k,v` line per pair in store order |
| Commands.ListLines | src/main.rs:88-94 | the printing loop produces `ListOutput(pairs)` |
| Commands.Saved | src/main.rs:45-49 | a save with its report prints exactly one line and does not stop the loop; a failed save leaves the file alone; a successful save of storable pairs makes the file load back as exactly those pairs |
| Commands.Dispatch | src/main.rs:29-104 | every command prints at least one line; a command that stops the loop prints only `Exiting.` and leaves the file alone |
| Commands.Step | src/main.rs:18-26 | a turn prints nothing exactly when the read fails or the line is all whitespace; a turn that stops the loop prints only `Exiting.` and leaves the file alone |
| Commands.RunLoop | src/main.rs:12-105 | when the loop stops, the last line it printed is `Exiting.` |
| Commands.Execute | src/main.rs:29-104 | running one command arm returns the file, the printed lines and the stop flag given by `Dispatch` |
| Commands.Turn | src/main.rs:18-26 | one turn skips a failed read, a blank line and a line without words, and otherwise runs the command; the result is `Step` |
| Commands.Run | src/main.rs:8-106 | `main` prints the banner and then produces the outcome of `RunLoop` over the inputs |
| Commands.WordPairStorable | src/main.rs:36-37 | the pair a `set` builds from whitespace-free words survives a save and load when the key has no comma |
| Commands.SetPairsStorable | src/main.rs:42-43 | `set` of a storable pair keeps all pairs storable |
| Commands.WithoutKeyStorable | src/main.rs:74 | `retain` keeps all pairs storable |
| Commands.DispatchEffects | src/main.rs:29-104 | the loop stops exactly for `quit` and `exit`; the file changes only after a successful save by a `set` with at least three words, or by a `delete` of a key that is present |
| Commands.DispatchSet | src/main.rs:30-50 | for a key without a comma, `set` prints `Set '<key>'` or the failure message; after a successful save the loaded store is `SetPairs` of the old one, and after a failed save it is unchanged |
| Commands.DispatchDelete | src/main.rs:65-84 | `delete` prints `Key not found` exactly when no pair has the key; when the key is present it prints `Deleted '<key>'` after a successful save and `Could not update the file.` after a failed one; the file changes only if the key is present; after a successful save the store holds the other pairs in order, and otherwise it is unchanged |
| Commands.DispatchKeepsKeysUnique | src/main.rs:29-104 | every command keeps the stored keys unique, provided a `set` key has no comma |
| Commands.SetThenGet | src/main.rs:30-64 | for a key without a comma, after `set key words...` saves, `get key` prints the words joined with single spaces |
| Commands.SetTwiceSameFile | src/main.rs:30-50 | for a key without a comma, repeating a successful `set` leaves the file as the first one left it |
| Commands.DeleteThenGet | src/main.rs:51-84 | after `delete key` saves, `get key` prints `Key not found` |
| Commands.CommaKeyLost | src/main.rs:36-63 | on an empty store, `set x,y v...` reports success, its line is read back as key `x` with value `y,v...`, and `get x,y` prints `Key not found` |
| Commands.CommaKeySaved | src/main.rs:36-45 | `set x,y v...` on an empty store writes the same text as the pair `x`, `y,v...` |
| Commands.CommaKeyStorable | src/main.rs:36-37 | the pair a comma key is read back as still survives a save and load |
| Commands.CommaKeyDuplicates | src/main.rs:36-45 | on a file holding one storable pair with key `x`, whose keys are unique, `set x,y v...` leaves a file whose loaded keys are not unique |
| Commands.CommaSetTwiceChanges | src/main.rs:36-45 | on an empty store, a second successful `set x,y v...` changes the file the first one wrote |
| Commands.GetCommaKey | src/main.rs:51-63 | `get` of a key that holds a comma prints `Key not found`, whatever the file holds |
| Commands.StepSkipsBlank | src/main.rs:22-26 | a line that is all whitespace is skipped; any other line has at least one word, all of them whitespace-free, and runs their command |
| Commands.RunLoopAppend | src/main.rs:12-105 | the loop is a left-to-right fold: running two blocks of input is running the first and, unless it stopped, the second from the file it left, with the output concatenated |
| Commands.OneWordLine | src/main.rs:22-25 | a line that is one word splits into that word |
| Commands.QuitStopsLoop | src/main.rs:96-99 | the line `quit` is a stopping line |
| Commands.StepStops | src/main.rs:96-99 | a line whose first word is `quit` or `exit` prints `Exiting.`, stops the loop and leaves the file alone |
| Commands.StoppedPrefix | src/main.rs:98 | once a prefix of the input has stopped the loop, the remaining input is never read |
| Commands.EndsWithStop | src/main.rs:96-99 | input ending with a stopping line does stop the loop |
| Commands.StopLineAlone | src/main.rs:96-99 | a stopping line on its own stops the loop |
| Commands.StopIgnoresRest | src/main.rs:96-99 | the outcome does not depend on anything after the first stopping line |

## Left out

- File system: `data.csv` is a value passed in and returned. Any failure of
  `File::open` counts as a missing file, as in the code. Permissions and paths
  are not modelled.
- Save failures: whether `save_csv` succeeds is an input. A failed save is
  modelled as leaving the file unchanged. In the program the file may already
  be truncated, or partly written, when the error happens.
- Buffered writes: `save_csv` returns `Ok(())` before the `BufWriter` is
  flushed. An error during the final flush on drop is ignored by the program,
  so `Set '<key>'` can be printed for an incomplete file. The model assumes a
  successful save means the whole text reached the file.
- Invalid UTF-8: lines of `data.csv` that are not UTF-8 are skipped by
  `if let Ok(l)`. This is not modelled, because the file is a string of
  characters.
- Prompt: the prompt `> ` and the `flush().unwrap()` before each read are not
  part of the modelled output. If that flush fails, `unwrap` panics and the
  program ends; this panic path is not modelled.
- End of input: the model's loop ends when the input sequence is used up. The
  program instead spins at end of input, reading empty lines forever.
- Concurrency: two processes writing the same file are not modelled, since the
  program is single-threaded.
- Store.LoadCsv: the body of the `for line in reader.lines()` loop is the
  function `ParseLine` (trim, blank check, first-comma split), called once per
  line. It is not written out statement by statement.
- Commands.Execute: `retain` and `find_map` are library calls, so the model
  uses the functions `WithoutKey` and `Lookup` that specify them. It does not
  spell out their internal loops.
