/**
 * The command layer of `main`: each input line is trimmed and split into
 * whitespace-separated words, the first word selects one of `set`, `get`,
 * `delete`, `list`, `quit`/`exit`, and every command that needs the store
 * loads it in full, changes the in-memory pairs and saves them in full.
 */
module Commands {
  import opened Seqs
  import opened Text
  import opened Store

  predicate HasKey(pairs: seq<Pair>, key: string) {
    exists i :: 0 <= i < |pairs| && pairs[i].key == key
  }

  /** `pairs.retain(|(k, _)| k != key)`: the pairs with another key, in their
      original order. */
  function WithoutKey(pairs: seq<Pair>, key: string): (r: seq<Pair>)
    ensures |r| <= |pairs|
    ensures forall p :: p in r <==> p in pairs && p.key != key
  {
    if pairs == [] then []
    else (if pairs[0].key == key then [] else [pairs[0]]) + WithoutKey(pairs[1..], key)
  }

  /** Retaining works pair by pair: it keeps the relative order of what it keeps. */
  lemma {:induction false} WithoutKeyAppend(a: seq<Pair>, b: seq<Pair>, key: string)
    ensures WithoutKey(a + b, key) == WithoutKey(a, key) + WithoutKey(b, key)
  {
    if a == [] {
      assert a + b == b;
    } else {
      assert (a + b)[0] == a[0];
      assert (a + b)[1..] == a[1..] + b;
      WithoutKeyAppend(a[1..], b, key);
    }
  }

  /** Retaining removes something exactly when some pair has the key, and
      otherwise leaves the pairs as they are. */
  lemma {:induction false} WithoutKeyUnchanged(pairs: seq<Pair>, key: string)
    ensures |WithoutKey(pairs, key)| == |pairs| <==> !HasKey(pairs, key)
    ensures !HasKey(pairs, key) ==> WithoutKey(pairs, key) == pairs
  {
    if pairs != [] {
      WithoutKeyUnchanged(pairs[1..], key);
      if pairs[0].key != key {
        assert HasKey(pairs, key) <==> HasKey(pairs[1..], key) by {
          if HasKey(pairs, key) {
            var i :| 0 <= i < |pairs| && pairs[i].key == key;
            assert pairs[1..][i - 1].key == key;
          }
          if HasKey(pairs[1..], key) {
            var i :| 0 <= i < |pairs[1..]| && pairs[1..][i].key == key;
            assert pairs[i + 1].key == key;
          }
        }
        ConsTail(pairs);
      } else {
        assert HasKey(pairs, key) by { assert pairs[0].key == key; }
      }
    }
  }

  /** No pair with the key is left. */
  lemma WithoutKeyRemovesAll(pairs: seq<Pair>, key: string)
    ensures !HasKey(WithoutKey(pairs, key), key)
  {
    var r := WithoutKey(pairs, key);
    forall i | 0 <= i < |r| ensures r[i].key != key {
      assert r[i] in r;
    }
  }

  /** The new pairs after `set key value`: every earlier pair with the key is
      removed, then the new pair is pushed at the end. */
  function SetPairs(pairs: seq<Pair>, key: string, value: string): (r: seq<Pair>)
    ensures |r| > 0 && r[|r| - 1] == Pair(key, value)
    ensures !HasKey(r[..|r| - 1], key)
    ensures forall p :: p in r <==> p == Pair(key, value) || (p in pairs && p.key != key)
  {
    var kept := WithoutKey(pairs, key);
    WithoutKeyRemovesAll(pairs, key);
    assert (kept + [Pair(key, value)])[..|kept|] == kept;
    kept + [Pair(key, value)]
  }

  /** `set` keeps keys unique, and leaves exactly one pair with its key:
      the new one, at the end. */
  lemma SetPairsUnique(pairs: seq<Pair>, key: string, value: string)
    requires UniqueKeys(pairs)
    ensures UniqueKeys(SetPairs(pairs, key, value))
  {
    var kept := WithoutKey(pairs, key);
    var r := SetPairs(pairs, key, value);
    WithoutKeyUnique(pairs, key);
    WithoutKeyRemovesAll(pairs, key);
    forall i, j | 0 <= i < j < |r| ensures r[i].key != r[j].key {
      assert r[i] == kept[i];
      if j < |kept| {
        assert r[j] == kept[j];
      }
    }
  }

  /** A later `set` of the same key replaces the earlier one entirely. */
  lemma SetOverwrites(pairs: seq<Pair>, key: string, v1: string, v2: string)
    ensures SetPairs(SetPairs(pairs, key, v1), key, v2) == SetPairs(pairs, key, v2)
  {
    var kept := WithoutKey(pairs, key);
    WithoutKeyAppend(kept, [Pair(key, v1)], key);
    WithoutKeyRemovesAll(pairs, key);
    WithoutKeyUnchanged(kept, key);
    assert WithoutKey([Pair(key, v1)], key) == [] by {
      assert [Pair(key, v1)][1..] == [];
    }
    assert kept + [] == kept;
  }

  /** Repeating the same `set` changes nothing. */
  lemma SetIdempotent(pairs: seq<Pair>, key: string, value: string)
    ensures SetPairs(SetPairs(pairs, key, value), key, value) == SetPairs(pairs, key, value)
  {
    SetOverwrites(pairs, key, value, value);
  }

  /** No two pairs share a key. */
  predicate UniqueKeys(pairs: seq<Pair>) {
    forall i, j :: 0 <= i < j < |pairs| ==> pairs[i].key != pairs[j].key
  }

  lemma UniqueCons(p: Pair, rest: seq<Pair>)
    requires UniqueKeys(rest) && !HasKey(rest, p.key)
    ensures UniqueKeys([p] + rest)
  {
    var r := [p] + rest;
    forall i, j | 0 <= i < j < |r| ensures r[i].key != r[j].key {
      assert r[j] == rest[j - 1];
      if i > 0 {
        assert r[i] == rest[i - 1];
      }
    }
  }

  /** Retaining keeps keys unique. */
  lemma {:induction false} WithoutKeyUnique(pairs: seq<Pair>, key: string)
    requires UniqueKeys(pairs)
    ensures UniqueKeys(WithoutKey(pairs, key))
  {
    if pairs != [] {
      var tail := pairs[1..];
      assert UniqueKeys(tail) by {
        forall i, j | 0 <= i < j < |tail| ensures tail[i].key != tail[j].key {
          assert tail[i] == pairs[i + 1] && tail[j] == pairs[j + 1];
        }
      }
      WithoutKeyUnique(tail, key);
      var r := WithoutKey(tail, key);
      if pairs[0].key == key {
        assert [] + r == r;
      } else {
        assert !HasKey(r, pairs[0].key) by {
          forall j | 0 <= j < |r| ensures r[j].key != pairs[0].key {
            assert r[j] in r;
            var m :| 0 <= m < |tail| && tail[m] == r[j];
            assert pairs[m + 1] == r[j];
          }
        }
        UniqueCons(pairs[0], r);
      }
    }
  }

  /** `find_map`: the value of the first pair with the key. */
  function Lookup(pairs: seq<Pair>, key: string): (r: Option<string>)
    ensures r.None? <==> !HasKey(pairs, key)
    ensures r.Some? ==> exists i :: 0 <= i < |pairs| && pairs[i] == Pair(key, r.value) && !HasKey(pairs[..i], key)
  {
    if pairs == [] then None
    else if pairs[0].key == key then
      assert pairs[0] == Pair(key, pairs[0].value) && pairs[..0] == [];
      Some(pairs[0].value)
    else
      var r := Lookup(pairs[1..], key);
      LookupTail(pairs, key, r);
      r
  }

  lemma LookupTail(pairs: seq<Pair>, key: string, r: Option<string>)
    requires pairs != [] && pairs[0].key != key
    requires r.None? <==> !HasKey(pairs[1..], key)
    requires r.Some? ==> exists i :: 0 <= i < |pairs[1..]| && pairs[1..][i] == Pair(key, r.value) && !HasKey(pairs[1..][..i], key)
    ensures r.None? <==> !HasKey(pairs, key)
    ensures r.Some? ==> exists i :: 0 <= i < |pairs| && pairs[i] == Pair(key, r.value) && !HasKey(pairs[..i], key)
  {
    if HasKey(pairs, key) {
      var i :| 0 <= i < |pairs| && pairs[i].key == key;
      assert pairs[1..][i - 1].key == key;
    }
    if HasKey(pairs[1..], key) {
      var i :| 0 <= i < |pairs[1..]| && pairs[1..][i].key == key;
      assert pairs[i + 1].key == key;
    }
    if r.Some? {
      var i :| 0 <= i < |pairs[1..]| && pairs[1..][i] == Pair(key, r.value) && !HasKey(pairs[1..][..i], key);
      assert pairs[i + 1] == Pair(key, r.value);
      var before := pairs[..i + 1];
      assert !HasKey(before, key) by {
        forall j | 0 < j < i + 1 ensures before[j].key != key {
          assert before[j] == pairs[1..][..i][j - 1];
        }
      }
    }
  }

  /** The first match in a concatenation is in the first part if it has the
      key, and in the second part otherwise. */
  lemma {:induction false} LookupAppend(a: seq<Pair>, b: seq<Pair>, key: string)
    ensures Lookup(a + b, key) == if HasKey(a, key) then Lookup(a, key) else Lookup(b, key)
  {
    if a == [] {
      assert a + b == b;
    } else {
      assert (a + b)[0] == a[0];
      assert (a + b)[1..] == a[1..] + b;
      LookupAppend(a[1..], b, key);
      if a[0].key != key {
        assert HasKey(a, key) <==> HasKey(a[1..], key) by {
          if HasKey(a, key) {
            var i :| 0 <= i < |a| && a[i].key == key;
            assert a[1..][i - 1].key == key;
          }
          if HasKey(a[1..], key) {
            var i :| 0 <= i < |a[1..]| && a[1..][i].key == key;
            assert a[i + 1].key == key;
          }
        }
      } else {
        assert HasKey(a, key) by { assert a[0].key == key; }
      }
    }
  }

  /** Removing one key does not change what another key finds. */
  lemma {:induction false} LookupWithoutOther(pairs: seq<Pair>, key: string, other: string)
    requires other != key
    ensures Lookup(WithoutKey(pairs, key), other) == Lookup(pairs, other)
  {
    if pairs != [] {
      var head := if pairs[0].key == key then [] else [pairs[0]];
      LookupWithoutOther(pairs[1..], key, other);
      LookupAppend(head, WithoutKey(pairs[1..], key), other);
      if pairs[0].key == key {
        assert !HasKey(head, other);
        assert [] + WithoutKey(pairs[1..], key) == WithoutKey(pairs[1..], key);
      } else {
        assert head[1..] == [];
        assert HasKey(head, other) <==> pairs[0].key == other by {
          if HasKey(head, other) {
            var i :| 0 <= i < |head| && head[i].key == other;
          }
          if pairs[0].key == other {
            assert head[0].key == other;
          }
        }
      }
    }
  }

  /** After `set key value`, `get key` finds `value`. */
  lemma LookupAfterSet(pairs: seq<Pair>, key: string, value: string)
    ensures Lookup(SetPairs(pairs, key, value), key) == Some(value)
  {
    var kept := WithoutKey(pairs, key);
    WithoutKeyRemovesAll(pairs, key);
    LookupAppend(kept, [Pair(key, value)], key);
    assert [Pair(key, value)][0].key == key;
  }

  /** `set` of one key does not change what `get` of another key finds. */
  lemma LookupAfterSetOther(pairs: seq<Pair>, key: string, value: string, other: string)
    requires other != key
    ensures Lookup(SetPairs(pairs, key, value), other) == Lookup(pairs, other)
  {
    var kept := WithoutKey(pairs, key);
    LookupAppend(kept, [Pair(key, value)], other);
    LookupWithoutOther(pairs, key, other);
    assert [Pair(key, value)][1..] == [];
    assert !HasKey([Pair(key, value)], other) by {
      assert [Pair(key, value)][0].key != other;
    }
  }

  /** After `delete key`, `get key` finds nothing; other keys are unaffected. */
  lemma LookupAfterDelete(pairs: seq<Pair>, key: string, other: string)
    ensures Lookup(WithoutKey(pairs, key), key) == None
    ensures other != key ==> Lookup(WithoutKey(pairs, key), other) == Lookup(pairs, other)
  {
    WithoutKeyRemovesAll(pairs, key);
    if other != key {
      LookupWithoutOther(pairs, key, other);
    }
  }

  /** One `k,v` line per pair, in order. */
  function FormatAll(pairs: seq<Pair>): (r: seq<string>)
    ensures |r| == |pairs|
  {
    seq(|pairs|, i requires 0 <= i < |pairs| => FormatPair(pairs[i]))
  }

  /** What `list` prints: `(empty)` for no pairs, otherwise one line per pair. */
  function ListOutput(pairs: seq<Pair>): (r: seq<string>)
    ensures r != [] && |r| >= |pairs|
  {
    if pairs == [] then ["(empty)"] else FormatAll(pairs)
  }

  /** `list` prints exactly `(empty)` when there are no pairs, and otherwise
      the `k,v` line of each pair in store order. */
  lemma ListOutputShape(pairs: seq<Pair>)
    ensures ListOutput(pairs) == ["(empty)"] <==> pairs == []
    ensures pairs != [] ==> |ListOutput(pairs)| == |pairs|
    ensures pairs != [] ==> forall i :: 0 <= i < |pairs| ==> ListOutput(pairs)[i] == pairs[i].key + "," + pairs[i].value
  {
    if pairs != [] {
      var l := FormatPair(pairs[0]);
      assert l[|pairs[0].key|] == ',';
      assert ',' !in "(empty)";
    }
  }

  /** `list`'s loop: one printed line per pair. */
  method ListLines(pairs: seq<Pair>) returns (out: seq<string>)
    ensures out == ListOutput(pairs)
  {
    if pairs == [] {
      out := ["(empty)"];
    } else {
      out := [];
      for i := 0 to |pairs|
        invariant |out| == i
        invariant forall j :: 0 <= j < i ==> out[j] == FormatPair(pairs[j])
      {
        out := out + [pairs[i].key + "," + pairs[i].value];
      }
    }
  }

  /** The file, the lines printed, and whether the loop stops. */
  datatype Outcome = Outcome(file: Option<string>, out: seq<string>, stop: bool)

  const SetUsage := "Usage: set <key> <value>"
  const GetUsage := "Usage: get <key>"
  const DeleteUsage := "Usage: delete <key>"
  const NotFound := "Key not found"
  const SaveFailed := "Could not update the file."
  const Available := "Available: set, get, delete, list, quit"

  /** `save_csv` followed by the caller's report: on success the file holds
      the new pairs and `done` is printed; on failure the file is untouched. */
  function Saved(file: Option<string>, pairs: seq<Pair>, saveOk: bool, done: string): (r: Outcome)
    ensures !r.stop && |r.out| == 1
    ensures !saveOk ==> r.file == file
    ensures saveOk && AllStorable(pairs) ==> Loaded(r.file) == pairs
  {
    if saveOk then
      assert AllStorable(pairs) ==> Loaded(Some(Serialize(pairs))) == pairs by {
        if AllStorable(pairs) {
          LoadSerialize(pairs);
        }
      }
      Outcome(Some(Serialize(pairs)), [done], false)
    else Outcome(file, [SaveFailed], false)
  }

  /** One command, given its words; `saveOk` is whether a save would succeed. */
  function Dispatch(file: Option<string>, words: seq<string>, saveOk: bool): (r: Outcome)
    requires words != []
    ensures |r.out| >= 1
    ensures r.stop ==> r == Outcome(file, ["Exiting."], true)
  {
    var cmd := words[0];
    if cmd == "set" then
      if |words| < 3 then Outcome(file, [SetUsage], false)
      else
        var key := words[1];
        Saved(file, SetPairs(Loaded(file), key, JoinSpace(words[2..])), saveOk, "Set '" + key + "'")
    else if cmd == "get" then
      if |words| < 2 then Outcome(file, [GetUsage], false)
      else
        match Lookup(Loaded(file), words[1])
        case Some(v) => Outcome(file, [v], false)
        case None => Outcome(file, [NotFound], false)
    else if cmd == "delete" then
      if |words| < 2 then Outcome(file, [DeleteUsage], false)
      else
        var key := words[1];
        var pairs := Loaded(file);
        var kept := WithoutKey(pairs, key);
        if |kept| == |pairs| then Outcome(file, [NotFound], false)
        else Saved(file, kept, saveOk, "Deleted '" + key + "'")
    else if cmd == "list" then
      Outcome(file, ListOutput(Loaded(file)), false)
    else if cmd == "quit" || cmd == "exit" then
      Outcome(file, ["Exiting."], true)
    else
      Outcome(file, ["Unknown command: " + cmd, Available], false)
  }

  /** One turn of the loop: `None` is a failed read, which is skipped, as is a
      blank line. */
  function Step(file: Option<string>, input: Option<string>, saveOk: bool): (r: Outcome)
    ensures r.out == [] <==> input == None || AllWhitespace(input.value)
    ensures r.stop ==> r == Outcome(file, ["Exiting."], true)
  {
    match input
    case None => Outcome(file, [], false)
    case Some(text) =>
      var line := Trim(text);
      if line == [] then Outcome(file, [], false)
      else
        var words := Tokenize(line);
        TokenizeEmpty(line);
        assert !IsWhitespace(line[0]);
        if words == [] then Outcome(file, [], false)
        else Dispatch(file, words, saveOk)
  }

  /** `prefix` printed before an outcome. */
  function After(prefix: seq<string>, o: Outcome): Outcome {
    Outcome(o.file, prefix + o.out, o.stop)
  }

  /** The loop over a sequence of input lines, up to the first that stops it. */
  function RunLoop(file: Option<string>, inputs: seq<Option<string>>, saveOk: seq<bool>): (r: Outcome)
    requires |saveOk| == |inputs|
    ensures r.stop ==> r.out != [] && r.out[|r.out| - 1] == "Exiting."
    decreases |inputs|
  {
    if inputs == [] then Outcome(file, [], false)
    else
      var o := Step(file, inputs[0], saveOk[0]);
      if o.stop then o
      else After(o.out, RunLoop(o.file, inputs[1..], saveOk[1..]))
  }

  /** One arm of `main`'s `match`, as the program runs it: load the pairs,
      change them in memory, save them all. */
  method Execute(file: Option<string>, words: seq<string>, saveOk: bool)
    returns (newFile: Option<string>, out: seq<string>, stop: bool)
    requires words != []
    ensures Outcome(newFile, out, stop) == Dispatch(file, words, saveOk)
  {
    newFile, out, stop := file, [], false;
    var cmd := words[0];
    if cmd == "set" {
      if |words| < 3 {
        out := [SetUsage];
        return;
      }
      var key := words[1];
      var value := JoinSpace(words[2..]);
      var pairs := LoadCsv(file);
      pairs := WithoutKey(pairs, key);
      pairs := pairs + [Pair(key, value)];
      var text := SaveCsv(pairs);
      if saveOk {
        newFile := Some(text);
        out := ["Set '" + key + "'"];
      } else {
        out := [SaveFailed];
      }
    } else if cmd == "get" {
      if |words| < 2 {
        out := [GetUsage];
        return;
      }
      var pairs := LoadCsv(file);
      var value := Lookup(pairs, words[1]);
      match value {
        case Some(v) => out := [v];
        case None => out := [NotFound];
      }
    } else if cmd == "delete" {
      if |words| < 2 {
        out := [DeleteUsage];
        return;
      }
      var key := words[1];
      var pairs := LoadCsv(file);
      var before := |pairs|;
      pairs := WithoutKey(pairs, key);
      if |pairs| == before {
        out := [NotFound];
      } else {
        var text := SaveCsv(pairs);
        if saveOk {
          newFile := Some(text);
          out := ["Deleted '" + key + "'"];
        } else {
          out := [SaveFailed];
        }
      }
    } else if cmd == "list" {
      var pairs := LoadCsv(file);
      out := ListLines(pairs);
    } else if cmd == "quit" || cmd == "exit" {
      out := ["Exiting."];
      stop := true;
    } else {
      out := ["Unknown command: " + cmd, Available];
    }
  }

  /** The two lines printed before the first prompt (the second `println!`
      ends with an extra line break). */
  const Banner: seq<string> := [
    "CSV Key-Value Store (Rust)",
    "Commands: set <key> <value> | get <key> | delete <key> | list | quit",
    ""
  ]

  /** One turn of the loop: a failed read, a blank line and a line without
      words are skipped (`continue`); any other line runs its command. */
  method Turn(file: Option<string>, input: Option<string>, saveOk: bool)
    returns (newFile: Option<string>, out: seq<string>, stop: bool)
    ensures Outcome(newFile, out, stop) == Step(file, input, saveOk)
  {
    newFile, out, stop := file, [], false;
    if input.None? {
      return;
    }
    var line := Trim(input.value);
    if line == [] {
      return;
    }
    var words := Tokenize(line);
    if words == [] {
      return;
    }
    newFile, out, stop := Execute(file, words, saveOk);
  }

  lemma RunLoopUnfold(file: Option<string>, inputs: seq<Option<string>>, saveOk: seq<bool>, i: nat, o: Outcome)
    requires |saveOk| == |inputs| && i < |inputs|
    requires o == Step(file, inputs[i], saveOk[i])
    ensures RunLoop(file, inputs[i..], saveOk[i..]) ==
      if o.stop then o else After(o.out, RunLoop(o.file, inputs[i + 1..], saveOk[i + 1..]))
  {
    assert inputs[i..][0] == inputs[i] && inputs[i..][1..] == inputs[i + 1..];
    assert saveOk[i..][0] == saveOk[i] && saveOk[i..][1..] == saveOk[i + 1..];
  }

  /** `main`: print the banner, then read, trim, split and run one line per
      turn until `quit` or `exit`, or until the input is used up.
      `inputs[i]` is `None` when the `i`-th read fails, and `saveOk[i]` is
      whether a save during the `i`-th turn succeeds. */
  method Run(file0: Option<string>, inputs: seq<Option<string>>, saveOk: seq<bool>)
    returns (file: Option<string>, out: seq<string>, stopped: bool)
    requires |saveOk| == |inputs|
    ensures Outcome(file, out, stopped) == After(Banner, RunLoop(file0, inputs, saveOk))
  {
    file, out, stopped := file0, Banner, false;
    var i := 0;
    while i < |inputs|
      invariant 0 <= i <= |inputs|
      invariant After(Banner, RunLoop(file0, inputs, saveOk)) == After(out, RunLoop(file, inputs[i..], saveOk[i..]))
    {
      var newFile, printed, stop := Turn(file, inputs[i], saveOk[i]);
      var o := Outcome(newFile, printed, stop);
      RunLoopUnfold(file, inputs, saveOk, i, o);
      AfterAfter(out, o, RunLoop(newFile, inputs[i + 1..], saveOk[i + 1..]));
      out, file := out + printed, newFile;
      i := i + 1;
      if stop {
        stopped := true;
        break;
      }
    }
  }

  /** A `set` whose key and value words could come from `split_whitespace`
      stores a pair that comes back from the file unchanged, provided the key
      has no comma. */
  lemma WordPairStorable(key: string, valueWords: seq<string>)
    requires IsWord(key) && ',' !in key
    requires valueWords != [] && AllWords(valueWords)
    ensures Storable(Pair(key, JoinSpace(valueWords)))
  {
    JoinSpaceShape(valueWords);
    forall k | 0 <= k < |key| ensures key[k] != '\n' {
      assert !IsWhitespace(key[k]);
    }
  }

  lemma SetPairsStorable(pairs: seq<Pair>, key: string, value: string)
    requires AllStorable(pairs) && Storable(Pair(key, value))
    ensures AllStorable(SetPairs(pairs, key, value))
  {
    var r := SetPairs(pairs, key, value);
    forall i | 0 <= i < |r| ensures Storable(r[i]) {
      assert r[i] in r;
    }
  }

  lemma WithoutKeyStorable(pairs: seq<Pair>, key: string)
    requires AllStorable(pairs)
    ensures AllStorable(WithoutKey(pairs, key))
  {
    var r := WithoutKey(pairs, key);
    forall i | 0 <= i < |r| ensures Storable(r[i]) {
      assert r[i] in r;
    }
  }

  /** What every command does to the loop and the file: only `quit` and
      `exit` stop the loop, and the file changes only after a successful save
      by a complete `set` or by a `delete` of a key that is present. */
  lemma DispatchEffects(file: Option<string>, words: seq<string>, saveOk: bool)
    requires words != []
    ensures var o := Dispatch(file, words, saveOk);
      && (o.stop <==> words[0] == "quit" || words[0] == "exit")
      && (o.file != file ==>
            saveOk &&
            ((words[0] == "set" && |words| >= 3) ||
             (words[0] == "delete" && |words| >= 2 && HasKey(Loaded(file), words[1]))))
  {
    var cmd := words[0];
    if cmd == "set" {
      assert cmd != "quit" && cmd != "exit";
    } else if cmd == "get" {
      assert cmd != "quit" && cmd != "exit";
    } else if cmd == "delete" {
      assert cmd != "quit" && cmd != "exit";
      if |words| >= 2 {
        WithoutKeyUnchanged(Loaded(file), words[1]);
      }
    } else if cmd == "list" {
      assert cmd != "quit" && cmd != "exit";
    }
  }

  /** `set key value...`: after a successful save the store holds the old
      pairs without `key`, then the new pair; after a failed save the file
      is as before. */
  lemma DispatchSet(file: Option<string>, words: seq<string>, saveOk: bool)
    requires |words| >= 3 && words[0] == "set"
    requires AllWords(words) && ',' !in words[1]
    ensures var o := Dispatch(file, words, saveOk);
      && o.out == [if saveOk then "Set '" + words[1] + "'" else SaveFailed]
      && Loaded(o.file) == if saveOk then SetPairs(Loaded(file), words[1], JoinSpace(words[2..])) else Loaded(file)
  {
    var value := JoinSpace(words[2..]);
    var pairs := SetPairs(Loaded(file), words[1], value);
    assert Dispatch(file, words, saveOk) == Saved(file, pairs, saveOk, "Set '" + words[1] + "'");
    if saveOk {
      assert AllWords(words[2..]) by {
        forall i | 0 <= i < |words[2..]| ensures IsWord(words[2..][i]) {
          assert words[2..][i] == words[i + 2];
        }
      }
      WordPairStorable(words[1], words[2..]);
      LoadedStorable(file);
      SetPairsStorable(Loaded(file), words[1], value);
    }
  }

  /** `delete key`: `Key not found` exactly when no pair has the key, and
      otherwise `Deleted 'key'` or the save failure message; after a successful save the store holds the other pairs in their order, and
      otherwise the file is as before. */
  lemma DispatchDelete(file: Option<string>, words: seq<string>, saveOk: bool)
    requires |words| >= 2 && words[0] == "delete"
    ensures var o := Dispatch(file, words, saveOk);
      && (o.out == [NotFound] <==> !HasKey(Loaded(file), words[1]))
      && (HasKey(Loaded(file), words[1]) ==>
            o.out == [if saveOk then "Deleted '" + words[1] + "'" else SaveFailed])
      && (o.file != file ==> HasKey(Loaded(file), words[1]))
      && Loaded(o.file) == if saveOk then WithoutKey(Loaded(file), words[1]) else Loaded(file)
  {
    var pairs := Loaded(file);
    var key := words[1];
    var o := Dispatch(file, words, saveOk);
    WithoutKeyUnchanged(pairs, key);
    if !HasKey(pairs, key) {
      assert o == Outcome(file, [NotFound], false);
    } else if saveOk {
      var kept := WithoutKey(pairs, key);
      assert o == Outcome(Some(Serialize(kept)), ["Deleted '" + key + "'"], false);
      assert Loaded(o.file) == kept by {
        LoadedStorable(file);
        WithoutKeyStorable(pairs, key);
        LoadSerialize(kept);
      }
      assert ("Deleted '" + key + "'")[0] != NotFound[0];
    } else {
      assert o == Outcome(file, [SaveFailed], false);
      assert SaveFailed[0] != NotFound[0];
    }
  }

  /** Every command keeps the keys in the file unique, provided a `set`
      key has no comma. */
  lemma DispatchKeepsKeysUnique(file: Option<string>, words: seq<string>, saveOk: bool)
    requires words != [] && AllWords(words)
    requires words[0] == "set" && |words| >= 3 ==> ',' !in words[1]
    requires UniqueKeys(Loaded(file))
    ensures UniqueKeys(Loaded(Dispatch(file, words, saveOk).file))
  {
    if words[0] == "set" && |words| >= 3 {
      DispatchSet(file, words, saveOk);
      SetPairsUnique(Loaded(file), words[1], JoinSpace(words[2..]));
    } else if words[0] == "delete" && |words| >= 2 {
      DispatchDelete(file, words, saveOk);
      WithoutKeyUnique(Loaded(file), words[1]);
    } else {
      DispatchEffects(file, words, saveOk);
    }
  }

  /** `get key` right after a successful `set key value...` prints the value
      as joined from its words. */
  lemma SetThenGet(file: Option<string>, key: string, valueWords: seq<string>, getOk: bool)
    requires IsWord(key) && ',' !in key
    requires valueWords != [] && AllWords(valueWords)
    ensures var s := Dispatch(file, ["set", key] + valueWords, true);
      Dispatch(s.file, ["get", key], getOk).out == [JoinSpace(valueWords)]
  {
    var words := ["set", key] + valueWords;
    SetWords(key, valueWords);
    DispatchSet(file, words, true);
    var s := Dispatch(file, words, true);
    LookupAfterSet(Loaded(file), key, JoinSpace(valueWords));
    GetFound(s.file, key, JoinSpace(valueWords), getOk);
  }

  /** The words of `set key value...`, when key and value words are words. */
  lemma SetWords(key: string, valueWords: seq<string>)
    requires IsWord(key) && valueWords != [] && AllWords(valueWords)
    ensures var words := ["set", key] + valueWords;
      && |words| >= 3 && words[0] == "set" && words[1] == key && words[2..] == valueWords
      && AllWords(words)
  {
    var words := ["set", key] + valueWords;
    assert words[2..] == valueWords;
    assert IsWord(words[0]);
    forall i | 2 <= i < |words| ensures IsWord(words[i]) {
      assert words[i] == valueWords[i - 2];
    }
  }

  /** `get key` prints the value a lookup finds. */
  lemma GetFound(file: Option<string>, key: string, v: string, getOk: bool)
    requires Lookup(Loaded(file), key) == Some(v)
    ensures Dispatch(file, ["get", key], getOk).out == [v]
  {
  }

  /** Repeating a successful `set` leaves the file as the first one did. */
  lemma SetTwiceSameFile(file: Option<string>, words: seq<string>)
    requires |words| >= 3 && words[0] == "set"
    requires AllWords(words) && ',' !in words[1]
    ensures var once := Dispatch(file, words, true);
      Dispatch(once.file, words, true).file == once.file
  {
    var value := JoinSpace(words[2..]);
    DispatchSet(file, words, true);
    SetIdempotent(Loaded(file), words[1], value);
  }

  /** `get key` right after a successful `delete key` prints `Key not found`. */
  lemma DeleteThenGet(file: Option<string>, key: string, getOk: bool)
    ensures var d := Dispatch(file, ["delete", key], true);
      Dispatch(d.file, ["get", key], getOk).out == [NotFound]
  {
    DispatchDelete(file, ["delete", key], true);
    LookupAfterDelete(Loaded(file), key, key);
  }

  /** A comma in a key is stored but not found again: on an empty store,
      `set x,y value...` reports success, the line `x,y,value` it writes is
      read back as key `x` with value `y,value`, and `get x,y` then prints
      `Key not found`. */
  lemma CommaKeyLost(x: string, y: string, valueWords: seq<string>)
    requires IsWord(x + "," + y) && ',' !in x
    requires valueWords != [] && AllWords(valueWords)
    ensures var key := x + "," + y;
      var s := Dispatch(None, ["set", key] + valueWords, true);
      && s.out == ["Set '" + key + "'"]
      && Loaded(s.file) == [Pair(x, y + "," + JoinSpace(valueWords))]
      && Dispatch(s.file, ["get", key], true).out == [NotFound]
  {
    var key := x + "," + y;
    var stored := Pair(x, y + "," + JoinSpace(valueWords));
    CommaKeySaved(x, y, valueWords);
    assert Loaded(Some(Serialize([stored]))) == [stored] by {
      CommaKeyStorable(x, y, valueWords);
      LoadSerialize([stored]);
    }
    assert ',' in key by {
      assert key[|x|] == ',';
    }
    GetCommaKey(Some(Serialize([stored])), key, true);
  }

  /** `get` never finds a key that holds a comma, whatever the file holds:
      every key `load_csv` returns ends before the first comma of its line. */
  lemma GetCommaKey(file: Option<string>, key: string, getOk: bool)
    requires ',' in key
    ensures Dispatch(file, ["get", key], getOk).out == [NotFound]
  {
    var pairs := Loaded(file);
    assert !HasKey(pairs, key) by {
      forall i | 0 <= i < |pairs| ensures pairs[i].key != key {
        assert ',' !in pairs[i].key;
      }
    }
  }

  /** The text `set x,y value...` saves is that of the pair `x`, `y,value`. */
  lemma CommaKeySaved(x: string, y: string, valueWords: seq<string>)
    requires valueWords != []
    ensures var key := x + "," + y;
      var v := JoinSpace(valueWords);
      Dispatch(None, ["set", key] + valueWords, true) ==
        Outcome(Some(Serialize([Pair(x, y + "," + v)])), ["Set '" + key + "'"], false)
  {
    var key := x + "," + y;
    var v := JoinSpace(valueWords);
    var words := ["set", key] + valueWords;
    var stored := Pair(x, y + "," + v);
    assert words[0] == "set" && words[1] == key && words[2..] == valueWords;
    DispatchSetSaves(None, words, true);
    assert SetPairs(Loaded(None), key, v) == [Pair(key, v)] by {
      assert [] + [Pair(key, v)] == [Pair(key, v)];
    }
    CommaLine(x, y, v);
    SerializeOne(Pair(key, v));
    SerializeOne(stored);
  }

  lemma DispatchSetSaves(file: Option<string>, words: seq<string>, saveOk: bool)
    requires |words| >= 3 && words[0] == "set"
    ensures Dispatch(file, words, saveOk) ==
      Saved(file, SetPairs(Loaded(file), words[1], JoinSpace(words[2..])), saveOk, "Set '" + words[1] + "'")
  {
  }

  /** The pair a comma key is read back as still survives a save and load. */
  lemma CommaKeyStorable(x: string, y: string, valueWords: seq<string>)
    requires IsWord(x + "," + y) && ',' !in x
    requires valueWords != [] && AllWords(valueWords)
    ensures Storable(Pair(x, y + "," + JoinSpace(valueWords)))
  {
    var key := x + "," + y;
    var v := JoinSpace(valueWords);
    JoinSpaceShape(valueWords);
    forall k | 0 <= k < |key| ensures key[k] != '\n' {
      assert !IsWhitespace(key[k]);
    }
    forall k | 0 <= k < |x| ensures x[k] != '\n' {
      assert x[k] == key[k];
    }
    var w := y + "," + v;
    forall k | 0 <= k < |w| ensures w[k] != '\n' {
      if k < |y| {
        assert w[k] == key[|x| + 1 + k];
      } else if k > |y| {
        assert w[k] == v[k - |y| - 1];
      }
    }
    assert w[|w| - 1] == v[|v| - 1];
    if x != [] {
      assert x[0] == key[0];
    }
  }

  /** A comma key whose part before the comma is already stored creates a
      duplicate: the record `set x,y value...` writes is read back under the
      key `x`, next to the `x` that was there. */
  lemma CommaKeyDuplicates(x: string, y: string, w: string, valueWords: seq<string>)
    requires IsWord(x + "," + y) && ',' !in x
    requires Storable(Pair(x, w))
    requires valueWords != [] && AllWords(valueWords)
    ensures var f := Some(Serialize([Pair(x, w)]));
      && UniqueKeys(Loaded(f))
      && !UniqueKeys(Loaded(Dispatch(f, ["set", x + "," + y] + valueWords, true).file))
  {
    var first := Pair(x, w);
    var stored := Pair(x, y + "," + JoinSpace(valueWords));
    LoadedSingle(first);
    CommaSetBeside(Some(Serialize([first])), first, x, y, valueWords);
    CommaKeyStorable(x, y, valueWords);
    LoadedPair(first, stored);
  }

  lemma LoadedSingle(p: Pair)
    requires Storable(p)
    ensures Loaded(Some(Serialize([p]))) == [p]
  {
    assert AllStorable([p]);
    LoadSerialize([p]);
  }

  lemma LoadedPair(p: Pair, q: Pair)
    requires Storable(p) && Storable(q) && p.key == q.key
    ensures Loaded(Some(Serialize([p, q]))) == [p, q]
    ensures !UniqueKeys([p, q])
  {
    assert AllStorable([p, q]);
    LoadSerialize([p, q]);
  }

  /** `set x,y value...` on a file holding one pair with key `x` writes that
      pair and then the line `x,y,value`. */
  lemma CommaSetBeside(f: Option<string>, first: Pair, x: string, y: string, valueWords: seq<string>)
    requires Loaded(f) == [first] && first.key == x
    requires valueWords != []
    ensures var stored := Pair(x, y + "," + JoinSpace(valueWords));
      Dispatch(f, ["set", x + "," + y] + valueWords, true).file == Some(Serialize([first, stored]))
  {
    var key := x + "," + y;
    var v := JoinSpace(valueWords);
    var words := ["set", key] + valueWords;
    assert words[0] == "set" && words[1] == key && words[2..] == valueWords;
    assert key != x by {
      assert |x| < |key|;
    }
    SetSavedFile(f, words);
    SetBesideOther(first, key, v);
    CommaLine(x, y, v);
    SerializeSameLine(first, Pair(key, v), Pair(x, y + "," + v));
  }

  /** A successful `set` saves `SetPairs` of what it loaded. */
  lemma SetSavedFile(f: Option<string>, words: seq<string>)
    requires |words| >= 3 && words[0] == "set"
    ensures Dispatch(f, words, true).file == Some(Serialize(SetPairs(Loaded(f), words[1], JoinSpace(words[2..]))))
  {
    DispatchSetSaves(f, words, true);
  }

  /** The line of key `x,y` with value `v` is that of key `x` with value `y,v`. */
  lemma CommaLine(x: string, y: string, v: string)
    ensures FormatPair(Pair(x + "," + y, v)) == FormatPair(Pair(x, y + "," + v))
  {
    assert x + "," + y + "," + v == x + "," + (y + "," + v);
  }

  lemma SetBesideOther(first: Pair, key: string, v: string)
    requires first.key != key
    ensures SetPairs([first], key, v) == [first, Pair(key, v)]
  {
    assert [first][1..] == [];
  }

  /** Two pairs written as the same line give the same saved text. */
  lemma SerializeSameLine(first: Pair, p: Pair, q: Pair)
    requires FormatPair(p) == FormatPair(q)
    ensures Serialize([first, p]) == Serialize([first, q])
  {
    var a := [first];
    assert a + [p] == [first, p] && a + [q] == [first, q];
    SerializeAppend(a, [p]);
    SerializeAppend(a, [q]);
    SerializeOne(p);
    SerializeOne(q);
  }

  /** Repeating a successful `set` of a comma key changes the file: the first
      `set` stores `x` with `y,value`, and the second adds `x` once more. */
  lemma CommaSetTwiceChanges(x: string, y: string, valueWords: seq<string>)
    requires IsWord(x + "," + y) && ',' !in x
    requires valueWords != [] && AllWords(valueWords)
    ensures var words := ["set", x + "," + y] + valueWords;
      var once := Dispatch(None, words, true);
      Dispatch(once.file, words, true).file != once.file
  {
    var w := y + "," + JoinSpace(valueWords);
    CommaKeySaved(x, y, valueWords);
    CommaKeyStorable(x, y, valueWords);
    CommaKeyDuplicates(x, y, w, valueWords);
  }

  /** An input line that is blank after trimming is skipped; any other line
      has at least one word, so the check for no words never fires. */
  lemma StepSkipsBlank(file: Option<string>, text: string, saveOk: bool)
    ensures AllWhitespace(text) ==> Step(file, Some(text), saveOk) == Outcome(file, [], false)
    ensures !AllWhitespace(text) ==>
      var words := Tokenize(Trim(text));
      && words != [] && AllWords(words)
      && Step(file, Some(text), saveOk) == Dispatch(file, words, saveOk)
  {
    var line := Trim(text);
    TokenizeEmpty(line);
    if line != [] {
      assert !IsWhitespace(line[0]);
    }
  }

  lemma AfterAfter(p: seq<string>, f: Outcome, rest: Outcome)
    ensures var g := After(p, f);
      After(p, if f.stop then f else After(f.out, rest)) == if g.stop then g else After(g.out, rest)
  {
    if !f.stop {
      assert p + (f.out + rest.out) == (p + f.out) + rest.out;
    }
  }

  /** The loop is a left-to-right fold: running two blocks of input is
      running the first and, unless it stopped, the second from where it left
      the file, its output after the first's. */
  lemma {:induction false} RunLoopAppend(file: Option<string>, a: seq<Option<string>>, b: seq<Option<string>>, sa: seq<bool>, sb: seq<bool>)
    requires |sa| == |a| && |sb| == |b|
    ensures var first := RunLoop(file, a, sa);
      RunLoop(file, a + b, sa + sb) ==
        if first.stop then first else After(first.out, RunLoop(first.file, b, sb))
    decreases |a|
  {
    if a == [] {
      assert a + b == b && sa + sb == sb;
      assert [] + RunLoop(file, b, sb).out == RunLoop(file, b, sb).out;
    } else {
      AppendHeadTail(a, b);
      AppendHeadTail(sa, sb);
      var o := Step(file, a[0], sa[0]);
      if !o.stop {
        var tail := RunLoop(o.file, a[1..], sa[1..]);
        RunLoopAppend(o.file, a[1..], b, sa[1..], sb);
        assert RunLoop(file, a + b, sa + sb) == After(o.out, RunLoop(o.file, a[1..] + b, sa[1..] + sb));
        assert RunLoop(file, a, sa) == After(o.out, tail);
        AfterAfter(o.out, tail, RunLoop(tail.file, b, sb));
      }
    }
  }

  /** A line whose trimmed text splits into `words` runs the command they form. */
  lemma StepWords(file: Option<string>, text: string, saveOk: bool, words: seq<string>)
    requires Tokenize(Trim(text)) == words && words != []
    ensures Step(file, Some(text), saveOk) == Dispatch(file, words, saveOk)
  {
  }

  /** The words of an input line that stops the loop. */
  predicate StopsLoop(text: string) {
    var words := Tokenize(Trim(text));
    words != [] && (words[0] == "quit" || words[0] == "exit")
  }

  /** A line that is a single word splits into that word. */
  lemma OneWordLine(w: string)
    requires IsWord(w)
    ensures Tokenize(Trim(w)) == [w]
  {
    TrimWord(w);
    TokenizeWord(w);
  }

  /** The line `quit` is one. */
  lemma QuitStopsLoop()
    ensures StopsLoop("quit")
  {
    assert IsWord("quit");
    OneWordLine("quit");
  }

  /** A line whose first word is `quit` or `exit` prints `Exiting.` and
      stops the loop, leaving the file alone. */
  lemma StepStops(file: Option<string>, text: string, saveOk: bool)
    requires StopsLoop(text)
    ensures Step(file, Some(text), saveOk) == Outcome(file, ["Exiting."], true)
  {
    var words := Tokenize(Trim(text));
    StepWords(file, text, saveOk, words);
    DispatchEffects(file, words, saveOk);
  }

  /** Once a prefix of the input has stopped the loop, the rest is not read. */
  lemma StoppedPrefix(file: Option<string>, a: seq<Option<string>>, b: seq<Option<string>>, sa: seq<bool>, sb: seq<bool>)
    requires |sa| == |a| && |sb| == |b|
    requires RunLoop(file, a, sa).stop
    ensures RunLoop(file, a + b, sa + sb) == RunLoop(file, a, sa)
  {
    RunLoopAppend(file, a, b, sa, sb);
  }

  /** Input that ends with a line that stops the loop does stop it. */
  lemma EndsWithStop(file: Option<string>, a: seq<Option<string>>, text: string, sa: seq<bool>, x: bool)
    requires |sa| == |a|
    requires StopsLoop(text)
    ensures RunLoop(file, a + [Some(text)], sa + [x]).stop
  {
    RunLoopAppend(file, a, [Some(text)], sa, [x]);
    var first := RunLoop(file, a, sa);
    StopLineAlone(first.file, text, x);
  }

  lemma StopLineAlone(file: Option<string>, text: string, x: bool)
    requires StopsLoop(text)
    ensures RunLoop(file, [Some(text)], [x]).stop
  {
    StepStops(file, text, x);
    RunLoopHeadStops(file, [Some(text)], [x]);
  }

  lemma RunLoopHeadStops(file: Option<string>, inputs: seq<Option<string>>, saveOk: seq<bool>)
    requires |saveOk| == |inputs| && inputs != []
    requires Step(file, inputs[0], saveOk[0]).stop
    ensures RunLoop(file, inputs, saveOk) == Step(file, inputs[0], saveOk[0])
  {
  }

  /** Nothing after a line that stops the loop is read: the outcome does not
      depend on the inputs that follow it. */
  lemma StopIgnoresRest(file: Option<string>, a: seq<Option<string>>, text: string, b: seq<Option<string>>,
                        sa: seq<bool>, x: bool, sb: seq<bool>)
    requires |sa| == |a| && |sb| == |b|
    requires StopsLoop(text)
    ensures RunLoop(file, a + [Some(text)] + b, sa + [x] + sb) == RunLoop(file, a + [Some(text)], sa + [x])
  {
    EndsWithStop(file, a, text, sa, x);
    StoppedPrefix(file, a + [Some(text)], b, sa + [x], sb);
  }
}
