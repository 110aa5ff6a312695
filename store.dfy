/**
 * The backing file `data.csv`: `load_csv` reads it into an ordered sequence
 * of (key, value) pairs and `save_csv` rewrites it from one.
 *
 * The file is a value: `None` when it cannot be opened, `Some(text)` otherwise.
 */
module Store {
  import opened Text
  import opened Seqs

  datatype Option<T> = None | Some(value: T)

  /** One record; keys and values are arbitrary strings. */
  datatype Pair = Pair(key: string, value: string)

  /** The text of one record's line, `key,value`, without the line break; its
      first comma ends the key when the key has none. */
  function FormatPair(p: Pair): (r: string)
    ensures ',' in r
    ensures ',' !in p.key ==> IndexOf(r, ',') == |p.key|
  {
    var r := p.key + "," + p.value;
    assert r[|p.key|] == ',';
    assert ',' !in p.key ==> IndexOf(r, ',') == |p.key| by {
      if ',' !in p.key {
        IndexOfAfterPrefix(p.key, ',', p.value);
      }
    }
    r
  }

  /** `splitn(2, ',')`, keeping the result only when it has two parts: the
      text before the first comma and everything after it. */
  function SplitFirstComma(l: string): (r: Option<Pair>)
    ensures r.None? <==> ',' !in l
    ensures r.Some? ==> ',' !in r.value.key && FormatPair(r.value) == l
  {
    if ',' in l then
      var i := IndexOf(l, ',');
      assert l == l[..i] + "," + l[i + 1..];
      Some(Pair(l[..i], l[i + 1..]))
    else None
  }

  /** What `load_csv` makes of one line: nothing for a blank line or a line
      without a comma, otherwise the trimmed line split at its first comma. */
  function ParseLine(line: string): (r: Option<Pair>)
    ensures r.None? <==> ',' !in Trim(line)
    ensures r.Some? ==> ',' !in r.value.key && FormatPair(r.value) == Trim(line)
  {
    var l := Trim(line);
    if l == [] then None else SplitFirstComma(l)
  }

  /** No key holds a comma: `load_csv` cuts every key at the first comma. */
  predicate CommaFreeKeys(pairs: seq<Pair>) {
    forall i :: 0 <= i < |pairs| ==> ',' !in pairs[i].key
  }

  /** The pairs `load_csv` collects from a sequence of lines, in line order. */
  function ParseLines(lines: seq<string>): (r: seq<Pair>)
    ensures |r| <= |lines|
    ensures CommaFreeKeys(r)
  {
    if lines == [] then []
    else
      var rest := ParseLines(lines[1..]);
      match ParseLine(lines[0])
      case Some(p) => KeysCons(p, rest); [p] + rest
      case None => rest
  }

  lemma KeysCons(p: Pair, rest: seq<Pair>)
    requires ',' !in p.key && CommaFreeKeys(rest)
    ensures CommaFreeKeys([p] + rest)
  {
  }

  /** Loading is line by line: the pairs of two blocks of lines are those of
      the first block followed by those of the second. */
  lemma {:induction false} ParseLinesAppend(a: seq<string>, b: seq<string>)
    ensures ParseLines(a + b) == ParseLines(a) + ParseLines(b)
  {
    if a == [] {
      assert a + b == b;
    } else {
      assert (a + b)[0] == a[0];
      assert (a + b)[1..] == a[1..] + b;
      ParseLinesAppend(a[1..], b);
    }
  }

  /** The pairs one line contributes: none or one. */
  function LinePairs(line: string): seq<Pair> {
    match ParseLine(line)
    case Some(p) => [p]
    case None => []
  }

  lemma ParseLinesOne(line: string)
    ensures ParseLines([line]) == LinePairs(line)
  {
    assert [line][1..] == [];
  }

  lemma ParseLinesSnoc(lines: seq<string>, i: nat)
    requires i < |lines|
    ensures ParseLines(lines[..i + 1]) == ParseLines(lines[..i]) + LinePairs(lines[i])
  {
    TakeSnoc(lines, i);
    ParseLinesAppend(lines[..i], [lines[i]]);
    ParseLinesOne(lines[i]);
  }

  /** A line that is blank or has no comma contributes nothing; any other line
      contributes exactly its own pair, in its place. */
  lemma ParseLinesAround(a: seq<string>, line: string, b: seq<string>)
    ensures ',' !in Trim(line) ==> ParseLines(a + [line] + b) == ParseLines(a) + ParseLines(b)
    ensures ',' in Trim(line) ==>
      ParseLines(a + [line] + b) == ParseLines(a) + [ParseLine(line).value] + ParseLines(b)
  {
    ParseLinesAppend(a + [line], b);
    ParseLinesAppend(a, [line]);
    ParseLinesOne(line);
    AppendEmpty(ParseLines(a), []);
  }

  /** The pairs `load_csv` returns for the file. */
  function Loaded(file: Option<string>): (r: seq<Pair>)
    ensures file == None ==> r == []
    ensures file != None ==> |r| <= |Lines(file.value)|
    ensures CommaFreeKeys(r)
  {
    match file
    case None => []
    case Some(text) => ParseLines(Lines(text))
  }

  /** `load_csv`: a file that cannot be opened is an empty store; otherwise
      the loop over its lines pushes the pair of every line that has one
      (see `ParseLine`), in line order. */
  method LoadCsv(file: Option<string>) returns (pairs: seq<Pair>)
    ensures pairs == Loaded(file)
  {
    pairs := [];
    if file.Some? {
      var lines := Lines(file.value);
      for i := 0 to |lines|
        invariant pairs == ParseLines(lines[..i])
      {
        ParseLinesSnoc(lines, i);
        var parsed := ParseLine(lines[i]);
        if parsed.Some? {
          pairs := pairs + [parsed.value];
        }
      }
      TakeAll(lines);
    }
  }

  /** The text `save_csv` writes: one `key,value` line per pair, in order,
      each ended by a line feed. */
  function Serialize(pairs: seq<Pair>): (r: string)
    ensures r == [] <==> pairs == []
    ensures r != [] ==> r[|r| - 1] == '\n'
  {
    if pairs == [] then ""
    else FormatPair(pairs[0]) + "\n" + Serialize(pairs[1..])
  }

  lemma SerializeOne(p: Pair)
    ensures Serialize([p]) == FormatPair(p) + "\n"
  {
    assert [p][1..] == [];
  }

  /** Saving is record by record: the text of two blocks of pairs is the text
      of the first followed by the text of the second. */
  lemma {:induction false} SerializeAppend(a: seq<Pair>, b: seq<Pair>)
    ensures Serialize(a + b) == Serialize(a) + Serialize(b)
  {
    if a == [] {
      AppendEmpty(a, b);
    } else {
      AppendHeadTail(a, b);
      SerializeAppend(a[1..], b);
    }
  }

  lemma SerializeSnoc(pairs: seq<Pair>, i: nat)
    requires i < |pairs|
    ensures Serialize(pairs[..i + 1]) == Serialize(pairs[..i]) + FormatPair(pairs[i]) + "\n"
  {
    TakeSnoc(pairs, i);
    SerializeAppend(pairs[..i], [pairs[i]]);
    SerializeOne(pairs[i]);
  }

  /** `save_csv`'s loop: the text it hands to the file, one `writeln!` per pair.
      Whether the file takes it is decided by the caller. */
  method SaveCsv(pairs: seq<Pair>) returns (text: string)
    ensures text == Serialize(pairs)
  {
    text := "";
    for i := 0 to |pairs|
      invariant text == Serialize(pairs[..i])
    {
      SerializeSnoc(pairs, i);
      text := text + FormatPair(pairs[i]) + "\n";
    }
    TakeAll(pairs);
  }

  /** A pair survives a save followed by a load: the key has no comma and no
      line feed and does not start with whitespace, the value has no line feed
      and does not end with whitespace. */
  predicate Storable(p: Pair) {
    && ',' !in p.key
    && '\n' !in p.key
    && '\n' !in p.value
    && (p.key == [] || !IsWhitespace(p.key[0]))
    && (p.value == [] || !IsWhitespace(p.value[|p.value| - 1]))
  }

  predicate AllStorable(pairs: seq<Pair>) {
    forall i :: 0 <= i < |pairs| ==> Storable(pairs[i])
  }

  /** The line of a storable pair is read back as that pair. */
  lemma ParseFormattedLine(p: Pair)
    requires Storable(p)
    ensures '\n' !in FormatPair(p)
    ensures StripCR(FormatPair(p)) == FormatPair(p)
    ensures ParseLine(FormatPair(p)) == Some(p)
  {
    FormattedLineTrimmed(p);
    SplitFormatted(p);
    FormatPairNoLineFeed(p);
  }

  lemma FormatPairNoLineFeed(p: Pair)
    requires '\n' !in p.key && '\n' !in p.value
    ensures '\n' !in FormatPair(p)
  {
    var l := FormatPair(p);
    forall k | 0 <= k < |l| ensures l[k] != '\n' {
      if k < |p.key| {
        assert l[k] == p.key[k];
      } else if k > |p.key| {
        assert l[k] == p.value[k - |p.key| - 1];
      }
    }
  }

  lemma FormattedLineTrimmed(p: Pair)
    requires Storable(p)
    ensures StripCR(FormatPair(p)) == FormatPair(p)
    ensures Trim(FormatPair(p)) == FormatPair(p)
  {
    var l := FormatPair(p);
    assert l[|l| - 1] == if p.value == [] then ',' else p.value[|p.value| - 1];
    assert l[0] == if p.key == [] then ',' else p.key[0];
    TrimNoop(l);
  }

  /** The first comma of a line whose key has none is the one after the key. */
  lemma SplitFormatted(p: Pair)
    requires ',' !in p.key
    ensures SplitFirstComma(FormatPair(p)) == Some(p)
  {
    var l := FormatPair(p);
    IndexOfAfterPrefix(p.key, ',', p.value);
    assert l[..|p.key|] == p.key;
    assert l[|p.key| + 1..] == p.value;
  }

  lemma ParseLinesCons(line: string, rest: seq<string>)
    ensures ParseLines([line] + rest) == LinePairs(line) + ParseLines(rest)
  {
    ParseLinesAppend([line], rest);
    ParseLinesOne(line);
  }

  /** Round trip: loading what was saved gives back the same pairs, in the
      same order, when every pair is storable. */
  lemma {:induction false} LoadSerialize(pairs: seq<Pair>)
    requires AllStorable(pairs)
    ensures ParseLines(Lines(Serialize(pairs))) == pairs
  {
    if pairs != [] {
      LoadSerialize(pairs[1..]);
      ConsTail(pairs);
      LoadSerializeCons(pairs[0], pairs[1..]);
    }
  }

  lemma LoadSerializeCons(p: Pair, more: seq<Pair>)
    requires Storable(p)
    requires ParseLines(Lines(Serialize(more))) == more
    ensures ParseLines(Lines(Serialize([p] + more))) == [p] + more
  {
    var l := FormatPair(p);
    var rest := Serialize(more);
    assert Serialize([p] + more) == l + "\n" + rest by {
      AppendHeadTail([p], more);
    }
    ParseFormattedLine(p);
    LinesCons(l, rest);
    ParseLinesCons(l, Lines(rest));
  }

  /** Every pair read from a line without a line feed is storable. */
  lemma ParsedLineStorable(line: string)
    requires '\n' !in line
    requires ParseLine(line).Some?
    ensures Storable(ParseLine(line).value)
  {
    var p := ParseLine(line).value;
    var t := Trim(line);
    TrimKeepsOut(line, '\n');
    assert t == p.key + "," + p.value;
    if p.key != [] {
      assert t[0] == p.key[0];
    }
    if p.value != [] {
      assert t[|t| - 1] == p.value[|p.value| - 1];
    }
  }

  lemma AllStorableAppend(a: seq<Pair>, b: seq<Pair>)
    requires AllStorable(a) && AllStorable(b)
    ensures AllStorable(a + b)
  {
  }

  lemma {:induction false} ParsedLinesStorable(lines: seq<string>)
    requires NoLineFeeds(lines)
    ensures AllStorable(ParseLines(lines))
  {
    if lines != [] {
      assert ParseLines(lines) == LinePairs(lines[0]) + ParseLines(lines[1..]) by {
        ConsTail(lines);
        ParseLinesCons(lines[0], lines[1..]);
      }
      assert AllStorable(LinePairs(lines[0])) by {
        if ParseLine(lines[0]).Some? {
          ParsedLineStorable(lines[0]);
        }
      }
      ParsedLinesStorable(lines[1..]);
      AllStorableAppend(LinePairs(lines[0]), ParseLines(lines[1..]));
    }
  }

  /** Whatever the file holds, the pairs loaded from it are storable. */
  lemma LoadedStorable(file: Option<string>)
    ensures AllStorable(Loaded(file))
  {
    if file.Some? {
      LinesShape(file.value);
      ParsedLinesStorable(Lines(file.value));
    }
  }

  /** Saving what was loaded and loading again gives the same pairs: a save
      only normalises the file (blank, comma-less and padded lines go). */
  lemma SaveLoadedIsStable(file: Option<string>)
    ensures Loaded(Some(Serialize(Loaded(file)))) == Loaded(file)
  {
    LoadedStorable(file);
    LoadSerialize(Loaded(file));
  }

  /** Saving and loading again reproduces the pairs exactly when every pair
      is storable. */
  lemma RoundTripIff(pairs: seq<Pair>)
    ensures Loaded(Some(Serialize(pairs))) == pairs <==> AllStorable(pairs)
  {
    if AllStorable(pairs) {
      LoadSerialize(pairs);
    } else {
      LoadedStorable(Some(Serialize(pairs)));
    }
  }
}
