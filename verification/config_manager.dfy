/** `ConfigManager`: a string-to-string store kept in a `std::map`, saved as
    `key=value` lines and read back by a small line parser.

    The file itself is not modelled.  Opening it is an input (a `None`
    file could not be opened), and its contents are a sequence of lines,
    or, where the round trip needs it, the text those lines make when each
    one is ended by a newline. */
module ConfigManager {
  import opened Wrappers
  import opened Strings
  import opened OrderedMap

  /** The path the default constructor argument names. */
  const DefaultPath: String := "config.ini"

  /** The store: the file path and the `std::map` of settings. */
  datatype Config = Config(path: String, values: Entries<String>)

  /** A key the store can hold: `setValue` and the parser both trim keys
      and drop empty ones. */
  predicate ValidKey(k: String) {
    |k| > 0 && Trimmed(k)
  }

  /** Representation invariant: keys strictly ascending, each one valid. */
  predicate Valid(c: Config) {
    && Ordered(c.values)
    && forall k :: k in KeySet(c.values) ==> ValidKey(k)
  }

  /** A store with no settings; the empty store is valid. */
  function Empty(path: String): (r: Config)
    ensures Valid(r) && ToMap(r.values) == map[] && r.path == path
  {
    Config(path, [])
  }

  // ---------------------------------------------------------------------
  // Map operations
  // ---------------------------------------------------------------------

  /** `setValue`: trims the key, ignores the call when nothing is left, and
      otherwise stores the value as given under the trimmed key. */
  function SetValue(c: Config, key: String, value: String): (r: Config)
    ensures r.path == c.path
    ensures Trim(key) == [] ==> r == c
    ensures Trim(key) != [] ==> ToMap(r.values) == ToMap(c.values)[Trim(key) := value]
    ensures Valid(c) ==> Valid(r)
  {
    var k := Trim(key);
    if k == [] then c
    else if Ordered(c.values) then
      InsertOrdered(c.values, k, value);
      Config(c.path, Insert(c.values, k, value))
    else Config(c.path, Insert(c.values, k, value))
  }

  /** `getValue`: the stored value for exactly this key, or the default. */
  function GetValue(c: Config, key: String, default: String): (r: String)
    ensures key in ToMap(c.values) ==> r == ToMap(c.values)[key]
    ensures key !in ToMap(c.values) ==> r == default
  {
    Lookup(c.values, key).GetOr(default)
  }

  /** `hasKey`: the key is present, compared verbatim. */
  function HasKey(c: Config, key: String): (r: bool)
    ensures r <==> key in ToMap(c.values)
  {
    Lookup(c.values, key).Some?
  }

  /** `removeKey`: erases exactly this key. */
  function RemoveKey(c: Config, key: String): (r: Config)
    ensures r.path == c.path
    ensures ToMap(r.values) == ToMap(c.values) - {key}
    ensures Valid(c) ==> Valid(r)
  {
    if Ordered(c.values) then
      RemoveOrdered(c.values, key);
      Config(c.path, Remove(c.values, key))
    else Config(c.path, Remove(c.values, key))
  }

  /** `getKeys`: every key once, in ascending order. */
  function GetKeys(c: Config): (r: seq<String>)
    ensures forall k :: k in ToMap(c.values) <==> k in r
    ensures Valid(c) ==> |r| == |ToMap(c.values)|
    ensures Valid(c) ==> forall i, j :: 0 <= i < j < |r| ==> Less(r[i], r[j])
  {
    var r := Keys(c.values);
    assert forall k :: k in r <==> k in KeySet(c.values);
    assert Valid(c) ==> |r| == |ToMap(c.values)| by {
      if Valid(c) {
        OrderedDistinct(c.values);
        DistinctKeysCount(c.values);
      }
    }
    r
  }

  /** `setConfigFilePath`: replaces the path, keeps the settings. */
  function SetConfigFilePath(c: Config, path: String): (r: Config)
    ensures r.path == path && r.values == c.values
  {
    c.(path := path)
  }

  /** A list with distinct keys has as many map entries as list entries. */
  lemma {:induction false} DistinctKeysCount<V>(es: Entries<V>)
    requires forall i, j :: 0 <= i < j < |es| ==> es[i].0 != es[j].0
    ensures |ToMap(es)| == |es|
  {
    if |es| > 0 {
      DistinctKeysCount(es[1..]);
      assert es[0].0 !in KeySet(es[1..]);
    }
  }

  // ---------------------------------------------------------------------
  // Store-level properties
  // ---------------------------------------------------------------------

  /** After `setValue(k, v)` with a non-empty trimmed key, that key is
      present with value `v`, and every other key reads as before. */
  lemma SetThenGet(c: Config, key: String, value: String, other: String, default: String)
    requires Trim(key) != []
    ensures HasKey(SetValue(c, key, value), Trim(key))
    ensures GetValue(SetValue(c, key, value), Trim(key), default) == value
    ensures other != Trim(key) ==>
      GetValue(SetValue(c, key, value), other, default) == GetValue(c, other, default)
  {
  }

  /** The read side does not trim: a key with surrounding whitespace is
      never found verbatim in a valid store, not even right after
      `setValue` was called with that very key. */
  lemma PaddedKeyNotFound(c: Config, key: String, value: String)
    requires Valid(c) && !Trimmed(key)
    ensures !HasKey(c, key)
    ensures !HasKey(SetValue(c, key, value), key)
  {
  }

  /** After `removeKey(k)` the key is gone and every other key reads as before;
      removing an absent key leaves the store unchanged. */
  lemma RemoveThenGet(c: Config, key: String, other: String, default: String)
    ensures !HasKey(RemoveKey(c, key), key)
    ensures GetValue(RemoveKey(c, key), key, default) == default
    ensures other != key ==> GetValue(RemoveKey(c, key), other, default) == GetValue(c, other, default)
    ensures !HasKey(c, key) ==> RemoveKey(c, key) == c
  {
    if !HasKey(c, key) {
      RemoveAbsent(c.values, key);
    }
  }

  // ---------------------------------------------------------------------
  // The line parser of loadFromFile
  // ---------------------------------------------------------------------

  /** Lines the parser skips before looking for '=': empty lines and comments. */
  predicate IsCommentOrBlank(line: String) {
    |line| == 0 || line[0] == '#' || line[0] == ';'
  }

  /** One line of the file: comments, blank lines and lines without '='
      yield nothing; otherwise the line splits at its FIRST '=', both halves
      are trimmed, and an empty key yields nothing. */
  function ParseLine(line: String): (r: Option<(String, String)>)
    ensures IsCommentOrBlank(line) || !Contains(line, "=") ==> r.None?
    ensures r.Some? ==> ValidKey(r.value.0) && Trimmed(r.value.1) && Free(r.value.0, '=')
  {
    if IsCommentOrBlank(line) then None
    else
      match Find(line, "=")
      case None => None
      case Some(e) =>
        FirstSeparator(line, '=');
        var key := Trim(line[..e]);
        TrimKeepsFree(line[..e], '=');
        if key == [] then None else Some((key, Trim(line[e + 1..])))
  }

  /** How a line with a '=' is split, stated without the search: at the
      first '=', with both halves trimmed and an empty key rejected. */
  lemma ParseLineAtFirstEquals(line: String, e: nat)
    requires !IsCommentOrBlank(line)
    requires e < |line| && line[e] == '=' && Free(line[..e], '=')
    ensures Trim(line[..e]) == [] ==> ParseLine(line).None?
    ensures Trim(line[..e]) != [] ==> ParseLine(line) == Some((Trim(line[..e]), Trim(line[e + 1..])))
  {
    assert line == line[..e] + ['='] + line[e + 1..];
    FindAfterFree(line[..e], '=', line[e + 1..]);
  }

  /** What `Find` promises about a one-character needle, stated per character. */
  lemma FirstSeparator(line: String, c: char)
    requires Find(line, [c]).Some?
    ensures var e := Find(line, [c]).value;
      e < |line| && line[e] == c && Free(line[..e], c)
  {
    var e := Find(line, [c]).value;
    assert line[e..e + 1] == [c];
    forall j | 0 <= j < e ensures line[j] != c {
      assert !OccursAt(line, [c], j);
      assert line[j..j + 1] == [line[j]];
    }
  }

  /** Trimming never introduces a character. */
  lemma TrimKeepsFree(s: String, c: char)
    requires Free(s, c)
    ensures Free(Trim(s), c)
  {
    var a := TrimStart(s);
    assert Free(a, c) by {
      assert forall i :: 0 <= i < |a| ==> a[i] == s[|s| - |a| + i];
    }
    var r := TrimEnd(a);
    assert forall i :: 0 <= i < |r| ==> r[i] == a[i];
  }

  /** The effect of one line on the map being built. */
  function ApplyLine(es: Entries<String>, line: String): (r: Entries<String>)
    ensures ParseLine(line).None? ==> r == es
    ensures ParseLine(line).Some? ==>
      ToMap(r) == ToMap(es)[ParseLine(line).value.0 := ParseLine(line).value.1]
  {
    match ParseLine(line)
    case None => es
    case Some((k, v)) => Insert(es, k, v)
  }

  /** The parse loop: each line in turn, later lines overriding earlier ones. */
  function LoadLines(es: Entries<String>, lines: seq<String>): (r: Entries<String>)
    decreases |lines|
  {
    if |lines| == 0 then es else LoadLines(ApplyLine(es, lines[0]), lines[1..])
  }

  /** The parse loop keeps the store's invariant. */
  lemma {:induction false} LoadLinesValid(path: String, es: Entries<String>, lines: seq<String>)
    requires Valid(Config(path, es))
    ensures Valid(Config(path, LoadLines(es, lines)))
    decreases |lines|
  {
    if |lines| > 0 {
      var next := ApplyLine(es, lines[0]);
      if ParseLine(lines[0]).Some? {
        InsertOrdered(es, ParseLine(lines[0]).value.0, ParseLine(lines[0]).value.1);
      }
      assert Valid(Config(path, next));
      LoadLinesValid(path, next, lines[1..]);
    }
  }

  /** Reading a file in two parts is reading the first part and then the second. */
  lemma {:induction false} LoadLinesAppend(es: Entries<String>, a: seq<String>, b: seq<String>)
    ensures LoadLines(es, a + b) == LoadLines(LoadLines(es, a), b)
    decreases |a|
  {
    if |a| > 0 {
      assert (a + b)[0] == a[0];
      assert (a + b)[1..] == a[1..] + b;
      LoadLinesAppend(ApplyLine(es, a[0]), a[1..], b);
      assert LoadLines(es, a) == LoadLines(ApplyLine(es, a[0]), a[1..]);
    } else {
      assert a + b == b;
    }
  }

  /** A line the parser rejects changes nothing, wherever it appears. */
  lemma SkippedLineIgnored(es: Entries<String>, a: seq<String>, line: String, b: seq<String>)
    requires ParseLine(line).None?
    ensures LoadLines(es, a + [line] + b) == LoadLines(es, a + b)
  {
    LoadLinesAppend(es, a + [line], b);
    LoadLinesAppend(es, a, [line]);
    LoadLinesAppend(es, a, b);
  }

  /** The last line that sets a key decides its value. */
  lemma LastLineWins(es: Entries<String>, a: seq<String>, line: String)
    requires ParseLine(line).Some?
    ensures ParseLine(line).value.0 in ToMap(LoadLines(es, a + [line]))
    ensures ToMap(LoadLines(es, a + [line]))[ParseLine(line).value.0] == ParseLine(line).value.1
  {
    LoadLinesAppend(es, a, [line]);
  }

  /** `loadFromFile`: a file that cannot be opened leaves the store alone and
      reports false; otherwise the store is cleared, rebuilt from the lines,
      and true is reported. */
  function LoadFromFile(c: Config, file: Option<seq<String>>): (r: (Config, bool))
    ensures file.None? ==> r == (c, false)
    ensures file.Some? ==> r.1 && r.0.path == c.path && r.0.values == LoadLines([], file.value)
    ensures file.Some? || Valid(c) ==> Valid(r.0)
  {
    match file
    case None => (c, false)
    case Some(lines) =>
      LoadLinesValid(c.path, [], lines);
      (Config(c.path, LoadLines([], lines)), true)
  }

  /** The constructor: an empty store for the path (by default
      "config.ini"), then an attempt to load the file. */
  function NewConfig(path: String, file: Option<seq<String>>): (r: Config)
    ensures Valid(r) && r.path == path
    ensures file.None? ==> r.values == []
    ensures file.Some? ==> r.values == LoadLines([], file.value)
  {
    LoadFromFile(Empty(path), file).0
  }

  // ---------------------------------------------------------------------
  // The serialiser of saveToFile
  // ---------------------------------------------------------------------

  /** One `key=value` line. */
  function FormatLine(k: String, v: String): String {
    k + "=" + v
  }

  /** The lines written for a list of entries, one per entry, in list order. */
  function EntryLines(es: Entries<String>): (r: seq<String>)
    ensures |r| == |es|
    ensures forall i :: 0 <= i < |r| ==> r[i] == FormatLine(es[i].0, es[i].1)
  {
    seq(|es|, i requires 0 <= i < |es| => FormatLine(es[i].0, es[i].1))
  }

  /** The lines `saveToFile` writes: one per setting, in ascending key order. */
  function SaveLines(c: Config): (r: seq<String>)
    ensures |r| == |c.values|
  {
    EntryLines(c.values)
  }

  /** `saveToFile`: nothing written and false when the file cannot be opened,
      else the lines of `SaveLines`, which load back to the same store when
      it is serialisable. */
  function SaveToFile(c: Config, canOpen: bool): (r: Option<seq<String>>)
    ensures r.Some? <==> canOpen
    ensures r.Some? ==> |r.value| == |c.values|
    ensures r.Some? && Serialisable(c) ==> LoadLines([], r.value) == c.values
  {
    if !canOpen then None
    else if Serialisable(c) then
      SaveLoadRoundTrip(c);
      Some(SaveLines(c))
    else Some(SaveLines(c))
  }

  /** No character of `s` is `c`. */
  predicate Free(s: String, c: char) {
    forall i :: 0 <= i < |s| ==> s[i] != c
  }

  /** An entry whose line reads back as itself: the key has no '=' or
      newline and starts with neither '#' nor ';'; the value has no
      surrounding whitespace and no newline. */
  predicate SerialisableEntry(k: String, v: String) {
    && ValidKey(k) && Free(k, '=') && Free(k, '\n') && k[0] != '#' && k[0] != ';'
    && Trimmed(v) && Free(v, '\n')
  }

  /** Every entry is serialisable. */
  predicate AllSerialisable(es: Entries<String>) {
    forall i :: 0 <= i < |es| ==> SerialisableEntry(es[i].0, es[i].1)
  }

  /** Every key of `acc` sorts before every key of `es`. */
  predicate AllBelow(acc: Entries<String>, es: Entries<String>) {
    forall i, j :: 0 <= i < |acc| && 0 <= j < |es| ==> Less(acc[i].0, es[j].0)
  }

  /** A store every entry of which is serialisable. */
  predicate Serialisable(c: Config) {
    Ordered(c.values) && AllSerialisable(c.values)
  }

  /** A serialised entry parses back to its key and its trimmed value, so it
      parses back to itself exactly when the value has no surrounding
      whitespace. */
  lemma ParseFormatLine(k: String, v: String)
    requires ValidKey(k) && Free(k, '=') && k[0] != '#' && k[0] != ';'
    ensures ParseLine(FormatLine(k, v)) == Some((k, Trim(v)))
    ensures ParseLine(FormatLine(k, v)) == Some((k, v)) <==> Trimmed(v)
  {
    var line := FormatLine(k, v);
    assert line[..|k|] == k;
    assert line[|k| + 1..] == v;
    assert Trim(k) == k;
    ParseLineAtFirstEquals(line, |k|);
  }

  /** Loading the lines of ordered, serialisable entries that all sort above
      the keys already loaded appends those entries. */
  lemma {:induction false} LoadSavedLines(acc: Entries<String>, es: Entries<String>)
    requires Ordered(es) && AllSerialisable(es) && AllBelow(acc, es)
    ensures LoadLines(acc, EntryLines(es)) == acc + es
    decreases |es|
  {
    if |es| > 0 {
      var tail := es[1..];
      var lines := EntryLines(es);
      var acc' := acc + [es[0]];
      BelowAppend(acc, es);
      assert LoadLines(acc, lines) == LoadLines(acc', EntryLines(tail)) by {
        LoadStep(acc, es[0].0, es[0].1);
        assert lines[1..] == EntryLines(tail);
      }
      LoadSavedLines(acc', tail);
      MoveFront(acc, es);
    } else {
      assert EntryLines(es) == [];
      assert acc + es == acc;
    }
  }

  /** Moving the head of `es` onto the end of `acc` keeps the concatenation. */
  lemma MoveFront<T>(acc: seq<T>, es: seq<T>)
    requires |es| > 0
    ensures (acc + [es[0]]) + es[1..] == acc + es
  {
    assert es == [es[0]] + es[1..];
  }

  /** One saved line, loaded after keys that sort below its own, appends its entry. */
  lemma LoadStep(acc: Entries<String>, k: String, v: String)
    requires SerialisableEntry(k, v)
    requires forall i :: 0 <= i < |acc| ==> Less(acc[i].0, k)
    ensures ApplyLine(acc, FormatLine(k, v)) == acc + [(k, v)]
  {
    ParseFormatLine(k, v);
    InsertGreatest(acc, k, v);
  }

  /** The ordering side condition carries over to the next step of the load. */
  lemma BelowAppend(acc: Entries<String>, es: Entries<String>)
    requires |es| > 0 && Ordered(es) && AllSerialisable(es) && AllBelow(acc, es)
    ensures Ordered(es[1..]) && AllSerialisable(es[1..]) && AllBelow(acc + [es[0]], es[1..])
    ensures SerialisableEntry(es[0].0, es[0].1)
    ensures forall i :: 0 <= i < |acc| ==> Less(acc[i].0, es[0].0)
  {
    var acc' := acc + [es[0]];
    forall i, j | 0 <= i < |acc'| && 0 <= j < |es| - 1
      ensures Less(acc'[i].0, es[1..][j].0)
    {
      assert es[1..][j] == es[j + 1];
      if i < |acc| { assert acc'[i] == acc[i]; }
    }
  }

  /** Saving and loading back reproduces the store exactly, entry for entry,
      when its keys and values are serialisable. */
  lemma SaveLoadRoundTrip(c: Config)
    requires Serialisable(c)
    ensures LoadLines([], SaveLines(c)) == c.values
  {
    LoadSavedLines([], c.values);
  }

  /** A key containing '=' does not survive: the line splits at its first
      '=', so the key read back is only the part before it. */
  lemma KeyWithEqualsSplits(a: String, b: String, v: String)
    requires ValidKey(a) && Free(a, '=') && a[0] != '#' && a[0] != ';'
    ensures ParseLine(FormatLine(a + "=" + b, v)) == Some((a, Trim(b + "=" + v)))
    ensures ParseLine(FormatLine(a + "=" + b, v)).value.0 != a + "=" + b
  {
    var k := a + "=" + b;
    var w := b + "=" + v;
    assert FormatLine(k, v) == FormatLine(a, w) by {
      assert k + "=" + v == a + "=" + w;
    }
    ParseFormatLine(a, w);
    assert |k| > |a|;
  }

  // ---------------------------------------------------------------------
  // Lines as file text
  // ---------------------------------------------------------------------

  /** The text `std::endl` produces: every line followed by a newline. */
  function JoinLines(lines: seq<String>): (r: String)
    decreases |lines|
  {
    if |lines| == 0 then [] else lines[0] + "\n" + JoinLines(lines[1..])
  }

  /** What the `std::getline` loop yields: the pieces between newlines, with
      a final piece only when the text does not end in a newline. */
  function SplitLines(text: String): (r: seq<String>)
    ensures forall i :: 0 <= i < |r| ==> Free(r[i], '\n')
    decreases |text|
  {
    if |text| == 0 then []
    else
      match Find(text, "\n")
      case None =>
        assert Free(text, '\n') by {
          forall j | 0 <= j < |text| ensures text[j] != '\n' {
            assert !OccursAt(text, "\n", j);
          }
        }
        [text]
      case Some(i) =>
        FirstSeparator(text, '\n');
        [text[..i]] + SplitLines(text[i + 1..])
  }

  /** Lines without newlines read back as written. */
  lemma {:induction false} SplitJoinLines(lines: seq<String>)
    requires forall i :: 0 <= i < |lines| ==> Free(lines[i], '\n')
    ensures SplitLines(JoinLines(lines)) == lines
    decreases |lines|
  {
    if |lines| > 0 {
      var rest := JoinLines(lines[1..]);
      FindAfterFree(lines[0], '\n', rest);
      var text := JoinLines(lines);
      assert text == lines[0] + "\n" + rest;
      assert text[..|lines[0]|] == lines[0];
      assert text[|lines[0]| + 1..] == rest;
      SplitJoinLines(lines[1..]);
    }
  }

  /** The round trip through the file's text. */
  lemma SaveLoadTextRoundTrip(c: Config)
    requires Serialisable(c)
    ensures LoadLines([], SplitLines(JoinLines(SaveLines(c)))) == c.values
  {
    var lines := SaveLines(c);
    forall i | 0 <= i < |lines| ensures Free(lines[i], '\n') {
      var (k, v) := c.values[i];
      assert lines[i] == k + "=" + v;
      forall j | 0 <= j < |lines[i]| ensures lines[i][j] != '\n' {
        if j < |k| { assert lines[i][j] == k[j]; }
        else if j > |k| { assert lines[i][j] == v[j - |k| - 1]; }
      }
    }
    SplitJoinLines(lines);
    SaveLoadRoundTrip(c);
  }
}
