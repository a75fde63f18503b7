/** The static correction tables: a text file of `key=val1,val2` lines read
    into an ordered multimap in which repeated keys accumulate their values. */
module LookupTable {
  import opened Wrappers
  import opened Text

  /** An `ArrayListMultimap<String, String>`: each key maps to the list of
      its values in insertion order; a key never put has no entry. */
  type MultiMap = map<string, seq<string>>

  /** `multimap.get(key)`: the values of `key`, empty when it was never put. */
  function Get(m: MultiMap, key: string): seq<string> {
    if key in m then m[key] else []
  }

  /** Every key present in the multimap holds at least one value. */
  ghost predicate NoEmptyLists(m: MultiMap) {
    forall k :: k in m ==> |m[k]| > 0
  }

  /** `multimap.put(key, v)` for each `v` of `values`, in order. */
  function PutAll(m: MultiMap, key: string, values: seq<string>): (r: MultiMap)
    ensures Get(r, key) == Get(m, key) + values
    ensures forall k :: k != key ==> Get(r, k) == Get(m, k)
    ensures r.Keys == if |values| == 0 then m.Keys else m.Keys + {key}
    ensures NoEmptyLists(m) ==> NoEmptyLists(r)
  {
    if |values| == 0 then m else m[key := Get(m, key) + values]
  }

  /** One parsed line: its key and the values it contributes. */
  datatype Entry = Entry(key: string, values: seq<string>)

  /** The configuration error the loader throws (an `IllegalStateException`
      naming the offending line). */
  datatype LoadError = MissingSeparator(line: string)

  /** Each comma-separated piece trimmed as `Splitter.trimResults()` does. */
  function TrimPieces(pieces: seq<string>): (r: seq<string>)
    ensures |r| == |pieces|
    ensures forall i :: 0 <= i < |r| ==> r[i] == WhitespaceTrim(pieces[i])
  {
    if |pieces| == 0 then [] else [WhitespaceTrim(pieces[0])] + TrimPieces(pieces[1..])
  }

  /** The values of a trimmed value text: split on every comma with each
      piece trimmed when it holds a comma, otherwise the text itself. With a
      comma, the values are the trimmed comma-free pieces that join back to
      the text, in order and with empty pieces kept. */
  function ParseValues(value: string): (r: seq<string>)
    ensures |r| >= 1
    ensures |r| > 1 ==> forall i :: 0 <= i < |r| ==> ',' !in r[i]
    ensures ',' !in value ==> r == [value]
    ensures ',' in value ==> exists pieces: seq<string> ::
      && |pieces| == |r| >= 1
      && Join(pieces, ',') == value
      && forall i :: 0 <= i < |pieces| ==> ',' !in pieces[i] && r[i] == WhitespaceTrim(pieces[i])
  {
    if ',' in value then
      var pieces := SplitOn(value, ',');
      var values := TrimPieces(pieces);
      assert |pieces| == |values| >= 1 && Join(pieces, ',') == value;
      assert forall i :: 0 <= i < |values| ==> ',' !in values[i] by {
        forall i | 0 <= i < |values|
          ensures ',' !in values[i]
        {
          StripKeepsAbsence(pieces[i], IsUnicodeWhitespace, ',');
        }
      }
      values
    else
      [value]
  }

  /** Parses one `key=val1,val2` line. The key is the trimmed text before the
      first `=`, the values those of the trimmed text after it. */
  function ParseLine(line: string): (r: Result<Entry, LoadError>)
    ensures r.Failure? <==> '=' !in line
    ensures r.Failure? ==> r.error == MissingSeparator(line)
    ensures r.Success? ==> '=' !in r.value.key && |r.value.values| >= 1
    ensures r.Success? && |r.value.values| > 1 ==>
      forall i :: 0 <= i < |r.value.values| ==> ',' !in r.value.values[i]
    ensures r.Success? ==> exists i ::
      && 0 <= i < |line| && line[i] == '=' && '=' !in line[..i]
      && r.value.key == JavaTrim(line[..i])
      && r.value.values == ParseValues(JavaTrim(line[i + 1..]))
  {
    match IndexOf(line, '=')
    case None => Failure(MissingSeparator(line))
    case Some(index) =>
      StripKeepsAbsence(line[..index], IsControlOrSpace, '=');
      assert line[index] == '=' && '=' !in line[..index];
      Success(Entry(JavaTrim(line[..index]), ParseValues(JavaTrim(line[index + 1..]))))
  }

  /** The values the line contributes under `key`: none if it fails to parse
      or carries another key. */
  function Contribution(line: string, key: string): seq<string> {
    match ParseLine(line)
    case Success(e) => if e.key == key then e.values else []
    case Failure(_) => []
  }

  /** Reference meaning of a loaded table: the values of `key` are the
      values of every line with that key, concatenated in file order. */
  function Collected(lines: seq<string>, key: string): seq<string> {
    if |lines| == 0 then [] else Contribution(lines[0], key) + Collected(lines[1..], key)
  }

  /** Appending a line appends its contribution. */
  lemma {:induction false} CollectedAppend(lines: seq<string>, line: string, key: string)
    ensures Collected(lines + [line], key) == Collected(lines, key) + Contribution(line, key)
  {
    if |lines| == 0 {
      assert Collected([line][1..], key) == [];
    } else {
      assert (lines + [line])[1..] == lines[1..] + [line];
      CollectedAppend(lines[1..], line, key);
    }
  }

  /** Position of the first line that has no `=`, if there is one. */
  function FirstMissing(lines: seq<string>): (r: Option<nat>)
    ensures r.None? <==> forall i :: 0 <= i < |lines| ==> '=' in lines[i]
    ensures r.Some? ==> r.value < |lines| && '=' !in lines[r.value]
    ensures r.Some? ==> forall j :: 0 <= j < r.value ==> '=' in lines[j]
  {
    if |lines| == 0 then None
    else if '=' !in lines[0] then Some(0)
    else
      match FirstMissing(lines[1..])
      case None => None
      case Some(i) => Some(i + 1)
  }

  /** The first missing separator of a longer file is that of its prefix,
      if the prefix has one. */
  lemma FirstMissingAppend(lines: seq<string>, line: string)
    ensures FirstMissing(lines + [line]) ==
      if FirstMissing(lines).Some? then FirstMissing(lines)
      else if '=' !in line then Some(|lines|)
      else None
  {
    var all := lines + [line];
    assert forall i :: 0 <= i < |lines| ==> all[i] == lines[i];
    assert all[|lines|] == line;
  }

  /** `loadMultiMap`: the table built from the lines of a file, or the error
      for the first line that has no `=`, in which case no table exists. */
  function Load(lines: seq<string>): (r: Result<MultiMap, LoadError>)
    ensures r.Failure? <==> FirstMissing(lines).Some?
    ensures r.Failure? ==> r.error == MissingSeparator(lines[FirstMissing(lines).value])
    ensures r.Success? ==> forall key :: Get(r.value, key) == Collected(lines, key)
    ensures r.Success? ==> NoEmptyLists(r.value)
  {
    if |lines| == 0 then Success(map[])
    else
      var init := lines[..|lines| - 1];
      var last := lines[|lines| - 1];
      assert lines == init + [last];
      FirstMissingAppend(init, last);
      match Load(init)
      case Failure(e) => Failure(e)
      case Success(m) =>
        match ParseLine(last)
        case Failure(e) => Failure(e)
        case Success(entry) =>
          PutAllCollected(init, last, m, entry);
          Success(PutAll(m, entry.key, entry.values))
  }

  /** An empty piece between two commas is kept as an empty value. */
  lemma EmptyPieceKept()
    ensures ParseValues("a,,b") == ["a", "", "b"]
  {
    var pieces := ["a", "", "b"];
    assert Join(pieces, ',') == "a,,b";
    SplitJoin(pieces, ',');
    assert WhitespaceTrim("a") == "a" by { StripUnchanged("a", IsUnicodeWhitespace); }
    assert WhitespaceTrim("b") == "b" by { StripUnchanged("b", IsUnicodeWhitespace); }
    assert WhitespaceTrim("") == "" by { StripUnchanged("", IsUnicodeWhitespace); }
    assert TrimPieces(pieces) == pieces;
  }

  /** Putting the entry of one more line extends a table of the earlier
      lines to the table of all of them. */
  lemma PutAllCollected(init: seq<string>, last: string, m: MultiMap, entry: Entry)
    requires forall key :: Get(m, key) == Collected(init, key)
    requires ParseLine(last) == Success(entry)
    ensures forall key :: Get(PutAll(m, entry.key, entry.values), key) == Collected(init + [last], key)
  {
    forall key
      ensures Get(PutAll(m, entry.key, entry.values), key) == Collected(init + [last], key)
    {
      PutAllCollectedAt(init, last, m, entry, key);
    }
  }

  /** The same, for one key. */
  lemma PutAllCollectedAt(init: seq<string>, last: string, m: MultiMap, entry: Entry, key: string)
    requires Get(m, key) == Collected(init, key)
    requires ParseLine(last) == Success(entry)
    ensures Get(PutAll(m, entry.key, entry.values), key) == Collected(init + [last], key)
  {
    CollectedAppend(init, last, key);
    if key == entry.key {
      assert Contribution(last, key) == entry.values;
    } else {
      assert Contribution(last, key) == [];
    }
  }

  /** A one-line file loads to the entry of its line, put into an empty
      table, or fails with that line's error. */
  lemma LoadSingle(line: string)
    ensures Load([line]) == match ParseLine(line)
      case Failure(e) => Failure(e)
      case Success(entry) => Success(PutAll(map[], entry.key, entry.values))
  {
    assert [line][..0] == [];
  }

  /** Putting values into an empty table gives the table of that one key. */
  lemma PutAllEmpty(key: string, values: seq<string>)
    requires |values| > 0
    ensures PutAll(map[], key, values) == map[key := values]
  {
    assert Get(map[], key) + values == values;
  }

  /** Repeated keys accumulate: one more line appends its values to those
      its key already has, and leaves every other key alone. */
  lemma LoadAccumulates(lines: seq<string>, line: string, key: string)
    requires Load(lines + [line]).Success?
    ensures Load(lines).Success?
    ensures Get(Load(lines + [line]).value, key) == Get(Load(lines).value, key) + Contribution(line, key)
  {
    FirstMissingAppend(lines, line);
    CollectedAppend(lines, line, key);
  }

  /** A line without `=` anywhere in the file makes loading fail. */
  lemma LoadRejectsMissingSeparator(lines: seq<string>, i: nat)
    requires i < |lines| && '=' !in lines[i]
    ensures Load(lines).Failure?
  {
  }

  /** A key free of `=` and of surrounding blanks, as the data files hold it. */
  predicate IsCleanKey(k: string) {
    '=' !in k && (|k| == 0 || (k[0] > ' ' && k[|k| - 1] > ' '))
  }

  /** A value with no comma, not empty, and with no blank at either end. */
  predicate IsCleanValue(v: string) {
    && ',' !in v && |v| > 0
    && v[0] > ' ' && !IsUnicodeWhitespace(v[0])
    && v[|v| - 1] > ' ' && !IsUnicodeWhitespace(v[|v| - 1])
  }

  /** Writes an entry in the data files' `key=val1,val2` format. */
  function FormatLine(e: Entry): string
    requires |e.values| >= 1
  {
    e.key + "=" + Join(e.values, ',')
  }

  /** A joined list of clean values starts with the first value's first
      character and ends with the last value's last character. */
  lemma {:induction false} JoinEnds(values: seq<string>)
    requires |values| >= 1
    requires forall i :: 0 <= i < |values| ==> IsCleanValue(values[i])
    ensures |Join(values, ',')| > 0 && |values[0]| > 0
    ensures Join(values, ',')[0] == values[0][0]
    ensures var s := Join(values, ','); var v := values[|values| - 1];
      |v| > 0 && s[|s| - 1] == v[|v| - 1]
  {
    assert IsCleanValue(values[0]);
    assert IsCleanValue(values[|values| - 1]);
    if |values| > 1 {
      JoinEnds(values[1..]);
      assert values[1..][|values| - 2] == values[|values| - 1];
    }
  }

  /** The clean values survive being joined, split and trimmed. */
  lemma ValuesRoundTrip(values: seq<string>)
    requires |values| >= 2
    requires forall i :: 0 <= i < |values| ==> IsCleanValue(values[i])
    ensures TrimPieces(SplitOn(Join(values, ','), ',')) == values
  {
    assert forall i :: 0 <= i < |values| ==> ',' !in values[i];
    SplitJoin(values, ',');
    forall i | 0 <= i < |values|
      ensures WhitespaceTrim(values[i]) == values[i]
    {
      assert IsCleanValue(values[i]);
      StripUnchanged(values[i], IsUnicodeWhitespace);
    }
  }

  /** A formatted line's first `=` is the one after the key. */
  lemma FormatSplits(e: Entry)
    requires IsCleanKey(e.key) && |e.values| >= 1
    ensures var line := FormatLine(e); var n := |e.key|;
      && IndexOf(line, '=') == Some(n)
      && line[..n] == e.key
      && line[n + 1..] == Join(e.values, ',')
  {
    var line := FormatLine(e);
    var n := |e.key|;
    assert line[n] == '=';
    assert line[..n] == e.key;
  }

  /** A joined list of clean values has no blank to trim at either end. */
  lemma JoinedTrimmed(values: seq<string>)
    requires |values| >= 1
    requires forall i :: 0 <= i < |values| ==> IsCleanValue(values[i])
    ensures JavaTrim(Join(values, ',')) == Join(values, ',')
  {
    JoinEnds(values);
    assert IsCleanValue(values[0]);
    assert IsCleanValue(values[|values| - 1]);
    StripUnchanged(Join(values, ','), IsControlOrSpace);
  }

  /** Clean values survive being joined, trimmed and parsed back. */
  lemma ParseJoined(values: seq<string>)
    requires |values| >= 1
    requires forall i :: 0 <= i < |values| ==> IsCleanValue(values[i])
    ensures ParseValues(JavaTrim(Join(values, ','))) == values
  {
    JoinedTrimmed(values);
    if |values| == 1 {
      assert Join(values, ',') == values[0];
      assert IsCleanValue(values[0]);
    } else {
      JoinHasComma(values);
      ValuesRoundTrip(values);
    }
  }

  /** Joining two or more values puts a comma after the first. */
  lemma JoinHasComma(values: seq<string>)
    requires |values| >= 2
    ensures ',' in Join(values, ',')
  {
    assert Join(values, ',')[|values[0]|] == ',';
  }

  /** Round trip: parsing a formatted entry of clean key and values gives
      the entry back. */
  lemma ParseFormatted(e: Entry)
    requires IsCleanKey(e.key)
    requires |e.values| >= 1
    requires forall i :: 0 <= i < |e.values| ==> IsCleanValue(e.values[i])
    ensures ParseLine(FormatLine(e)) == Success(e)
  {
    FormatSplits(e);
    StripUnchanged(e.key, IsControlOrSpace);
    ParseJoined(e.values);
  }
}
