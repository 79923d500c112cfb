/** The properties-file parser: a file of `key=value` / `key:value` lines read
    into a map from key to value. */
module Properties {
  import opened Wrappers
  import opened Strings

  type Properties = map<string, string>

  /** One accepted line of the file. */
  datatype Property = Property(key: string, value: string)

  /** What opening a path yields: the lines the scanner delivered, and whether it
      then stopped on a read error instead of at the end of the file. */
  datatype File = File(lines: seq<string>, scanError: bool)

  /** The file system: a path it has no entry for cannot be opened. */
  type FileSystem = map<string, File>

  /** A trimmed line that the parser skips before looking for a separator. */
  predicate IsBlankOrComment(line: string) {
    line == [] || line[0] == '#' || line[0] == '!'
  }

  /** Key and value on either side of the separator at position idx, each trimmed. */
  function SplitAt(line: string, idx: nat): (r: Option<Property>)
    requires idx < |line|
    ensures r.Some? ==> r.value.key != [] && IsTrimmed(r.value.key) && IsTrimmed(r.value.value)
  {
    var key := TrimSpace(line[..idx]);
    var value := TrimSpace(line[idx + 1..]);
    if key != [] then Some(Property(key, value)) else None
  }

  /** The property a raw line of the file defines, if any. */
  function ParseLine(raw: string): (r: Option<Property>)
    ensures r.Some? ==> r.value.key != [] && IsTrimmed(r.value.key) && IsTrimmed(r.value.value)
  {
    var line := TrimSpace(raw);
    if IsBlankOrComment(line) then None
    else
      var eq := Index(line, '=');
      if eq != -1 then SplitAt(line, eq)
      else
        var colon := Index(line, ':');
        if colon != -1 then SplitAt(line, colon)
        else None
  }

  /** The property each line defines, line by line. */
  function ParseLines(lines: seq<string>): (r: seq<Option<Property>>)
    ensures |r| == |lines|
    ensures forall i :: 0 <= i < |lines| ==> r[i] == ParseLine(lines[i])
  {
    seq(|lines|, i requires 0 <= i < |lines| => ParseLine(lines[i]))
  }

  lemma ParseLinesAppend(a: seq<string>, b: seq<string>)
    ensures ParseLines(a + b) == ParseLines(a) + ParseLines(b)
  {
    var l, r := ParseLines(a + b), ParseLines(a) + ParseLines(b);
    forall i | 0 <= i < |l| ensures l[i] == r[i] {
      if i < |a| {
        assert (a + b)[i] == a[i];
      } else {
        assert (a + b)[i] == b[i - |a|];
      }
    }
  }

  /** The map built from a sequence of parsed lines: a left fold of map updates,
      each accepted line storing its value over whatever the earlier lines left. */
  function Store(entries: seq<Option<Property>>): Properties {
    if entries == [] then map[]
    else
      var earlier := Store(entries[..|entries| - 1]);
      match entries[|entries| - 1]
      case Some(p) => earlier[p.key := p.value]
      case None => earlier
  }

  /** Extending the stored prefix by one entry applies that entry's update. */
  lemma StoreExtend(entries: seq<Option<Property>>, i: nat)
    requires i < |entries|
    ensures Store(entries[..i + 1]) ==
      match entries[i]
      case Some(p) => Store(entries[..i])[p.key := p.value]
      case None => Store(entries[..i])
  {
    assert entries[..i + 1][..i] == entries[..i];
  }

  /** The map the parser builds from the lines of a file. */
  function Fold(lines: seq<string>): Properties {
    Store(ParseLines(lines))
  }

  /** The result of parsing the properties file at path. */
  function ReadProperties(path: string, fs: FileSystem): Result<Properties, Error> {
    if path !in fs then Failure(OpenFailed(path))
    else if fs[path].scanError then Failure(ReadFailed(path))
    else Success(Fold(fs[path].lines))
  }

  /** Reads the file at path line by line into a fresh map. */
  method ParsePropertiesFile(path: string, fs: FileSystem) returns (r: Result<Properties, Error>)
    ensures r == ReadProperties(path, fs)
  {
    if path !in fs {
      return Failure(OpenFailed(path));
    }
    var file := fs[path];
    var properties: Properties := map[];
    ghost var entries := ParseLines(file.lines);
    var i := 0;
    while i < |file.lines|
      invariant 0 <= i <= |file.lines|
      invariant properties == Store(entries[..i])
    {
      StoreExtend(entries, i);
      match ParseLine(file.lines[i]) {
        case Some(p) => properties := properties[p.key := p.value];
        case None =>
      }
      i := i + 1;
    }
    assert entries[..i] == entries;
    if file.scanError {
      return Failure(ReadFailed(path));
    }
    return Success(properties);
  }

  // ---------------------------------------------------------------------------
  // Properties of single lines

  /** A line whose trimmed text is `p=v`, with no `=` in p, splits at that first
      `=`; the rest v may hold further `=` and `:` characters. An empty trimmed
      key drops the line. */
  lemma {:induction false} SplitsAtFirstEquals(raw: string, p: string, v: string)
    requires TrimSpace(raw) == p + "=" + v
    requires '=' !in p
    requires p == [] || (p[0] != '#' && p[0] != '!')
    ensures ParseLine(raw) == if TrimSpace(p) == [] then None else Some(Property(TrimSpace(p), TrimSpace(v)))
  {
    var line := TrimSpace(raw);
    IndexAfterPrefix(p, '=', v);
    assert line[0] == (if p == [] then '=' else p[0]);
    assert line[..|p|] == p;
    assert line[|p| + 1..] == v;
  }

  /** A line whose trimmed text has no `=` and reads `p:v`, with no `:` in p,
      splits at that first `:`; v may hold further `:` characters. */
  lemma {:induction false} SplitsAtFirstColon(raw: string, p: string, v: string)
    requires TrimSpace(raw) == p + ":" + v
    requires '=' !in TrimSpace(raw)
    requires ':' !in p
    requires p == [] || (p[0] != '#' && p[0] != '!')
    ensures ParseLine(raw) == if TrimSpace(p) == [] then None else Some(Property(TrimSpace(p), TrimSpace(v)))
  {
    var line := TrimSpace(raw);
    IndexAfterPrefix(p, ':', v);
    assert line[0] == (if p == [] then ':' else p[0]);
    assert line[..|p|] == p;
    assert line[|p| + 1..] == v;
  }

  /** A line with neither separator, a blank line and a comment line define nothing. */
  lemma IgnoredLines(raw: string)
    requires IsBlankOrComment(TrimSpace(raw)) || ('=' !in TrimSpace(raw) && ':' !in TrimSpace(raw))
    ensures ParseLine(raw) == None
  {
  }

  // ---------------------------------------------------------------------------
  // Properties of whole files

  /** Which parsed lines define key k. */
  predicate Assigns(entry: Option<Property>, k: string) {
    entry.Some? && entry.value.key == k
  }

  lemma {:induction false} StoreHasKey(entries: seq<Option<Property>>, k: string)
    ensures k in Store(entries) <==> exists i :: 0 <= i < |entries| && Assigns(entries[i], k)
  {
    if entries != [] {
      var n := |entries| - 1;
      var init := entries[..n];
      StoreHasKey(init, k);
      if !Assigns(entries[n], k) && k in Store(entries) {
        var i :| 0 <= i < n && Assigns(init[i], k);
        assert Assigns(entries[i], k);
      }
    }
  }

  lemma {:induction false} StoreLastValue(entries: seq<Option<Property>>, k: string, i: nat)
    requires i < |entries| && Assigns(entries[i], k)
    requires forall j :: i < j < |entries| ==> !Assigns(entries[j], k)
    ensures k in Store(entries) && Store(entries)[k] == entries[i].value.value
  {
    var n := |entries| - 1;
    if i < n {
      var init := entries[..n];
      assert forall j :: i < j < n ==> init[j] == entries[j];
      StoreLastValue(init, k, i);
    }
  }

  lemma {:induction false} StoreWellFormed(entries: seq<Option<Property>>)
    requires forall i :: 0 <= i < |entries| && entries[i].Some? ==>
               entries[i].value.key != [] && IsTrimmed(entries[i].value.key) && IsTrimmed(entries[i].value.value)
    ensures forall k :: k in Store(entries) ==> k != [] && IsTrimmed(k) && IsTrimmed(Store(entries)[k])
  {
    if entries != [] {
      var n := |entries| - 1;
      assert forall i :: 0 <= i < n ==> entries[..n][i] == entries[i];
      StoreWellFormed(entries[..n]);
    }
  }

  lemma {:induction false} StoreSkipsNone(before: seq<Option<Property>>, after: seq<Option<Property>>)
    ensures Store(before + [None] + after) == Store(before + after)
  {
    if after == [] {
      assert before + [None] + after == before + [None];
      assert (before + [None])[..|before|] == before;
      assert before + after == before;
    } else {
      var n := |after| - 1;
      StoreSkipsNone(before, after[..n]);
      var s1, s2 := before + [None] + after, before + after;
      assert s1[..|s1| - 1] == before + [None] + after[..n];
      assert s2[..|s2| - 1] == before + after[..n];
      assert s1[|s1| - 1] == s2[|s2| - 1] == after[n];
    }
  }

  /** Which lines define key k. */
  predicate Defines(line: string, k: string) {
    Assigns(ParseLine(line), k)
  }

  /** A key is in the map exactly when some line of the file defines it. */
  lemma FoldHasKey(lines: seq<string>, k: string)
    ensures k in Fold(lines) <==> exists i :: 0 <= i < |lines| && Defines(lines[i], k)
  {
    StoreHasKey(ParseLines(lines), k);
  }

  /** The value of a key is the one given by the last line that defines it:
      a later line overwrites an earlier one with the same key. */
  lemma FoldLastValue(lines: seq<string>, k: string, i: nat)
    requires i < |lines| && Defines(lines[i], k)
    requires forall j :: i < j < |lines| ==> !Defines(lines[j], k)
    ensures k in Fold(lines) && Fold(lines)[k] == ParseLine(lines[i]).value.value
  {
    StoreLastValue(ParseLines(lines), k, i);
  }

  /** Every key of the map is non-empty, and keys and values are trimmed. */
  lemma FoldWellFormed(lines: seq<string>)
    ensures forall k :: k in Fold(lines) ==> k != [] && IsTrimmed(k) && IsTrimmed(Fold(lines)[k])
  {
    StoreWellFormed(ParseLines(lines));
  }

  /** A line that defines nothing (a blank line, a comment, a line without a
      separator or with an empty key) can be taken out of a file anywhere
      without changing the map. */
  lemma IgnoredLineAddsNothing(before: seq<string>, line: string, after: seq<string>)
    requires ParseLine(line) == None
    ensures Fold(before + [line] + after) == Fold(before + after)
  {
    ParseLinesAppend(before, [line]);
    ParseLinesAppend(before + [line], after);
    ParseLinesAppend(before, after);
    assert ParseLines([line]) == [None];
    StoreSkipsNone(ParseLines(before), ParseLines(after));
  }

}
