/**
 * The line-oriented readers: `readLines`, `getArduinoPreferences` and the
 * `configuration` merge of `getArduinoJson`.
 */
module Readers {
  import opened Wrappers
  import opened Strings
  import opened Dict

  /**
   * A parsed settings object: `None` is a key whose value is `undefined`
   * (a line or a `configuration` item without `=`).
   */
  type Config = map<string, Option<string>>

  /** `obj[key]`: `undefined` when the key is absent. */
  function Lookup(m: Config, k: string): Option<string> {
    if k in m then m[k] else None
  }

  /** JavaScript truthiness of a string-or-undefined value. */
  predicate Truthy(v: Option<string>) { v.Some? && v.value != "" }

  /**
   * The character class `[\r\n|\r|\n]` of `readLines`: `|` is a member of the
   * class, so it ends a line just as `\r` and `\n` do.
   */
  const LineBreaks: set<char> := {'\r', '\n', '|'}

  function ReadLines(text: string): (lines: seq<string>)
    ensures |lines| >= 1
    ensures forall i :: 0 <= i < |lines| ==> NoneIn(lines[i], LineBreaks)
  {
    Split(text, LineBreaks)
  }

  /** Lines joined with `\n` and read back are the same lines. */
  lemma ReadLinesOfJoined(lines: seq<string>)
    requires |lines| >= 1
    requires forall i :: 0 <= i < |lines| ==> NoneIn(lines[i], LineBreaks)
    ensures ReadLines(JoinWith(lines, '\n')) == lines
  {
    SplitJoin(lines, LineBreaks, '\n');
  }

  /** A text whose only line breaks are `\n` is its lines joined with `\n`. */
  lemma JoinedReadLines(text: string)
    requires forall i :: 0 <= i < |text| ==> text[i] != '\r' && text[i] != '|'
    ensures JoinWith(ReadLines(text), '\n') == text
  {
    JoinSplit(text, LineBreaks, '\n');
  }

  /** A `|` inside a line splits it into two lines. */
  lemma PipeEndsLine()
    ensures ReadLines("a=b|c=d") == ["a=b", "c=d"]
  {
    ReadLinesOfJoined(["a=b", "c=d"]);
    assert JoinWith(["a=b", "c=d"], '\n') == "a=b\nc=d";
    SplitJoin(["a=b", "c=d"], LineBreaks, '|');
    assert JoinWith(["a=b", "c=d"], '|') == "a=b|c=d";
  }

  /**
   * `pair = line.split("=")` read as `pair[0]` and `pair[1]`: the text before
   * the first `=`, and the text between the first and the second `=` (or up to
   * the end), `undefined` when the line has no `=`.
   */
  function KeyValue(line: string): (kv: (string, Option<string>))
    ensures kv.0 <= line && NoneIn(kv.0, {'='})
    ensures kv.1.None? <==> NoneIn(line, {'='})
    ensures kv.1.None? ==> kv.0 == line
    ensures kv.1.Some? ==>
      var k, v := kv.0, kv.1.value;
      && k + "=" + v <= line
      && NoneIn(v, {'='})
      && (|k| + 1 + |v| == |line| || line[|k| + 1 + |v|] == '=')
  {
    var parts := Split(line, {'='});
    SplitHead(line, {'='});
    if |parts| > 1 then
      ValueAfterKey(line);
      (parts[0], Some(parts[1]))
    else
      (parts[0], None)
  }

  /** The second piece of `split("=")` follows the first and its `=`, up to the next `=`. */
  lemma ValueAfterKey(line: string)
    requires |Split(line, {'='})| > 1
    ensures var k, v := Split(line, {'='})[0], Split(line, {'='})[1];
      && k + "=" + v <= line
      && (|k| + 1 + |v| == |line| || line[|k| + 1 + |v|] == '=')
  {
    var k := Split(line, {'='})[0];
    KeyThenRest(line);
    SplitHead(line[|k| + 1..], {'='});
  }

  /** A line with an `=` is its first piece, that `=`, and a rest whose first piece is the second. */
  lemma KeyThenRest(line: string)
    requires |Split(line, {'='})| > 1
    ensures var k := Split(line, {'='})[0];
      && |k| < |line| && line == k + "=" + line[|k| + 1..]
      && Split(line, {'='})[1] == Split(line[|k| + 1..], {'='})[0]
  {
    KeyThenSeparator(line);
    var parts := Split(line, {'='});
    SplitTail(line, {'='});
    assert parts[1] == parts[1..][0];
  }

  /** A line with an `=` starts with its first piece followed by that `=`. */
  lemma KeyThenSeparator(line: string)
    requires |Split(line, {'='})| > 1
    ensures var k := Split(line, {'='})[0];
      |k| < |line| && line == k + "=" + line[|k| + 1..]
  {
    var k := Split(line, {'='})[0];
    SplitHead(line, {'='});
    assert line[..|k|] == k && line[|k|] == '=';
  }

  /** `getArduinoPreferences` skips empty lines and lines starting with `#`. */
  function PreferenceEntry(line: string): Entry<Option<string>> {
    if |line| == 0 || line[0] == '#' then None else Some(KeyValue(line))
  }

  function PreferenceEntries(lines: seq<string>): (es: seq<Entry<Option<string>>>)
    ensures |es| == |lines|
    ensures forall i :: 0 <= i < |lines| ==> (es[i].None? <==> lines[i] == "" || lines[i][0] == '#')
    ensures forall i :: 0 <= i < |lines| && es[i].Some? ==> es[i].value == KeyValue(lines[i])
  {
    seq(|lines|, i requires 0 <= i < |lines| => PreferenceEntry(lines[i]))
  }

  /**
   * A key and value that one line of `preferences.txt` can carry: the key holds
   * neither `=` nor a line break and does not start with `#`, a key whose value
   * is `undefined` is not empty, and a value holds neither `=` nor a line break.
   */
  predicate CleanPreference(k: string, v: Option<string>) {
    && NoneIn(k, {'='}) && NoneIn(k, LineBreaks)
    && (k != "" ==> k[0] != '#')
    && (v.None? ==> k != "")
    && (v.Some? ==> NoneIn(v.value, {'='}) && NoneIn(v.value, LineBreaks))
  }

  /** The pair a preference line assigns is clean. */
  lemma PreferenceLineClean(line: string)
    requires IsPreferenceLine(line) && NoneIn(line, LineBreaks)
    ensures CleanPreference(KeyValue(line).0, KeyValue(line).1)
  {
    var kv := KeyValue(line);
    var k := kv.0;
    if k != "" { assert k[0] == line[0]; }
    forall i | 0 <= i < |k| ensures k[i] !in LineBreaks { assert k[i] == line[i]; }
    if kv.1.Some? {
      var v := kv.1.value;
      forall i | 0 <= i < |v| ensures v[i] !in LineBreaks {
        assert v[i] == (k + "=" + v)[|k| + 1 + i] == line[|k| + 1 + i];
      }
    }
  }

  /** Every key read from lines, with its value, is clean. */
  lemma PreferencesClean(lines: seq<string>)
    requires forall i :: 0 <= i < |lines| ==> NoneIn(lines[i], LineBreaks)
    ensures forall k :: k in Fold(map[], PreferenceEntries(lines)) ==>
      CleanPreference(k, Fold(map[], PreferenceEntries(lines))[k])
  {
    var es := PreferenceEntries(lines);
    var p := Fold(map[], es);
    forall k | k in p
      ensures CleanPreference(k, p[k])
    {
      FoldValueFrom(map[], es, k);
      var i :| 0 <= i < |es| && Sets(es, i, k) && p[k] == es[i].value.1;
      PreferenceLineClean(lines[i]);
    }
  }

  /** The preferences object built from the text of `preferences.txt`. */
  function PreferencesOf(text: string): (preferences: Config)
    ensures forall k :: k in preferences ==> CleanPreference(k, preferences[k])
  {
    var lines := ReadLines(text);
    PreferencesClean(lines);
    Fold(map[], PreferenceEntries(lines))
  }

  /** `getArduinoPreferences`, with the file's text passed in. */
  method ReadPreferences(text: string) returns (preferences: Config)
    ensures preferences == PreferencesOf(text)
  {
    var lines := ReadLines(text);
    ghost var es := PreferenceEntries(lines);
    preferences := map[];
    var i := 0;
    while i < |lines|
      invariant 0 <= i <= |lines|
      invariant preferences == Fold(map[], es[..i])
    {
      var line := lines[i];
      if !(|line| == 0 || line[0] == '#') {
        var pair := KeyValue(line);
        preferences := preferences[pair.0 := pair.1];
      }
      FoldStep(map[], es, i);
      i := i + 1;
    }
    assert es[..|lines|] == es;
  }

  /** A line that is empty or starts with `#` assigns nothing. */
  predicate IsPreferenceLine(line: string) { |line| > 0 && line[0] != '#' }

  /**
   * A key read from a preference line gets the value of the last preference
   * line with that key, whatever came before.
   */
  lemma PreferencesLastLineWins(text: string, i: int)
    requires var lines := ReadLines(text);
      0 <= i < |lines| && IsPreferenceLine(lines[i])
    requires var lines := ReadLines(text);
      forall j :: i < j < |lines| && IsPreferenceLine(lines[j]) ==>
        KeyValue(lines[j]).0 != KeyValue(lines[i]).0
    ensures var kv := KeyValue(ReadLines(text)[i]);
      kv.0 in PreferencesOf(text) && PreferencesOf(text)[kv.0] == kv.1
  {
    var lines := ReadLines(text);
    var es := PreferenceEntries(lines);
    var k := KeyValue(lines[i]).0;
    FoldLastWins(map[], es, k, i);
  }

  /** Every key comes from some preference line (so never from a `#` line). */
  lemma PreferencesKeyHasLine(text: string, k: string)
    requires k in PreferencesOf(text)
    ensures var lines := ReadLines(text);
      exists i :: 0 <= i < |lines| && IsPreferenceLine(lines[i]) && KeyValue(lines[i]).0 == k
  {
    var lines := ReadLines(text);
    var es := PreferenceEntries(lines);
    FoldKeys(map[], es, k);
    var i :| 0 <= i < |es| && Sets(es, i, k);
    assert IsPreferenceLine(lines[i]);
  }

  /** The line that assigns `k` the value `v`: `k=v`, or `k` alone for `undefined`. */
  function PreferenceLine(k: string, v: Option<string>): string {
    if v.None? then k else k + "=" + v.value
  }

  /** The lines of a preferences object written out one key per line, in the order `ks`. */
  function PreferenceLines(m: Config, ks: seq<string>): (lines: seq<string>)
    requires forall i :: 0 <= i < |ks| ==> ks[i] in m
    ensures |lines| == |ks|
  {
    seq(|ks|, i requires 0 <= i < |ks| => PreferenceLine(ks[i], m[ks[i]]))
  }

  /** Those lines joined with `\n` (no line at all for an empty object). */
  function PreferencesText(m: Config, ks: seq<string>): string
    requires forall i :: 0 <= i < |ks| ==> ks[i] in m
  {
    if |ks| == 0 then "" else JoinWith(PreferenceLines(m, ks), '\n')
  }

  /** A clean pair written as a line is a preference line that reads back as the pair. */
  lemma PreferenceLineRoundTrip(k: string, v: Option<string>)
    requires CleanPreference(k, v)
    ensures IsPreferenceLine(PreferenceLine(k, v)) && NoneIn(PreferenceLine(k, v), LineBreaks)
    ensures KeyValue(PreferenceLine(k, v)) == (k, v)
  {
    var line := PreferenceLine(k, v);
    var kv := KeyValue(line);
    if v.Some? {
      var w := v.value;
      assert line[|k|] == '=';
      if k != "" { assert line[0] == k[0]; }
      forall i | 0 <= i < |line| ensures line[i] !in LineBreaks {
        if i < |k| { assert line[i] == k[i]; }
        else if i > |k| { assert line[i] == w[i - |k| - 1]; }
      }
      assert line[|kv.0|] == '=' by { assert line[|kv.0|] == (kv.0 + "=")[|kv.0|]; }
      assert kv.0 == line[..|k|] == k;
      var w' := kv.1.value;
      assert w' == (k + "=" + w')[|k| + 1..] == line[|k| + 1..] == w;
    }
  }

  /** The written-out text is read back line by line, each line assigning its own key. */
  lemma PreferenceLinesRead(m: Config, ks: seq<string>)
    requires forall k :: k in m ==> CleanPreference(k, m[k])
    requires forall i :: 0 <= i < |ks| ==> ks[i] in m
    requires |ks| >= 1
    ensures ReadLines(PreferencesText(m, ks)) == PreferenceLines(m, ks)
    ensures forall i :: 0 <= i < |ks| ==>
      PreferenceEntries(PreferenceLines(m, ks))[i] == Some((ks[i], m[ks[i]]))
  {
    var lines := PreferenceLines(m, ks);
    forall i | 0 <= i < |ks|
      ensures IsPreferenceLine(lines[i]) && NoneIn(lines[i], LineBreaks)
      ensures KeyValue(lines[i]) == (ks[i], m[ks[i]])
    {
      PreferenceLineRoundTrip(ks[i], m[ks[i]]);
    }
    ReadLinesOfJoined(lines);
  }

  /** With no key, nothing is written and nothing is read back. */
  lemma PreferencesOfEmpty()
    ensures PreferencesOf("") == map[]
  {
    assert ReadLines("") == [""];
  }

  /**
   * Reading back a clean preferences object written out one key per line, with
   * every key listed once, gives the same object.
   */
  lemma PreferencesRoundTrip(m: Config, ks: seq<string>)
    requires forall k :: k in m ==> CleanPreference(k, m[k])
    requires forall i :: 0 <= i < |ks| ==> ks[i] in m
    requires forall k :: k in m ==> k in ks
    requires forall i, j :: 0 <= i < j < |ks| ==> ks[i] != ks[j]
    ensures PreferencesOf(PreferencesText(m, ks)) == m
  {
    if |ks| == 0 {
      PreferencesOfEmpty();
      assert m == map[];
    } else {
      PreferenceLinesRead(m, ks);
      FoldOfListing(m, ks, PreferenceEntries(PreferenceLines(m, ks)));
    }
  }

  /** Parsing is idempotent: the object read back from the written-out preferences is the same. */
  lemma PreferencesIdempotent(text: string, ks: seq<string>)
    requires forall i :: 0 <= i < |ks| ==> ks[i] in PreferencesOf(text)
    requires forall k :: k in PreferencesOf(text) ==> k in ks
    requires forall i, j :: 0 <= i < j < |ks| ==> ks[i] != ks[j]
    ensures PreferencesOf(PreferencesText(PreferencesOf(text), ks)) == PreferencesOf(text)
  {
    PreferencesRoundTrip(PreferencesOf(text), ks);
  }

  /** The project file's fields as read by `JSON.parse`, each a string. */
  function ConfigOfJson(json: map<string, string>): (c: Config)
    ensures c.Keys == json.Keys
    ensures forall k :: k in json ==> c[k] == Some(json[k])
  {
    map k | k in json :: Some(json[k])
  }

  /** Each `configuration` item `k=v` becomes the assignment `json[k] = v`. */
  function ConfigurationEntries(items: seq<string>): (es: seq<Entry<Option<string>>>)
    ensures |es| == |items|
    ensures forall i :: 0 <= i < |items| ==> es[i] == Some(KeyValue(items[i]))
  {
    seq(|items|, i requires 0 <= i < |items| => Some(KeyValue(items[i])))
  }

  /** The project configuration after the merge of its `configuration` string. */
  function ProjectConfigOf(json: map<string, string>): (merged: Config)
    ensures json.Keys <= merged.Keys
  {
    var base := ConfigOfJson(json);
    if Truthy(Lookup(base, "configuration")) then
      var es := ConfigurationEntries(Split(json["configuration"], {','}));
      FoldKeepsKeys(base, es);
      Fold(base, es)
    else base
  }

  /** `getArduinoJson`'s merge, with the parsed project file passed in. */
  method MergeConfiguration(json: map<string, string>) returns (merged: Config)
    ensures merged == ProjectConfigOf(json)
  {
    merged := ConfigOfJson(json);
    if "configuration" in json && json["configuration"] != "" {
      var items := Split(json["configuration"], {','});
      ghost var es := ConfigurationEntries(items);
      var i := 0;
      while i < |items|
        invariant 0 <= i <= |items|
        invariant merged == Fold(ConfigOfJson(json), es[..i])
      {
        var param := KeyValue(items[i]);
        merged := merged[param.0 := param.1];
        FoldStep(ConfigOfJson(json), es, i);
        i := i + 1;
      }
      assert es[..|items|] == es;
    }
  }

  /** The items of the `configuration` string, when it is truthy. */
  function ConfigurationItems(json: map<string, string>): seq<string> {
    if "configuration" in json && json["configuration"] != ""
    then Split(json["configuration"], {','}) else []
  }

  /** The last `configuration` item naming a key overrides the top-level field. */
  lemma ConfigurationItemOverrides(json: map<string, string>, i: int)
    requires var items := ConfigurationItems(json);
      0 <= i < |items| &&
      forall j :: i < j < |items| ==> KeyValue(items[j]).0 != KeyValue(items[i]).0
    ensures var kv := KeyValue(ConfigurationItems(json)[i]);
      kv.0 in ProjectConfigOf(json) && ProjectConfigOf(json)[kv.0] == kv.1
  {
    var items := ConfigurationItems(json);
    var es := ConfigurationEntries(items);
    FoldLastWins(ConfigOfJson(json), es, KeyValue(items[i]).0, i);
  }

  /** A field no `configuration` item names keeps its value from the file. */
  lemma FieldNotInConfigurationKept(json: map<string, string>, k: string)
    requires var items := ConfigurationItems(json);
      forall j :: 0 <= j < |items| ==> KeyValue(items[j]).0 != k
    ensures k in ProjectConfigOf(json) <==> k in json
    ensures k in json ==> ProjectConfigOf(json)[k] == Some(json[k])
  {
    var items := ConfigurationItems(json);
    FoldUntouched(ConfigOfJson(json), ConfigurationEntries(items), k);
  }
}
