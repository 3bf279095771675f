/**
 * The board-definition scan of `getEsp8266spiffs`: every line of `boards.txt`
 * is matched against `<board>\.(?:build|upload)\.(\S+)=(\S+)` and, failing
 * that, `<board>\.menu\.FlashSize\.<config>\.(?:build|upload)\.(\S+)=(\S+)`;
 * a match assigns its first group to its second in the `spiffs` object.
 */
module Boards {
  import opened Wrappers
  import opened Strings
  import opened Dict
  import opened Readers
  import opened Targets

  /** The largest index in `[lo, hi)` holding `=`. */
  function LastEquals(s: string, lo: nat, hi: nat): (e: Option<nat>)
    requires lo <= hi <= |s|
    ensures e.Some? ==>
      lo <= e.value < hi && s[e.value] == '=' && forall j :: e.value < j < hi ==> s[j] != '='
    ensures e.None? ==> forall j :: lo <= j < hi ==> s[j] != '='
    decreases hi - lo
  {
    if lo == hi then None else if s[hi - 1] == '=' then Some(hi - 1) else LastEquals(s, lo, hi - 1)
  }

  /** `w` occurs in `line` starting at `i`. */
  predicate OccursAt(line: string, w: string, i: nat) {
    i <= |line| && w <= line[i..]
  }

  /**
   * A group pair the regular expression can return: both groups non-blank and
   * non-empty, the value running to a blank or the end of the line, and no
   * `=` in the value except as its last character (the greedy key takes the
   * last `=` that still leaves a value).
   */
  predicate GroupsAt(line: string, prefix: string, i: nat, k: string, v: string) {
    && OccursAt(line, prefix + k + "=" + v, i)
    && k != "" && v != "" && NoSpace(k) && NoSpace(v)
    && (forall j :: 0 <= j < |v| - 1 ==> v[j] != '=')
    && (i + |prefix + k + "=" + v| == |line| || IsSpace(line[i + |prefix + k + "=" + v|]))
  }

  /**
   * The leading `\S*` run of `t` has no `=` with a character on both sides,
   * so `(\S+)=(\S+)` cannot match at the start of `t`.
   */
  predicate NoPair(t: string) {
    forall e :: 1 <= e < |NonSpacePrefix(t)| - 1 ==> t[e] != '='
  }

  /** The greedy groups of `(\S+)=(\S+)` matched at the start of `t`. */
  function Groups(t: string): (m: Option<(string, string)>)
    ensures m.Some? ==>
      var k, v := m.value.0, m.value.1;
      && k + "=" + v <= t
      && k != "" && v != "" && NoSpace(k) && NoSpace(v)
      && (forall j :: 0 <= j < |v| - 1 ==> v[j] != '=')
      && (|k + "=" + v| == |t| || IsSpace(t[|k + "=" + v|]))
    ensures m.None? <==> NoPair(t)
  {
    var r := |NonSpacePrefix(t)|;
    if r < 2 then None
    else match LastEquals(t, 1, r - 1)
      case None => None
      case Some(e) =>
        assert t[..e] + "=" + t[e + 1..r] == t[..r];
        Some((t[..e], t[e + 1..r]))
  }

  /** The match of `<prefix>(\S+)=(\S+)` anchored at position `i`. */
  function MatchAt(line: string, i: nat, prefix: string): (m: Option<(string, string)>)
    requires i <= |line|
    ensures m.Some? ==> GroupsAt(line, prefix, i, m.value.0, m.value.1)
    ensures m.None? <==> !OccursAt(line, prefix, i) || NoPair(line[i + |prefix|..])
  {
    if !(prefix <= line[i..]) then None
    else
      var m := Groups(line[i + |prefix|..]);
      if m.Some? then GroupsAtOfGroups(line, prefix, i, m.value.0, m.value.1); m else m
  }

  /** Groups found right after `prefix` at `i` are groups the regular expression can return there. */
  lemma GroupsAtOfGroups(line: string, prefix: string, i: nat, k: string, v: string)
    requires OccursAt(line, prefix, i)
    requires Groups(line[i + |prefix|..]) == Some((k, v))
    ensures GroupsAt(line, prefix, i, k, v)
  {
    var t := line[i + |prefix|..];
    assert line[i..] == prefix + t;
    assert prefix + k + "=" + v <= line[i..];
  }

  /** `<stem>\.(?:build|upload)\.(\S+)=(\S+)` at position `i`: `build` is tried first. */
  function MatchKindAt(line: string, i: nat, stem: string): (m: Option<(string, string)>)
    requires i <= |line|
  {
    var build := MatchAt(line, i, stem + ".build.");
    if build.Some? then build else MatchAt(line, i, stem + ".upload.")
  }

  /** `line.match(pattern)` for the unanchored pattern: the leftmost position that matches. */
  function Search(line: string, stem: string, from: nat): (m: Option<(string, string)>)
    ensures m.Some? ==>
      exists i :: from <= i <= |line| && MatchKindAt(line, i, stem) == m &&
        forall j :: from <= j < i ==> MatchKindAt(line, j, stem).None?
    ensures m.None? ==> forall i :: from <= i <= |line| ==> MatchKindAt(line, i, stem).None?
    decreases |line| + 1 - from
  {
    if from > |line| then None
    else match MatchKindAt(line, from, stem)
      case Some(g) => Some(g)
      case None => Search(line, stem, from + 1)
  }

  /** The stem of the second pattern: `<board>.menu.FlashSize.<config>`. */
  function MenuStem(board: string, memoryConfig: string): string {
    board + ".menu.FlashSize." + memoryConfig
  }

  /**
   * The two patterns; board name and memory configuration are taken literally.
   * A line matches when either pattern matches somewhere in it, and the
   * second pattern is only consulted when the first matches nowhere.
   */
  function BoardEntry(line: string, board: string, memoryConfig: string): (r: Entry<string>)
    ensures r.None? <==> forall i :: 0 <= i <= |line| ==>
      MatchKindAt(line, i, board).None? && MatchKindAt(line, i, MenuStem(board, memoryConfig)).None?
    ensures r.Some? ==>
      || (exists i :: 0 <= i <= |line| && MatchKindAt(line, i, board) == r &&
            forall j :: 0 <= j < i ==> MatchKindAt(line, j, board).None?)
      || ((forall i :: 0 <= i <= |line| ==> MatchKindAt(line, i, board).None?) &&
          exists i :: 0 <= i <= |line| && MatchKindAt(line, i, MenuStem(board, memoryConfig)) == r &&
            forall j :: 0 <= j < i ==> MatchKindAt(line, j, MenuStem(board, memoryConfig)).None?)
  {
    match Search(line, board, 0)
    case Some(g) => Some(g)
    case None => Search(line, MenuStem(board, memoryConfig), 0)
  }

  function BoardEntries(lines: seq<string>, board: string, memoryConfig: string)
    : (es: seq<Entry<string>>)
    ensures |es| == |lines|
    ensures forall i :: 0 <= i < |lines| ==> es[i] == BoardEntry(lines[i], board, memoryConfig)
  {
    seq(|lines|, i requires 0 <= i < |lines| => BoardEntry(lines[i], board, memoryConfig))
  }

  /** The `spiffs` object after the scan of every line. */
  function ScanOf(boardsText: string, board: string, memoryConfig: string): map<string, string> {
    Fold(map[], BoardEntries(ReadLines(boardsText), board, memoryConfig))
  }

  /** `UploadSpeed` and `ResetMethod` from the project, when truthy, replace `speed` and `resetmethod`. */
  function Overrides(spiffs: map<string, string>, project: Config): (r: map<string, string>)
    ensures forall k :: k != "speed" && k != "resetmethod" ==>
      (k in r <==> k in spiffs) && (k in spiffs ==> r[k] == spiffs[k])
    ensures Truthy(Lookup(project, "UploadSpeed")) ==>
      "speed" in r && r["speed"] == Lookup(project, "UploadSpeed").value
    ensures !Truthy(Lookup(project, "UploadSpeed")) ==>
      ("speed" in r <==> "speed" in spiffs) && ("speed" in spiffs ==> r["speed"] == spiffs["speed"])
    ensures Truthy(Lookup(project, "ResetMethod")) ==>
      "resetmethod" in r && r["resetmethod"] == Lookup(project, "ResetMethod").value
    ensures !Truthy(Lookup(project, "ResetMethod")) ==>
      ("resetmethod" in r <==> "resetmethod" in spiffs) &&
      ("resetmethod" in spiffs ==> r["resetmethod"] == spiffs["resetmethod"])
  {
    var speed := Lookup(project, "UploadSpeed");
    var reset := Lookup(project, "ResetMethod");
    var withSpeed := if Truthy(speed) then spiffs["speed" := speed.value] else spiffs;
    if Truthy(reset) then withSpeed["resetmethod" := reset.value] else withSpeed
  }

  /** `!spiffs[key]`. */
  predicate Missing(spiffs: map<string, string>, key: string) {
    key !in spiffs || spiffs[key] == ""
  }

  /**
   * `getEsp8266spiffs` as a value: `folders` is the listing of the hardware
   * directory (`None` when it does not exist) and `boardsText` the text of
   * `boards.txt` in its one version folder.
   */
  function Esp8266SpiffsOf(folders: Option<seq<string>>, boardsText: string, target: Target,
                           memoryConfig: string, project: Config): (r: Result<map<string, string>, Error>)
    ensures var scan := ScanOf(boardsText, BoardName(target), memoryConfig);
      r.Ok? <==> folders.Some? && |folders.value| == 1
                 && !Missing(scan, "spiffs_start") && !Missing(scan, "spiffs_end")
    ensures r.Ok? ==> r.value == Overrides(ScanOf(boardsText, BoardName(target), memoryConfig), project)
    ensures r.Ok? ==>
      var scan := ScanOf(boardsText, BoardName(target), memoryConfig);
      r.value["spiffs_start"] == scan["spiffs_start"] && r.value["spiffs_end"] == scan["spiffs_end"]
    ensures folders.None? ==> r == Err(PackageNotInstalled)
    ensures folders.Some? && |folders.value| != 1 ==> r == Err(NotOnePackage)
    ensures r.Err? && folders.Some? && |folders.value| == 1 ==>
      var scan := ScanOf(boardsText, BoardName(target), memoryConfig);
      r.error == (if Missing(scan, "spiffs_start") then MissingSpiffsStart else MissingSpiffsEnd)
  {
    if folders.None? then Err(PackageNotInstalled)
    else if |folders.value| != 1 then Err(NotOnePackage)
    else
      var spiffs := ScanOf(boardsText, BoardName(target), memoryConfig);
      if Missing(spiffs, "spiffs_start") then Err(MissingSpiffsStart)
      else if Missing(spiffs, "spiffs_end") then Err(MissingSpiffsEnd)
      else Ok(Overrides(spiffs, project))
  }

  /** The `forEach` over the lines of `boards.txt`, filling `spiffs`. */
  method ScanBoards(lines: seq<string>, board: string, memoryConfig: string)
    returns (spiffs: map<string, string>)
    ensures spiffs == Fold(map[], BoardEntries(lines, board, memoryConfig))
  {
    ghost var es := BoardEntries(lines, board, memoryConfig);
    spiffs := map[];
    var i := 0;
    while i < |lines|
      invariant 0 <= i <= |lines|
      invariant spiffs == Fold(map[], es[..i])
    {
      var found := Search(lines[i], board, 0);
      if found.None? {
        found := Search(lines[i], MenuStem(board, memoryConfig), 0);
      }
      assert found == es[i];
      FoldStep(map[], es, i);
      if found.Some? {
        spiffs := spiffs[found.value.0 := found.value.1];
      }
      i := i + 1;
    }
    assert es[..|lines|] == es;
  }

  /** `getEsp8266spiffs`: the scan, then the required-key checks and the overrides. */
  method GetEsp8266Spiffs(folders: Option<seq<string>>, boardsText: string, target: Target,
                          memoryConfig: string, project: Config)
    returns (r: Result<map<string, string>, Error>)
    ensures r == Esp8266SpiffsOf(folders, boardsText, target, memoryConfig, project)
  {
    if folders.None? {
      return Err(PackageNotInstalled);
    }
    if |folders.value| != 1 {
      return Err(NotOnePackage);
    }
    var spiffs := ScanBoards(ReadLines(boardsText), BoardName(target), memoryConfig);
    if "spiffs_start" !in spiffs || spiffs["spiffs_start"] == "" {
      return Err(MissingSpiffsStart);
    }
    if "spiffs_end" !in spiffs || spiffs["spiffs_end"] == "" {
      return Err(MissingSpiffsEnd);
    }
    var speed := Lookup(project, "UploadSpeed");
    if speed.Some? && speed.value != "" {
      spiffs := spiffs["speed" := speed.value];
    }
    var reset := Lookup(project, "ResetMethod");
    if reset.Some? && reset.value != "" {
      spiffs := spiffs["resetmethod" := reset.value];
    }
    r := Ok(spiffs);
  }

  /** A blank-free text is one `\S*` run. */
  lemma {:induction false} RunCoversAll(t: string)
    requires NoSpace(t)
    ensures NonSpacePrefix(t) == t
    decreases |t|
  {
    if |t| > 0 {
      assert !IsSpace(t[0]) && NoSpace(t[1..]);
      RunCoversAll(t[1..]);
      assert [t[0]] + t[1..] == t;
    }
  }

  /** In `<k>=<v>` with no other `=`, the last `=` is the one after `k`. */
  lemma LastEqualsOfPair(t: string, k: string, v: string)
    requires t == k + "=" + v && k != "" && v != ""
    requires NoneIn(k, {'='}) && NoneIn(v, {'='})
    ensures LastEquals(t, 1, |t| - 1) == Some(|k|)
  {
    assert t[|k|] == '=';
    forall j | |k| < j < |t| - 1 ensures t[j] != '=' {
      assert t[j] == v[j - |k| - 1];
    }
  }

  /** A blank-free `<k>=<v>` with a single `=` has groups `k` and `v`. */
  lemma GroupsOfPair(t: string, k: string, v: string)
    requires t == k + "=" + v
    requires NoSpace(t) && k != "" && v != ""
    requires NoneIn(k, {'='}) && NoneIn(v, {'='})
    ensures Groups(t) == Some((k, v))
  {
    PairRun(t, k, v);
    LastEqualsOfPair(t, k, v);
  }

  /** The blank-free run of `k=v` is all of it, and its pieces are `k` and `v`. */
  lemma PairRun(t: string, k: string, v: string)
    requires t == k + "=" + v
    requires NoSpace(t) && k != "" && v != ""
    ensures |NonSpacePrefix(t)| == |t| >= 3
    ensures t[..|k|] == k && t[|k| + 1..|t|] == v
  {
    RunCoversAll(t);
  }

  /** A blank-free `<prefix><k>=<v>` with a single `=` matches at its start with groups `k` and `v`. */
  lemma MatchAtWholeLine(line: string, prefix: string, k: string, v: string)
    requires line == prefix + k + "=" + v
    requires NoSpace(line) && k != "" && v != ""
    requires NoneIn(k, {'='}) && NoneIn(v, {'='})
    ensures MatchAt(line, 0, prefix) == Some((k, v))
  {
    var t := line[|prefix|..];
    assert t == k + "=" + v;
    assert line[0..] == line;
    GroupsOfPair(t, k, v);
  }

  /** Two blank-free texts joined are blank-free. */
  lemma NoSpaceAppend(a: string, b: string)
    requires NoSpace(a) && NoSpace(b)
    ensures NoSpace(a + b)
  {
    forall j | |a| <= j < |a + b| ensures !IsSpace((a + b)[j]) {
      assert (a + b)[j] == b[j - |a|];
    }
  }

  /** Blank-free text built from blank-free pieces. */
  lemma NoSpaceLine(board: string, kind: string, k: string, v: string)
    requires NoSpace(board) && NoSpace(kind) && NoSpace(k) && NoSpace(v)
    ensures NoSpace(board + kind + k + "=" + v)
  {
    var line := board + kind + k + "=" + v;
    forall j | 0 <= j < |line| ensures !IsSpace(line[j]) {
      if j < |board| { assert line[j] == board[j]; }
      else if j < |board| + |kind| { assert line[j] == kind[j - |board|]; }
      else if j < |board| + |kind| + |k| { assert line[j] == k[j - |board| - |kind|]; }
      else if j > |board| + |kind| + |k| { assert line[j] == v[j - |board| - |kind| - |k| - 1]; }
    }
  }

  /**
   * A line `<board>.build.<k>=<v>` or `<board>.upload.<k>=<v>` without blanks
   * and with a single `=` assigns `k` the value `v`.
   */
  lemma BoardEntryOfKindLine(board: string, memoryConfig: string, kind: string, k: string, v: string)
    requires kind == ".build." || kind == ".upload."
    requires k != "" && v != "" && NoneIn(k, {'='}) && NoneIn(v, {'='})
    requires NoSpace(board) && NoSpace(k) && NoSpace(v)
    ensures BoardEntry(board + kind + k + "=" + v, board, memoryConfig) == Some((k, v))
  {
    KindMatchAtStart(board, kind, k, v);
  }

  /**
   * A line `<board>.menu.FlashSize.<config>.build.<k>=<v>` (or `.upload.`)
   * without blanks and with a single `=` assigns `k` the value `v`, provided
   * the first pattern finds no `<board>.build.` or `<board>.upload.` in it.
   */
  lemma BoardEntryOfMenuLine(board: string, memoryConfig: string, kind: string, k: string, v: string)
    requires kind == ".build." || kind == ".upload."
    requires k != "" && v != "" && NoneIn(k, {'='}) && NoneIn(v, {'='})
    requires NoSpace(board) && NoSpace(memoryConfig) && NoSpace(k) && NoSpace(v)
    requires var line := MenuStem(board, memoryConfig) + kind + k + "=" + v;
      forall i :: 0 <= i <= |line| ==> !OccursAt(line, board + ".build.", i) && !OccursAt(line, board + ".upload.", i)
    ensures BoardEntry(MenuStem(board, memoryConfig) + kind + k + "=" + v, board, memoryConfig) == Some((k, v))
  {
    var stem := MenuStem(board, memoryConfig);
    var line := stem + kind + k + "=" + v;
    NoSpaceAppend(board, ".menu.FlashSize.");
    NoSpaceAppend(board + ".menu.FlashSize.", memoryConfig);
    KindMatchAtStart(stem, kind, k, v);
    FirstPatternAbsent(line, board);
  }

  /** `<stem><kind><k>=<v>`, blank-free with a single `=`, matches `<stem>` at its start. */
  lemma KindMatchAtStart(stem: string, kind: string, k: string, v: string)
    requires kind == ".build." || kind == ".upload."
    requires k != "" && v != "" && NoneIn(k, {'='}) && NoneIn(v, {'='})
    requires NoSpace(stem) && NoSpace(k) && NoSpace(v)
    ensures MatchKindAt(stem + kind + k + "=" + v, 0, stem) == Some((k, v))
  {
    NoSpaceLine(stem, kind, k, v);
    if kind == ".build." {
      MatchAtWholeLine(stem + ".build." + k + "=" + v, stem + ".build.", k, v);
    } else {
      UploadMatchAtStart(stem, k, v);
    }
  }

  /** With `.upload.`, the `build` branch fails at `u` and the `upload` branch matches. */
  lemma UploadMatchAtStart(stem: string, k: string, v: string)
    requires k != "" && v != "" && NoneIn(k, {'='}) && NoneIn(v, {'='})
    requires NoSpace(stem + ".upload." + k + "=" + v)
    ensures MatchKindAt(stem + ".upload." + k + "=" + v, 0, stem) == Some((k, v))
  {
    var line := stem + ".upload." + k + "=" + v;
    MatchAtWholeLine(line, stem + ".upload.", k, v);
    assert line[0..] == line && line[|stem| + 1] == 'u';
    assert (stem + ".build.")[|stem| + 1] == 'b';
  }

  /** A line holding neither `<stem>.build.` nor `<stem>.upload.` does not match. */
  lemma FirstPatternAbsent(line: string, stem: string)
    requires forall i :: 0 <= i <= |line| ==> !OccursAt(line, stem + ".build.", i) && !OccursAt(line, stem + ".upload.", i)
    ensures Search(line, stem, 0).None?
  {
    forall i | 0 <= i <= |line| ensures MatchKindAt(line, i, stem).None? {
      assert !OccursAt(line, stem + ".build.", i) && !OccursAt(line, stem + ".upload.", i);
    }
  }

  /** A key gets the value of the last line whose match assigns it, in file order. */
  lemma ScanLastMatchWins(boardsText: string, board: string, memoryConfig: string, i: int)
    requires var lines := ReadLines(boardsText);
      0 <= i < |lines| && BoardEntry(lines[i], board, memoryConfig).Some?
    requires var lines := ReadLines(boardsText);
      var k := BoardEntry(lines[i], board, memoryConfig).value.0;
      forall j :: i < j < |lines| && BoardEntry(lines[j], board, memoryConfig).Some? ==>
        BoardEntry(lines[j], board, memoryConfig).value.0 != k
    ensures var g := BoardEntry(ReadLines(boardsText)[i], board, memoryConfig).value;
      g.0 in ScanOf(boardsText, board, memoryConfig) && ScanOf(boardsText, board, memoryConfig)[g.0] == g.1
  {
    var lines := ReadLines(boardsText);
    var es := BoardEntries(lines, board, memoryConfig);
    FoldLastWins(map[], es, es[i].value.0, i);
  }

  /** Every key of the scan comes from a line that matched one of the two patterns. */
  lemma ScanKeyHasLine(boardsText: string, board: string, memoryConfig: string, k: string)
    requires k in ScanOf(boardsText, board, memoryConfig)
    ensures var lines := ReadLines(boardsText);
      exists i :: 0 <= i < |lines| && BoardEntry(lines[i], board, memoryConfig).Some? &&
        BoardEntry(lines[i], board, memoryConfig).value.0 == k
  {
    var lines := ReadLines(boardsText);
    var es := BoardEntries(lines, board, memoryConfig);
    FoldKeys(map[], es, k);
  }
}
