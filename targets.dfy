/** `_getTarget`, `getTarget` and `_getMemoryConfiguration`. */
module Targets {
  import opened Wrappers
  import opened Strings
  import opened Readers

  /** The selected board; a field is `undefined` when its source has none. */
  datatype Target = Target(package: Option<string>, architecture: Option<string>, board: Option<string>)

  const Esp8266 := "esp8266"

  /** `values[i]`, `undefined` past the end. */
  function Nth(values: seq<string>, i: nat): Option<string> {
    if i < |values| then Some(values[i]) else None
  }

  /**
   * `_getTarget`: a truthy `board` in the project configuration is split on
   * `:` into package, architecture and board; otherwise the three fields come
   * from the preferences `target_package`, `target_platform` and `board`.
   */
  function TargetOf(project: Config, preferences: Config): (t: Target)
    ensures !Truthy(Lookup(project, "board")) ==>
      t == Target(Lookup(preferences, "target_package"), Lookup(preferences, "target_platform"),
                  Lookup(preferences, "board"))
    ensures Truthy(Lookup(project, "board")) ==>
      var board := Lookup(project, "board").value;
      && t.package.Some? && t.package.value <= board
      && (t.architecture.None? <==> NoneIn(board, {':'}))
      && (t.architecture.None? ==> t.package.value == board && t.board.None?)
    ensures Truthy(Lookup(project, "board")) ==>
      && (t.package.Some? ==> NoneIn(t.package.value, {':'}))
      && (t.architecture.Some? ==> NoneIn(t.architecture.value, {':'}))
      && (t.board.Some? ==> NoneIn(t.board.value, {':'}))
  {
    var board := Lookup(project, "board");
    if !Truthy(board) then
      Target(Lookup(preferences, "target_package"), Lookup(preferences, "target_platform"),
             Lookup(preferences, "board"))
    else
      var values := Split(board.value, {':'});
      SplitHead(board.value, {':'});
      Target(Nth(values, 0), Nth(values, 1), Nth(values, 2))
  }

  /** `getTarget`: only an ESP8266 package and architecture are accepted. */
  function GetTarget(project: Config, preferences: Config): (r: Result<Target, Error>)
    ensures r.Ok? <==>
      TargetOf(project, preferences).package == Some(Esp8266) &&
      TargetOf(project, preferences).architecture == Some(Esp8266)
    ensures r.Ok? ==> r.value == TargetOf(project, preferences)
    ensures r.Err? ==> r.error == NotEsp8266
  {
    var target := TargetOf(project, preferences);
    if target.package != Some(Esp8266) || target.architecture != Some(Esp8266) then Err(NotEsp8266)
    else Ok(target)
  }

  /** A board string `a:b:c` gives exactly the fields `a`, `b` and `c`. */
  lemma TargetOfBoardString(project: Config, preferences: Config, a: string, b: string, c: string)
    requires NoneIn(a, {':'}) && NoneIn(b, {':'}) && NoneIn(c, {':'})
    requires Lookup(project, "board") == Some(a + ":" + b + ":" + c)
    ensures TargetOf(project, preferences) == Target(Some(a), Some(b), Some(c))
  {
    var parts := [a, b, c];
    assert JoinWith(parts, ':') == a + ":" + b + ":" + c by {
      assert JoinWith(parts[1..], ':') == b + ":" + c by {
        assert parts[1..][1..] == [c];
      }
    }
    SplitJoin(parts, {':'}, ':');
  }

  /** `esp8266:esp8266:nodemcu` is accepted with board `nodemcu`. */
  lemma GetTargetNodemcu(preferences: Config)
    ensures GetTarget(map["board" := Some("esp8266:esp8266:nodemcu")], preferences)
      == Ok(Target(Some("esp8266"), Some("esp8266"), Some("nodemcu")))
  {
    var project := map["board" := Some("esp8266:esp8266:nodemcu")];
    var joined := "esp8266" + ":" + "esp8266" + ":" + "nodemcu";
    assert forall i :: 0 <= i < |joined| ==> joined[i] == "esp8266:esp8266:nodemcu"[i];
    assert joined == "esp8266:esp8266:nodemcu";
    assert "board" in project;
    assert Lookup(project, "board") == Some(joined);
    TargetOfBoardString(project, preferences, "esp8266", "esp8266", "nodemcu");
  }

  /** `avr:avr:uno` is rejected. */
  lemma GetTargetAvr(preferences: Config)
    ensures GetTarget(map["board" := Some("avr:avr:uno")], preferences) == Err(NotEsp8266)
  {
    var project := map["board" := Some("avr:avr:uno")];
    var joined := "avr" + ":" + "avr" + ":" + "uno";
    assert forall i :: 0 <= i < |joined| ==> joined[i] == "avr:avr:uno"[i];
    assert joined == "avr:avr:uno";
    assert "board" in project;
    assert Lookup(project, "board") == Some(joined);
    TargetOfBoardString(project, preferences, "avr", "avr", "uno");
    assert "avr" != Esp8266;
  }

  /** `${target.board}` in a template string: `undefined` prints as "undefined". */
  function BoardName(target: Target): string {
    if target.board.Some? then target.board.value else "undefined"
  }

  /**
   * The regular-expression literal `/^${target.board}_(\S+)/`: inside a
   * literal nothing is interpolated, `$` asserts the end of the input and
   * `{target.board}_` is matched character by character, its unescaped `.`
   * standing for any character but a line terminator. A match must start at
   * 0, sit at the end of the input, and be followed by that text and a
   * non-blank run, which no input satisfies.
   */
  const LiteralText := "{target.board}_"

  /** `{target.board}_` matches at the start of `s`. */
  predicate LiteralTextAt(s: string) {
    |s| >= |LiteralText| &&
    forall i :: 0 <= i < |LiteralText| ==>
      if LiteralText[i] == '.' then !IsLineTerminator(s[i]) else s[i] == LiteralText[i]
  }

  function LiteralPatternMatch(s: string): (group: Option<string>)
    ensures group.None?
  {
    var run := NonSpacePrefix(Drop(s, |LiteralText|));
    if 0 == |s| && LiteralTextAt(s) && run != "" then Some(run) else None
  }

  /**
   * `_getMemoryConfiguration`, as written: a truthy `FlashSize` is returned,
   * else `custom_FlashSize` is matched against the literal pattern above.
   */
  function MemoryConfiguration(project: Config, preferences: Config): (r: Result<string, Error>)
    ensures r.Ok? ==> Truthy(Lookup(project, "FlashSize")) && Some(r.value) == Lookup(project, "FlashSize")
    ensures r.Err? ==> r.error == NoFlashSize
  {
    var flash := Lookup(project, "FlashSize");
    if Truthy(flash) then Ok(flash.value)
    else
      var custom := Lookup(preferences, "custom_FlashSize");
      if !Truthy(custom) then Err(NoFlashSize)
      else match LiteralPatternMatch(custom.value)
        case Some(group) => Ok(group)
        case None => Err(NoFlashSize)
  }

  /** A truthy `FlashSize` is returned unchanged; without one the call throws. */
  lemma MemoryConfigurationIsFlashSize(project: Config, preferences: Config)
    ensures Truthy(Lookup(project, "FlashSize")) ==>
      MemoryConfiguration(project, preferences) == Ok(Lookup(project, "FlashSize").value)
    ensures !Truthy(Lookup(project, "FlashSize")) ==>
      MemoryConfiguration(project, preferences) == Err(NoFlashSize)
  {
  }

  /** The preference `nodemcuv2_4M1M` for board `nodemcuv2` still throws. */
  lemma MemoryConfigurationIgnoresPreference()
    ensures MemoryConfiguration(map[], map["custom_FlashSize" := Some("nodemcuv2_4M1M")])
      == Err(NoFlashSize)
  {
    MemoryConfigurationIsFlashSize(map[], map["custom_FlashSize" := Some("nodemcuv2_4M1M")]);
  }

  /**
   * The evidently intended fallback, `^<board>_(\S+)` with the board name
   * interpolated: the non-blank text after the `<board>_` prefix.
   */
  function IntendedMemoryConfiguration(project: Config, preferences: Config, target: Target)
    : (r: Result<string, Error>)
    ensures Truthy(Lookup(project, "FlashSize")) ==> r == Ok(Lookup(project, "FlashSize").value)
    ensures !Truthy(Lookup(project, "FlashSize")) ==>
      var custom := Lookup(preferences, "custom_FlashSize");
      var prefix := BoardName(target) + "_";
      && (r.Ok? <==> Truthy(custom) && prefix <= custom.value
                     && |custom.value| > |prefix| && !IsSpace(custom.value[|prefix|]))
      && (r.Ok? ==>
            && prefix + r.value <= custom.value
            && r.value != "" && NoSpace(r.value)
            && (|prefix + r.value| == |custom.value| || IsSpace(custom.value[|prefix + r.value|])))
    ensures r.Err? ==> r.error == NoFlashSize
  {
    var flash := Lookup(project, "FlashSize");
    if Truthy(flash) then Ok(flash.value)
    else
      var custom := Lookup(preferences, "custom_FlashSize");
      var prefix := BoardName(target) + "_";
      if Truthy(custom) && prefix <= custom.value && NonSpacePrefix(custom.value[|prefix|..]) != "" then
        assert custom.value == prefix + custom.value[|prefix|..];
        Ok(NonSpacePrefix(custom.value[|prefix|..]))
      else Err(NoFlashSize)
  }

  /** For board `nodemcuv2`, the preference `nodemcuv2_4M1M` selects `4M1M`. */
  lemma IntendedMemoryConfigurationExample()
    ensures IntendedMemoryConfiguration(map[], map["custom_FlashSize" := Some("nodemcuv2_4M1M")],
                                        Target(Some("esp8266"), Some("esp8266"), Some("nodemcuv2")))
      == Ok("4M1M")
  {
    var s := "nodemcuv2_4M1M";
    assert "nodemcuv2_" <= s;
    assert s[10..] == "4M1M";
    assert NonSpacePrefix("4M1M") == "4M1M" by {
      assert NonSpacePrefix("") == "";
      assert "4M1M"[1..] == "M1M" && "M1M"[1..] == "1M" && "1M"[1..] == "M" && "M"[1..] == "";
    }
  }
}
