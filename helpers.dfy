/** `program`, `getToolPath`'s folder rule, `getPort`, `isIP` and `makeOsPath`. */
module Helpers {
  import opened Wrappers
  import opened Strings
  import opened Readers

  /** `program`: on win32 a name without `.` gets the `.exe` suffix. */
  function Program(name: string, os: string): (r: string)
    ensures os == "win32" && '.' !in name ==> r == name + ".exe"
    ensures !(os == "win32" && '.' !in name) ==> r == name
  {
    if os == "win32" && '.' !in name then name + ".exe" else name
  }

  /** Applying `program` twice is the same as applying it once. */
  lemma ProgramIdempotent(name: string, os: string)
    ensures Program(Program(name, os), os) == Program(name, os)
  {
    if os == "win32" && '.' !in name {
      var named := name + ".exe";
      assert named[|name|] == '.';
    }
  }

  /** `path.join` of two parts (no normalisation of `..` or repeated separators). */
  function JoinPath(os: string, dir: string, name: string): string {
    dir + [if os == "win32" then '\\' else '/'] + name
  }

  /** `<toolsPath>/<tool>/<version>/<program(tool)>`. */
  function ToolFile(toolsPath: string, tool: string, version: string, os: string): string {
    JoinPath(os, JoinPath(os, JoinPath(os, toolsPath, tool), version), Program(tool, os))
  }

  /**
   * `getToolPath`: `listing` is the content of `<toolsPath>/<tool>` (`None`
   * when that directory does not exist) and `files` the files that exist.
   * Exactly one version folder is required, holding the tool's program.
   */
  function GetToolPath(toolsPath: string, tool: string, os: string,
                       listing: Option<seq<string>>, files: set<string>): (r: Result<string, Error>)
    ensures r.Ok? <==>
      listing.Some? && |listing.value| == 1 && ToolFile(toolsPath, tool, listing.value[0], os) in files
    ensures r.Ok? ==>
      r.value in files && r.value == ToolFile(toolsPath, tool, listing.value[0], os)
    ensures listing.None? ==> r == Err(ToolDirMissing(tool))
    ensures listing.Some? && |listing.value| != 1 ==> r == Err(NotOneTool(tool))
    ensures listing.Some? && |listing.value| == 1 && ToolFile(toolsPath, tool, listing.value[0], os) !in files ==>
      r == Err(ToolFileMissing(ToolFile(toolsPath, tool, listing.value[0], os)))
  {
    if listing.None? then Err(ToolDirMissing(tool))
    else if |listing.value| != 1 then Err(NotOneTool(tool))
    else
      var file := ToolFile(toolsPath, tool, listing.value[0], os);
      if file !in files then Err(ToolFileMissing(file)) else Ok(file)
  }

  /** One version folder resolves; none or two are refused whatever files exist. */
  lemma GetToolPathOneVersion(files: set<string>)
    ensures var file := "tools/mkspiffs/2.5.0-4-b40a1b0/mkspiffs";
      file in files ==> GetToolPath("tools", "mkspiffs", "linux", Some(["2.5.0-4-b40a1b0"]), files) == Ok(file)
  {
    assert Program("mkspiffs", "linux") == "mkspiffs" by {
      assert "linux"[0] != "win32"[0];
    }
    var dir := JoinPath("linux", "tools", "mkspiffs");
    assert dir == "tools/mkspiffs";
    var versioned := JoinPath("linux", dir, "2.5.0-4-b40a1b0");
    assert versioned == "tools/mkspiffs/2.5.0-4-b40a1b0";
    assert JoinPath("linux", versioned, "mkspiffs") == "tools/mkspiffs/2.5.0-4-b40a1b0/mkspiffs";
  }

  /** No installed version, or two of them, is an error naming the tool. */
  lemma GetToolPathNotOneVersion(files: set<string>)
    ensures GetToolPath("tools", "mkspiffs", "linux", Some([]), files) == Err(NotOneTool("mkspiffs"))
    ensures GetToolPath("tools", "mkspiffs", "linux", Some(["2.5.0", "2.6.0"]), files)
      == Err(NotOneTool("mkspiffs"))
  {
  }

  /** `getPort`: a truthy `port` in the project, else the `serial.port` preference. */
  function GetPort(project: Config, preferences: Config): (port: Option<string>)
    ensures Truthy(Lookup(project, "port")) ==> port == Lookup(project, "port")
    ensures !Truthy(Lookup(project, "port")) ==> port == Lookup(preferences, "serial.port")
  {
    var port := Lookup(project, "port");
    if Truthy(port) then port else Lookup(preferences, "serial.port")
  }

  predicate DigitsIn(s: string, lo: int, hi: int) {
    0 <= lo < hi <= |s| && forall k :: lo <= k < hi ==> IsDigit(s[k])
  }

  /**
   * `/^(\d+)\.(\d+).(\d+).(\d+)$/` split at its three single-character atoms:
   * a literal `.` at `p`, and at `i` and `j` an unescaped `.`, which matches
   * any character but a line terminator.
   */
  predicate IPShape(s: string, p: int, i: int, j: int)
    requires 0 < p < i < j < |s|
  {
    && DigitsIn(s, 0, p) && s[p] == '.'
    && DigitsIn(s, p + 1, i) && !IsLineTerminator(s[i])
    && DigitsIn(s, i + 1, j) && !IsLineTerminator(s[j])
    && DigitsIn(s, j + 1, |s|)
  }

  /**
   * `isIP`: whether the whole port string matches the pattern. An accepted
   * port starts and ends with a digit, contains `.` and has at least 7
   * characters, so no serial device name is routed to the network.
   */
  predicate IsIP(port: string)
    ensures IsIP(port) ==>
      |port| >= 7 && IsDigit(port[0]) && IsDigit(port[|port| - 1]) && '.' in port
  {
    exists p, i, j | 0 < p < i < j < |port| :: IPShape(port, p, i, j)
  }

  /** Every dotted quad of decimal numbers is classified as a network address. */
  lemma DottedQuadIsIP(a: string, b: string, c: string, d: string)
    requires a != "" && b != "" && c != "" && d != ""
    requires AllDigits(a) && AllDigits(b) && AllDigits(c) && AllDigits(d)
    ensures IsIP(a + "." + b + "." + c + "." + d)
  {
    var s := a + "." + b + "." + c + "." + d;
    var p := |a|;
    var i := p + 1 + |b|;
    var j := i + 1 + |c|;
    assert forall k :: 0 <= k < p ==> s[k] == a[k];
    assert forall k :: p + 1 <= k < i ==> s[k] == b[k - p - 1];
    assert forall k :: i + 1 <= k < j ==> s[k] == c[k - i - 1];
    assert forall k :: j + 1 <= k < |s| ==> s[k] == d[k - j - 1];
    assert IPShape(s, p, i, j);
  }

  /** A dotted quad is a network address. */
  lemma DottedQuadExample()
    ensures IsIP("192.168.1.5")
  {
    DottedQuadIsIP("192", "168", "1", "5");
    assert "192" + "." + "168" + "." + "1" + "." + "5" == "192.168.1.5";
  }

  /** The unescaped `.` lets a port with a single `.` through as a network address. */
  lemma UnescapedDotExample()
    ensures IsIP("1.23456")
  {
    assert IPShape("1.23456", 1, 3, 5);
  }

  /** Two serial device names. */
  lemma SerialExamples()
    ensures !IsIP("COM6")
    ensures !IsIP("/dev/ttyUSB0")
  {
    assert "/dev/ttyUSB0"[0] == '/';
  }

  /** `/` in place of `\`, any other character unchanged. */
  function Slash(c: char): char {
    if c == '\\' then '/' else c
  }

  /** `s` between double quotes. */
  function Quote(s: string): (q: string)
    ensures |q| == |s| + 2 && q[0] == '"' && q[|q| - 1] == '"'
    ensures forall i :: 1 <= i < |q| - 1 ==> q[i] == s[i - 1]
  {
    "\"" + s + "\""
  }

  /**
   * `makeOsPath`: every `\` becomes `/`, and a path holding a space is
   * wrapped in double quotes.
   */
  function MakeOsPath(dir: string): (r: string)
    ensures forall i :: 0 <= i < |r| ==> r[i] != '\\'
    ensures ' ' in dir ==>
      && |r| == |dir| + 2 && r[0] == '"' && r[|r| - 1] == '"'
      && forall i :: 0 <= i < |dir| ==> r[i + 1] == Slash(dir[i])
    ensures ' ' !in dir ==>
      |r| == |dir| && forall i :: 0 <= i < |dir| ==> r[i] == Slash(dir[i])
  {
    var slashed := ReplaceAll(dir, '\\', '/');
    if ' ' in dir then
      var q := Quote(slashed);
      assert forall i :: 0 <= i < |dir| ==> q[i + 1] == slashed[i];
      q
    else slashed
  }
}
