/**
 * The commands `packFiles`, `upload` and `uploadOTA` hand to `runCommand`,
 * and the serial/network choice `_uploadFsData` makes with `isIP`.
 */
module Commands {
  import opened Wrappers
  import opened Strings
  import opened Dict
  import opened Numbers
  import opened Helpers

  /** An element of the argument array: a string, a number (`None` is `NaN`) or `undefined`. */
  datatype Arg = Text(text: string) | Number(n: Option<int>) | Undefined

  datatype Command = Command(program: string, args: seq<Arg>)

  /** `spiffs[key] || fallback`. */
  function FieldOr(spiffs: map<string, string>, key: string, fallback: string): string {
    if key in spiffs && spiffs[key] != "" then spiffs[key] else fallback
  }

  /** Image size, page size and block size as `packFiles` computes them. */
  datatype Geometry = Geometry(size: Option<int>, page: Option<int>, block: Option<int>)

  /**
   * `dataSize = stringToInt(spiffs_end) - stringToInt(spiffs_start)`, and the
   * page and block sizes with their defaults 256 and 4096.
   */
  function GeometryOf(spiffs: map<string, string>): (r: Result<Geometry, Error>)
    ensures r.Ok? <==> "spiffs_start" in spiffs && "spiffs_end" in spiffs
    ensures r.Err? ==> r.error == UndefinedValue
    ensures r.Ok? ==>
      r.value.size == Minus(StringToInt(Some(spiffs["spiffs_end"])).value, StringToInt(Some(spiffs["spiffs_start"])).value)
    ensures r.Ok? && FieldOr(spiffs, "spiffs_pagesize", "") == "" ==> r.value.page == Some(256)
    ensures r.Ok? && FieldOr(spiffs, "spiffs_blocksize", "") == "" ==> r.value.block == Some(4096)
    ensures r.Ok? && FieldOr(spiffs, "spiffs_pagesize", "") != "" ==>
      r.value.page == StringToInt(Some(spiffs["spiffs_pagesize"])).value
    ensures r.Ok? && FieldOr(spiffs, "spiffs_blocksize", "") != "" ==>
      r.value.block == StringToInt(Some(spiffs["spiffs_blocksize"])).value
  {
    DefaultPageSize();
    DefaultBlockSize();
    if "spiffs_start" in spiffs && "spiffs_end" in spiffs then
      var end := StringToInt(Some(spiffs["spiffs_end"])).value;
      var start := StringToInt(Some(spiffs["spiffs_start"])).value;
      var page := StringToInt(Some(FieldOr(spiffs, "spiffs_pagesize", "256"))).value;
      var block := StringToInt(Some(FieldOr(spiffs, "spiffs_blocksize", "4096"))).value;
      Ok(Geometry(Minus(end, start), page, block))
    else Err(UndefinedValue)
  }

  /** The `size` figure `packFiles` logs: `dataSize >> 10`. */
  function DataSizeInK(g: Geometry): int {
    ShiftRight10(g.size)
  }

  /**
   * The command `packFiles` runs: `<mkspiffs> -c <data> -p <page> -b <block>
   * -s <size> <image>`, the paths already made OS paths.
   */
  function PackCommand(mkspiffs: string, data: string, g: Geometry, image: string): (c: Command)
    ensures c.program == mkspiffs && |c.args| == 9
    ensures c.args[0] == Text("-c") && c.args[1] == Text(data)
    ensures c.args[2] == Text("-p") && c.args[3] == Number(g.page)
    ensures c.args[4] == Text("-b") && c.args[5] == Number(g.block)
    ensures c.args[6] == Text("-s") && c.args[7] == Number(g.size)
    ensures c.args[8] == Text(image)
  {
    Command(mkspiffs,
      [Text("-c"), Text(data), Text("-p"), Number(g.page), Text("-b"), Number(g.block),
       Text("-s"), Number(g.size), Text(image)])
  }

  /** `packFiles`: fails exactly when the geometry does; the paths go through `makeOsPath`. */
  function PackFiles(mkspiffs: string, dataPath: string, spiffs: map<string, string>, imagePath: string)
    : (r: Result<Command, Error>)
    ensures r.Ok? <==> GeometryOf(spiffs).Ok?
    ensures r.Err? ==> r.error == UndefinedValue
    ensures r.Ok? ==>
      r.value == PackCommand(MakeOsPath(mkspiffs), MakeOsPath(dataPath), GeometryOf(spiffs).value, MakeOsPath(imagePath))
  {
    match GeometryOf(spiffs)
    case Err(e) => Err(e)
    case Ok(g) => Ok(PackCommand(MakeOsPath(mkspiffs), MakeOsPath(dataPath), g, MakeOsPath(imagePath)))
  }

  /** With hexadecimal offsets, the packed size is their difference. */
  lemma PackedSizeOfHexOffsets(spiffs: map<string, string>, start: string, end: string)
    requires start != "" && AllHexDigits(start) && end != "" && AllHexDigits(end)
    requires "spiffs_start" in spiffs && spiffs["spiffs_start"] == "0x" + start
    requires "spiffs_end" in spiffs && spiffs["spiffs_end"] == "0x" + end
    ensures GeometryOf(spiffs).Ok?
    ensures GeometryOf(spiffs).value.size == Some(ValueOf(end, 16) - ValueOf(start, 16))
  {
    HexOffsetsDifference(spiffs["spiffs_start"], spiffs["spiffs_end"], start, end);
  }

  /** `stringToInt(end) - stringToInt(start)` for offsets written `0x<start>` and `0x<end>`. */
  lemma HexOffsetsDifference(startText: string, endText: string, start: string, end: string)
    requires start != "" && AllHexDigits(start) && startText == "0x" + start
    requires end != "" && AllHexDigits(end) && endText == "0x" + end
    ensures Minus(StringToInt(Some(endText)).value, StringToInt(Some(startText)).value)
      == Some(ValueOf(end, 16) - ValueOf(start, 16))
  {
    HexOffset(startText, start);
    HexOffset(endText, end);
  }

  /** An offset written `0x<h>` reads as the value of `h`. */
  lemma HexOffset(v: string, h: string)
    requires h != "" && AllHexDigits(h) && v == "0x" + h
    ensures StringToInt(Some(v)) == Ok(Some(ValueOf(h, 16) as int))
  {
    assert v == ['0', 'x'] + h;
    StringToIntHex('x', h);
  }

  lemma OffsetValues()
    ensures AllHexDigits("100000") && ValueOf("100000", 16) == 0x100000
    ensures AllHexDigits("300000") && ValueOf("300000", 16) == 0x300000
  {
    assert "100000"[..5] == "10000" && "10000"[..4] == "1000" && "1000"[..3] == "100";
    assert "100"[..2] == "10" && "10"[..1] == "1" && "1"[..0] == "";
    assert "300000"[..5] == "30000" && "30000"[..4] == "3000" && "3000"[..3] == "300";
    assert "300"[..2] == "30" && "30"[..1] == "3" && "3"[..0] == "";
  }

  /** Offsets 0x100000 and 0x300000 give a 0x200000-byte (2048K) image with default page and block. */
  lemma PackExample()
    ensures var spiffs := map["spiffs_start" := "0x100000", "spiffs_end" := "0x300000"];
      && GeometryOf(spiffs) == Ok(Geometry(Some(0x200000), Some(256), Some(4096)))
      && DataSizeInK(GeometryOf(spiffs).value) == 2048
  {
    var spiffs := map["spiffs_start" := "0x100000", "spiffs_end" := "0x300000"];
    assert "0x100000" == "0x" + "100000" && "0x300000" == "0x" + "300000";
    OffsetValues();
    PackedSizeOfHexOffsets(spiffs, "100000", "300000");
    assert "spiffs_pagesize" !in spiffs && "spiffs_blocksize" !in spiffs;
    assert ShiftRight10(Some(0x200000)) == 0x200000 / 1024;
  }

  function ArgOf(v: Option<string>): Arg {
    if v.Some? then Text(v.value) else Undefined
  }

  /**
   * The command `upload` runs: `<esptool> -ca <address> -cd <reset> -cp <port>
   * -cb <speed> -cf <image>`, the tool and the image already made OS paths.
   */
  function UploadCommand(esptool: string, address: Option<int>, resetMethod: Option<string>,
                         serialPort: Option<string>, speed: Option<int>, image: string): (c: Command)
    ensures c.program == esptool && |c.args| == 10
    ensures c.args[0] == Text("-ca") && c.args[1] == Number(address)
    ensures c.args[2] == Text("-cd") && c.args[3] == ArgOf(resetMethod)
    ensures c.args[4] == Text("-cp") && c.args[5] == ArgOf(serialPort)
    ensures c.args[6] == Text("-cb") && c.args[7] == Number(speed)
    ensures c.args[8] == Text("-cf") && c.args[9] == Text(image)
  {
    Command(esptool,
      [Text("-ca"), Number(address), Text("-cd"), ArgOf(resetMethod), Text("-cp"), ArgOf(serialPort),
       Text("-cb"), Number(speed), Text("-cf"), Text(image)])
  }

  /**
   * `upload`: the address is `spiffs_start` and the speed `speed`, both read
   * by `stringToInt`, which throws when either is `undefined`; the tool and
   * the image go through `makeOsPath`.
   */
  function Upload(esptool: string, spiffs: map<string, string>, serialPort: Option<string>, imagePath: string)
    : (r: Result<Command, Error>)
    ensures r.Ok? <==> "spiffs_start" in spiffs && "speed" in spiffs
    ensures r.Err? ==> r.error == UndefinedValue
    ensures r.Ok? ==>
      r.value == UploadCommand(MakeOsPath(esptool), StringToInt(Some(spiffs["spiffs_start"])).value,
                               Get(spiffs, "resetmethod"), serialPort, StringToInt(Some(spiffs["speed"])).value,
                               MakeOsPath(imagePath))
  {
    if "spiffs_start" in spiffs && "speed" in spiffs then
      Ok(UploadCommand(MakeOsPath(esptool), StringToInt(Some(spiffs["spiffs_start"])).value,
                       Get(spiffs, "resetmethod"), serialPort, StringToInt(Some(spiffs["speed"])).value,
                       MakeOsPath(imagePath)))
    else Err(UndefinedValue)
  }

  /** `uploadOTA`: `<python> <espota> -i <port> -s -f <image>`. */
  function UploadOTA(pythonCmd: string, espota: string, serialPort: Option<string>, imagePath: string)
    : (c: Command)
    ensures c.program == MakeOsPath(pythonCmd) && |c.args| == 6
    ensures c.args[0] == Text(MakeOsPath(espota)) && c.args[1] == Text("-i") && c.args[2] == ArgOf(serialPort)
    ensures c.args[3] == Text("-s") && c.args[4] == Text("-f") && c.args[5] == Text(MakeOsPath(imagePath))
  {
    Command(MakeOsPath(pythonCmd),
      [Text(MakeOsPath(espota)), Text("-i"), ArgOf(serialPort), Text("-s"), Text("-f"), Text(MakeOsPath(imagePath))])
  }

  datatype Transport = Network | Serial

  /**
   * The choice at the start of the upload step: a port `isIP` accepts goes
   * over the network through `espota.py`, any other over serial through
   * `esptool`; `isIP(undefined)` throws.
   */
  function TransportOf(port: Option<string>): (r: Result<Transport, Error>)
    ensures port.None? <==> r == Err(UndefinedValue)
    ensures port.Some? ==> (r == Ok(Network) <==> IsIP(port.value))
    ensures port.Some? ==> (r == Ok(Serial) <==> !IsIP(port.value))
  {
    if port.None? then Err(UndefinedValue)
    else if IsIP(port.value) then Ok(Network) else Ok(Serial)
  }

  /** The tool each transport runs. */
  function ToolOf(t: Transport): string {
    if t == Network then "espota.py" else "esptool"
  }

  /** `192.168.1.5` and `1.23456` go to `espota.py`; `COM6` and `/dev/ttyUSB0` to `esptool`. */
  lemma TransportRouting()
    ensures TransportOf(Some("192.168.1.5")) == Ok(Network)
    ensures TransportOf(Some("1.23456")) == Ok(Network)
    ensures TransportOf(Some("COM6")) == Ok(Serial)
    ensures TransportOf(Some("/dev/ttyUSB0")) == Ok(Serial)
    ensures ToolOf(TransportOf(Some("192.168.1.5")).value) == "espota.py"
    ensures ToolOf(TransportOf(Some("1.23456")).value) == "espota.py"
    ensures ToolOf(TransportOf(Some("COM6")).value) == "esptool"
    ensures ToolOf(TransportOf(Some("/dev/ttyUSB0")).value) == "esptool"
  {
    DottedQuadExample();
    UnescapedDotExample();
    SerialExamples();
  }
}
