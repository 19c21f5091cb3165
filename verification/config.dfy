/** The settings of the logger and the start-up block of `main` that overrides
    them from `templogger.cfg`. The model starts from the file's lines as
    `splitlines()` returns them; whether the file exists is an input. */
module Config {
  import opened Results
  import opened Numerals

  datatype Settings = Settings(
    device: int,        // I2C address of the temperature/pressure sensor
    busId: int,         // SMBus number
    ledPin: int,        // GPIO of the status LED
    switchPin: int,     // GPIO of the shutdown switch
    interval: int,      // minutes between readings
    autoShutdown: int,  // 1 = halt the host when the switch is pressed
    apiKey: string,
    url: string)

  /** The script's built-in constants. */
  const Defaults := Settings(0x76, 1, 17, 22, 5, 1, "XXXXXXXXXXXXXXXX", "https://api.thingspeak.com/update")

  /** Line 0 must be exactly this for the file to be used. */
  const Marker := "Temp Logger"

  /** The exception that ends the process: IndexError for a line that is not
      there, ValueError for a numeric line `int()` rejects. */
  datatype ConfigError = MissingLine(index: nat) | BadNumber(index: nat)

  /** What the block does with a file that exists. */
  datatype Override = KeepDefaults | UseFile(settings: Settings) | Abort(error: ConfigError)

  /** How line `i` is read: line 1 as hexadecimal, lines 2 to 6 as decimal, the
      others verbatim. */
  function LineRadix(i: nat): Option<Radix> {
    if i == 1 then Some(Hexadecimal)
    else if 2 <= i <= 6 then Some(Decimal)
    else None
  }

  /** Line `i` is present and, if numeric, readable by `int()`. */
  predicate LineOk(lines: seq<string>, i: nat) {
    && i < |lines|
    && (LineRadix(i).Some? ==> ParseInt(lines[i], LineRadix(i).value).Some?)
  }

  /** A file every override line of which is usable. */
  predicate WellFormed(lines: seq<string>) {
    && |lines| >= 9
    && lines[0] == Marker
    && forall i :: 1 <= i <= 8 ==> LineOk(lines, i)
  }

  /** `e` is the exception raised by the first failing step, reading lines in order. */
  predicate FirstFailure(lines: seq<string>, e: ConfigError) {
    && e.index <= 8
    && !LineOk(lines, e.index)
    && (forall i :: 0 <= i < e.index ==> LineOk(lines, i))
    && (e.MissingLine? <==> e.index >= |lines|)
  }

  function NumberAt(lines: seq<string>, i: nat, radix: Radix): Result<int, ConfigError> {
    if i >= |lines| then Failure(MissingLine(i))
    else match ParseInt(lines[i], radix)
      case None => Failure(BadNumber(i))
      case Some(v) => Success(v)
  }

  function TextAt(lines: seq<string>, i: nat): Result<string, ConfigError> {
    if i >= |lines| then Failure(MissingLine(i)) else Success(lines[i])
  }

  /** The eight assignments, in source order; the first exception stops them. */
  function ReadOverrides(lines: seq<string>): Result<Settings, ConfigError> {
    var device :- NumberAt(lines, 1, Hexadecimal);
    var busId :- NumberAt(lines, 2, Decimal);
    var ledPin :- NumberAt(lines, 3, Decimal);
    var switchPin :- NumberAt(lines, 4, Decimal);
    var interval :- NumberAt(lines, 5, Decimal);
    var autoShutdown :- NumberAt(lines, 6, Decimal);
    var apiKey :- TextAt(lines, 7);
    var url :- TextAt(lines, 8);
    Success(Settings(device, busId, ledPin, switchPin, interval, autoShutdown, apiKey, url))
  }

  /** The override block applied to the lines of an existing file. */
  function ParseConfig(lines: seq<string>): (r: Override)
    ensures r.KeepDefaults? <==> |lines| > 0 && lines[0] != Marker
    ensures r.UseFile? <==> WellFormed(lines)
    ensures r.Abort? ==> FirstFailure(lines, r.error)
    ensures r.UseFile? ==>
      && |lines| >= 9
      && Some(r.settings.device) == ParseInt(lines[1], Hexadecimal)
      && Some(r.settings.busId) == ParseInt(lines[2], Decimal)
      && Some(r.settings.ledPin) == ParseInt(lines[3], Decimal)
      && Some(r.settings.switchPin) == ParseInt(lines[4], Decimal)
      && Some(r.settings.interval) == ParseInt(lines[5], Decimal)
      && Some(r.settings.autoShutdown) == ParseInt(lines[6], Decimal)
      && r.settings.apiKey == lines[7]
      && r.settings.url == lines[8]
  {
    if |lines| == 0 then Abort(MissingLine(0))
    else if lines[0] != Marker then KeepDefaults
    else match ReadOverrides(lines)
      case Success(s) => UseFile(s)
      case Failure(e) => assert !LineOk(lines, e.index); Abort(e)
  }

  /** The settings the logger runs with: the defaults when there is no file, or a
      Failure carrying the exception that ends the process before the main loop. */
  function LoadSettings(file: Option<seq<string>>): (r: Result<Settings, ConfigError>)
    ensures file.None? ==> r == Success(Defaults)
    ensures file.Some? && |file.value| > 0 && file.value[0] != Marker ==> r == Success(Defaults)
    ensures file.Some? && WellFormed(file.value) ==> r.Success? && ParseConfig(file.value) == UseFile(r.value)
    ensures r.Failure? <==> file.Some? && (|file.value| == 0 || file.value[0] == Marker) && !WellFormed(file.value)
  {
    match file
    case None => Success(Defaults)
    case Some(lines) =>
      match ParseConfig(lines)
      case KeepDefaults => Success(Defaults)
      case UseFile(s) => Success(s)
      case Abort(e) => Failure(e)
  }

  /** A file that configures `s`: the marker, then the eight fields in order. */
  function ConfigLines(s: Settings): (lines: seq<string>)
    ensures |lines| == 9 && lines[0] == Marker
  {
    [Marker, ShowInt(s.device, Hexadecimal), ShowInt(s.busId, Decimal), ShowInt(s.ledPin, Decimal),
     ShowInt(s.switchPin, Decimal), ShowInt(s.interval, Decimal), ShowInt(s.autoShutdown, Decimal),
     s.apiKey, s.url]
  }

  /** The characters at which Python's `str.splitlines()` breaks a line. */
  predicate IsLineBreak(c: char) {
    c as int in {0x0A, 0x0D, 0x0B, 0x0C, 0x1C, 0x1D, 0x1E, 0x85, 0x2028, 0x2029}
  }

  /** Text that `splitlines()` keeps as one line. */
  predicate SingleLine(t: string) {
    forall i :: 0 <= i < |t| ==> !IsLineBreak(t[i])
  }

  /** Every settings value whose key and URL fit on one line each can be put in a
      file, and whatever follows line 8 is ignored. */
  lemma ConfigRoundTrip(s: Settings, extra: seq<string>)
    requires SingleLine(s.apiKey) && SingleLine(s.url)
    ensures ParseConfig(ConfigLines(s) + extra) == UseFile(s)
  {
    var lines := ConfigLines(s) + extra;
    NumberAtShowInt(lines, 1, s.device, Hexadecimal);
    NumberAtShowInt(lines, 2, s.busId, Decimal);
    NumberAtShowInt(lines, 3, s.ledPin, Decimal);
    NumberAtShowInt(lines, 4, s.switchPin, Decimal);
    NumberAtShowInt(lines, 5, s.interval, Decimal);
    NumberAtShowInt(lines, 6, s.autoShutdown, Decimal);
    assert TextAt(lines, 7) == Success(s.apiKey);
    assert TextAt(lines, 8) == Success(s.url);
    assert ReadOverrides(lines) == Success(s);
  }

  lemma NumberAtShowInt(lines: seq<string>, i: nat, v: int, radix: Radix)
    requires i < |lines| && lines[i] == ShowInt(v, radix)
    ensures NumberAt(lines, i, radix) == Success(v)
  {
    ParseShowInt(v, radix);
  }

  /** Only lines 0 to 8 are read. */
  lemma TrailingLinesIgnored(lines: seq<string>)
    requires |lines| >= 9
    ensures ParseConfig(lines) == ParseConfig(lines[..9])
  {
  }

  /** A marker followed by too few lines is fatal, never a fall-back to the defaults. */
  lemma ShortFileFails(lines: seq<string>)
    requires 0 < |lines| < 9 && lines[0] == Marker
    ensures LoadSettings(Some(lines)).Failure?
  {
  }
}
