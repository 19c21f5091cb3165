# Temperature logger: a functional model of its decisions

The logger is a Raspberry Pi polling script (`templogger2_xmas.py`). It reads a
BME280 temperature/pressure sensor and a humidity sensor over I2C, posts the
readings to a ThingSpeak update URL, blinks a status LED while it waits for the
next reading, and halts when a switch is pressed. Almost all of it is hardware and
network plumbing. This project models the decisions inside that plumbing as pure
Dafny functions and proves what they guarantee:

- `Humidity`: the byte pair read from the humidity sensor (address 0x40, command
  0xF5), high byte first, becomes `(hi*256+lo)*125/65536 - 6`. Dafny `real`
  matches the Python double exactly here. The product is below 2^23, the division
  is by a power of two, and subtracting 6 stays within 53 significant bits.
- `Numerals`: the part of Python's `int(text)` and `int(text, 16)` that
  configuration lines go through, with `ShowInt` as its inverse.
- `Config`: the eight settings, their built-in defaults and the override block
  in `main` that reads `templogger.cfg`. The outcome is one of three: keep the
  defaults, use the file's settings, or abort with the exception
  (`IndexError`/`ValueError`) that ends the process.
- `Upload`: `sendData` as a function of its arguments and of the transport
  outcome. The result is the posted form and the lines printed.
- `Switch`: the decision `switchCallback` makes.
- `Cycle`: one pass of the main loop, including the LED-toggling wait phase.
- `Results`: the `Option` and `Result` types the others use.

Two behaviours of the code are easy to miss:

- A malformed configuration file does not keep the defaults. Only a missing file
  or a wrong line 0 does. An empty file, a marker with fewer than nine lines, or a
  numeric line `int()` rejects raises before the `try` at line 121, so the process
  dies. `Config.LoadSettings` returns `Failure` in exactly those cases.
- After a response nothing is printed. The `Update <status>` line is built and
  discarded (lines 75-76); only a transport exception produces output.

Inputs that stand in for effects:

- The two humidity bytes, the temperature and the pressure are parameters. They
  replace `smbus` and `bme280`.
- `Transport` is a parameter. It replaces `requests.post`: either a status code
  came back or an `Exception` (the class the handler at line 77 catches) was
  raised with a message.
- The log prefix is an opaque string. It stands for the timestamp and the
  formatted readings.
- `Option<seq<string>>` replaces the configuration file. `None` means the file
  does not exist; otherwise it holds the file's lines as `splitlines()` returns
  them.

## Model

| member | source | states |
|---|---|---|
| Humidity.RawWord | templogger2_xmas.py:47-49 | the first byte read is the high byte: the word is below 65536, and dividing it by 256 gives back the first byte while the remainder gives back the second |
| Humidity.CurrentHumidity | templogger2_xmas.py:44-50 | the humidity lies between -6 and 65535*125/65536-6 (about 118.998) and reaches each end only for the byte pairs 0x0000 and 0xFFFF |
| Humidity.RawRecovered | templogger2_xmas.py:49 | applying the inverse formula `(h+6)*65536/125` to the reading gives back the raw word, so the conversion is exact and loses nothing |
| Humidity.HumidityInjective | templogger2_xmas.py:47-49 | two byte pairs that give the same humidity are the same pair |
| Humidity.HumidityMonotone | templogger2_xmas.py:47-49 | the humidity never decreases as the byte pair increases, comparing the high byte first |
| Numerals.ParseInt | templogger2_xmas.py:101-106 | text made only of blanks, the empty line included, is rejected as `int()` rejects it; with ParseIntComplete and ParseIntSound below, which together fix the exact language accepted, this is what the model promises of `int(data[i])` and `int(data[1], 16)` |
| Numerals.ParseIntComplete | templogger2_xmas.py:101-106 | every line made of blanks, an optional `+` or `-`, in base 16 an optional `0x` or `0X`, one or more digits of the radix and blanks is accepted, and its value is the digits' value, negated after a `-` |
| Numerals.ParseIntSound | templogger2_xmas.py:101-106 | conversely, every line `int()` accepts splits into exactly that shape, and the value returned is the one the shape denotes; so `0x`, `--5`, `1-2`, `7x6` and `12a` raise ValueError |
| Numerals.MisplacedSignsAndPrefixes | templogger2_xmas.py:101-106 | the four lines `0x` and `7x6` in base 16, and `--5` and `1-2` in decimal, are rejected although every character in them may occur in a number |
| Numerals.ParseHexPrefixed | templogger2_xmas.py:101 | in base 16 a number written with a `0x` prefix reads as the number its digits denote |
| Numerals.DefaultDeviceText | templogger2_xmas.py:34 | the default device address written as in the script, `0x76`, reads as 118 on line 1 of the file |
| Numerals.ReadShowNat | templogger2_xmas.py:101-106 | reading the digits of a natural number back, decimal or hexadecimal, gives that number |
| Numerals.ParseShowInt | templogger2_xmas.py:101-106 | `int()` and `int(_, 16)` read back every integer written as an optional minus sign followed by its shortest digit string, in both radixes; so any value of the six numeric settings can be written on a line, within the digit limit noted under Left out |
| Numerals.ParseIgnoresBlanks | templogger2_xmas.py:101-106 | any run of spaces and tabs before and after a numeric line leaves what `int()` returns unchanged |
| Config.ParseConfig | templogger2_xmas.py:97-108 | defaults are kept exactly when line 0 exists and is not `Temp Logger`; the file is used exactly when it is well formed, meaning the marker, nine or more lines, a hexadecimal line 1 and decimal lines 2-6; the file's settings are line 1 read as hexadecimal, lines 2-6 read as decimal, and lines 7 and 8 verbatim; any other file aborts with the exception of the first failing line, read in source order |
| Config.LoadSettings | templogger2_xmas.py:94-108 | with no file, or with a file whose first line is not the marker, the settings are the defaults; a well-formed file supplies all eight settings, exactly as the override block reads them from its lines; the result is a failure, not the defaults, exactly when the file exists, is empty or starts with the marker, and is not well formed |
| Config.ConfigRoundTrip | templogger2_xmas.py:99-108 | every settings value whose key and URL contain no character `splitlines()` breaks at can be written as nine lines that the block reads back unchanged, whatever lines follow line 8 |
| Config.TrailingLinesIgnored | templogger2_xmas.py:101-108 | lines after line 8 never affect the outcome |
| Config.ShortFileFails | templogger2_xmas.py:97-108 | a file with the marker and fewer than nine lines fails instead of keeping the defaults |
| Upload.SendData | templogger2_xmas.py:61-79 | the post goes to the given URL with a form whose keys are exactly `api_key, field1, field2, field3`, bound to the key, temperature, pressure and humidity; no transport exception (an `Exception` subclass) escapes, because both transport outcomes yield a report; nothing is printed exactly when a response came back; after an exception the one printed line is the prefix, `Error:` and the message |
| Upload.FieldNamesIgnored | templogger2_xmas.py:61-66 | the `field1`..`field3` name arguments have no effect on the request or the output |
| Upload.UpdateLineNeverPrinted | templogger2_xmas.py:73-79 | the `Update <status>` line is never among the printed lines, whatever the transport did |
| Switch.OnSwitch | templogger2_xmas.py:52-59 | the host shutdown command is issued exactly when AUTOSHUTDOWN is 1, so 0 and 2 do not halt the host; the process exits with status 0 in every case |
| Cycle.RangeLength | templogger2_xmas.py:128 | `range(start, stop)` is empty exactly when stop <= start and otherwise has stop - start elements |
| Cycle.ToggleCount | templogger2_xmas.py:128 | the wait phase toggles a positive number of times exactly when INTERVAL is positive, that number is INTERVAL*60, and it is always even |
| Cycle.ToggledParity | templogger2_xmas.py:128-129 | a run of toggles leaves the LED where it started exactly when the number of toggles is even |
| Cycle.WaitPhase | templogger2_xmas.py:127-130 | the loop performs ToggleCount(INTERVAL) toggles and leaves the LED at the level it had before the loop |
| Cycle.RunCycle | templogger2_xmas.py:122-130 | one pass posts once, to the configured URL, with the configured key, the sensor readings, and as `field3` the humidity converted from the two bytes; it prints nothing exactly when the post got a response; it ends with the LED high, because line 123 drives it high and the even number of toggles brings it back |

## Left out

- I2C traffic and timing: `write_byte(0x40, 0xF5)`, the 0.3 s sleep and the two `read_byte` calls are foreign hardware calls. The bytes they return are inputs, and a bus error, which would end the process, is not modelled.
- The `bme280` library is not part of this model. Temperature and pressure are inputs.
- GPIO setup, `GPIO.output`/`GPIO.input` and `GPIO.cleanup` are hardware calls. The LED is a boolean, and its read-back is taken to return the last level written.
- `requests.post`, including its encoding of the form and its timeouts, is a network client. It is reduced to `Transport`. HTTP status codes are carried but never acted on, as in the code.
- A `BaseException` that is not an `Exception` (a `KeyboardInterrupt`, say) raised inside `requests.post` is caught neither at line 77 nor at line 131. It ends the process without a crash file or `GPIO.cleanup`. `Transport` has no case for it.
- `os.system`, `sys.exit` and `time.sleep` are OS effects. `OnSwitch` returns the command and exit status instead of performing them.
- The rising-edge callback runs asynchronously and can pre-empt the loop at any point. Only its decision is modelled, not the interleaving.
- The crash handler (lines 131-141) is left out. Its crash file, traceback line number and `time.time()` file name are file I/O and interpreter internals.
- `time.strftime` and the `{:.1f}`/`{:.2f}` formatting are clock and float-to-text work. They are folded into the opaque log prefix.
- Reading the file is I/O. `os.path.isfile`, `open`, `read` and `splitlines` are left out, and the model starts from the list of lines. An error from `open` or `read` at lines 96-97, such as `PermissionError` or `UnicodeDecodeError`, is raised outside the `try` and ends the process; `Option<seq<string>>` has no case for it.
- The `Found templogger.cfg`/`Using templogger.cfg` prints are console output with no effect on the settings.
- Numerals.ParseInt: models a subset of Python's `int()`. It accepts spaces and tabs around the number, an optional sign, for base 16 an optional `0x`/`0X` prefix, then ASCII digits. Python also accepts underscores between digits, other Unicode whitespace and Unicode decimal digits, none of which is modelled. Nor is Python's integer string-conversion limit, which by default rejects decimal strings of more than 4300 digits.
- Numerals.ParseShowInt: holds for decimal text of any length, while Python's integer string-conversion limit rejects decimal strings of more than 4300 digits by default. So the model admits settings beyond about 10^4300 in absolute value that the real script would refuse.
- Config.ConfigRoundTrip: is about the list of lines, not file bytes. It needs the key and URL to be free of line breaks, because `splitlines()` would cut them. The integer string-conversion limit of `int()` is not modelled either, as noted for Numerals.ParseShowInt.
- Config.ParseConfig: when an override line fails, Python has already assigned the earlier globals. The process dies at once, so that partial state is never observed, and the model reports only the failure.
