# ADB-Remote connection window, modelled in Dafny

ADB-Remote is a small desktop window (`ADBDebugGUI`) for connecting the
Android Debug Bridge (`adb`) to a device over the network. The user sets the
path to the `adb` executable, types an IP address and a port, and presses
start or stop. The window checks the input, runs `adb connect ip:port` or
`adb disconnect`, reads the verdict from the process result, and keeps a
small settings file with three keys: `adb_path`, `language` and
`last_ip_port`.

The model has five modules:

- `Wrappers` holds `Option`.
- `PyStr` models the Python string operations the window relies on:
  - `strip()`, with its whitespace set;
  - `split(sep)`;
  - `lower()`;
  - the substring test `t in s`.

  `Join` is not used by the window. It is there to state what `split`
  returns: joining the pieces gives back the input.
- `Endpoint` models `validate_ip`, `validate_port` and the verdict of
  `validate_input`. All three rest on a model of Python's `int()` in base 10:
  - whitespace around the number is ignored, except the four information
    separators U+001C to U+001F: `strip()` removes them, but `int()` raises
    on them;
  - a sign may come first;
  - leading zeros are allowed;
  - single underscores may sit between digits;
  - any other string raises `ValueError`, modelled as `None`.
- `Bridge` classifies what one run of `adb` came to:
  - `validate_adb`;
  - the `try` blocks of `start_debug` and `stop_debug`.

  The process is not run. Its outcome is a `Run` value given to the model: it
  exited with a code and some output, the executable was missing, it timed
  out, or it failed to start for another reason. Each classifier returns a
  boolean or `Raised`, the latter when the source lets the exception escape.
- `Gui` holds the window's state as the class `App`:
  - the settings mapping;
  - the language;
  - the status line;
  - the two entry fields;
  - a ghost snapshot of the settings file;
  - a ghost log of every bridge command line.

  The start-up logic of `__init__` is a pure function. `change_language`,
  `set_adb_path`, `start_debug` and `stop_debug` are methods with full-state
  postconditions. `App.Valid()` holds from construction on and records two
  facts:
  - the language is one the string table has;
  - the settings in memory are those of the file, or still empty when there
    is no file.

  Every method preserves `Valid()`.

`validate_ip` accepts whitespace inside a part. Each part goes through
`int()`, and `int()` skips whitespace around its argument. As a result:

- `"1. 2.3.4"` is accepted (`Endpoint.AcceptsSpaceInsidePart`);
- `"-0"` is an octet and a port (`Endpoint.MinusZero`);
- `"1.\x1c2.3.4"` is rejected, because `int()` does not skip U+001C
  (`Endpoint.RejectsSeparatorInPart`);
- a U+001C at an end of the whole address is accepted, because the caller's
  `strip()` removes it (`Endpoint.AcceptsSeparatorAroundAddress`).

Apart from whitespace, `int()` also takes a plus sign and single underscores
between digits, so a part or a port written `"+1"` or `"1_0"` is accepted too
(`Endpoint.SignAndUnderscore`).

Two exceptions escape their handlers:

- `validate_adb` lets start-up errors other than a missing file or a timeout
  escape;
- `start_debug` and `stop_debug` catch only `CalledProcessError`.

The model keeps both as the `Raised` outcome.

## Model

| member | source | states |
|---|---|---|
| PyStr.IsSpace | src/gui.py:212 | the characters `str.isspace()` accepts, and so the ones `strip()` removes here and at src/gui.py:217 and 252-253: tab to carriage return, U+001C to U+001F, space, U+0085, U+00A0, U+1680, U+2000 to U+200A, U+2028, U+2029, U+202F, U+205F and U+3000 |
| PyStr.Strip | src/gui.py:212 | `strip()`, as the left and then the right cut of whitespace; characterised by `StripSpec` and `StrippedUnique` |
| PyStr.StripSpec | src/gui.py:212 | `strip()` leaves a slice of the input with no whitespace at either end, and everything cut off is whitespace |
| PyStr.StrippedUnique | src/gui.py:212 | only one string satisfies that description, so `strip()` is fully determined by it |
| PyStr.StripTight | src/gui.py:217 | a string with no whitespace at either end is its own `strip()` |
| PyStr.StripSurrounded | src/gui.py:212 | adding whitespace around a string does not change its `strip()` |
| PyStr.Split | src/gui.py:234 | `split('.')` gives at least one piece, no piece holds the separator, and joining the pieces gives back the input |
| PyStr.SplitJoin | src/gui.py:234 | splitting undoes joining for pieces free of the separator, so `split` is the inverse of `join` |
| PyStr.SplitPrefix | src/gui.py:109-110 | a separator-free prefix stays part of the first field of the split |
| PyStr.SplitCount | src/gui.py:109-110 | a string that holds the separator splits into at least two fields, so `split(':')[1]` exists |
| PyStr.JoinChars | src/gui.py:234 | a character other than the separator is in a join only if it is in one of the pieces |
| PyStr.Lower | src/gui.py:283 | `lower()` on A to Z; characterised by `LowerSpec` |
| PyStr.LowerSpec | src/gui.py:283 | `lower()` keeps the length, leaves no capital A to Z, changes only those capitals, and is idempotent |
| PyStr.Contains | src/gui.py:193 | `t in s` as a scan from the left; characterised by `ContainsIff` |
| PyStr.ContainsIff | src/gui.py:193 | the left-to-right scan for `t in s` succeeds exactly when `t` occurs in `s` at some index |
| PyStr.LowerKeepsOccurrence | src/gui.py:283 | an occurrence survives lowering both strings |
| Endpoint.ParseInt | src/gui.py:238 | `int()` in base 10: `None` where it raises `ValueError`, so whenever a separator U+001C to U+001F occurs, and otherwise the signed digit run left by `strip()`; characterised by `ParseDecimal`, `ParsedChars`, `ParseIgnoresSpace` and `SeparatorRejected` |
| Endpoint.ParseStripped | src/gui.py:238 | `int()` on text without surrounding whitespace: an optional sign and ASCII digits with single underscores between them |
| Endpoint.AllOctets | src/gui.py:238 | the short-circuit `all(0 <= int(part) <= 255 ...)` under `except ValueError`; characterised by `AllOctetsIff` |
| Endpoint.ValidateIp | src/gui.py:231-240 | `validate_ip`: a non-empty string with exactly four parts on '.', every part an octet; characterised by `ValidateIpIff` |
| Endpoint.ValidatePort | src/gui.py:242-249 | `validate_port`: a non-empty string that `int()` reads as a number in [0, 65535] |
| Endpoint.ValidateInput | src/gui.py:210-229 | the verdict `validate_input` returns: the stripped IP entry is valid and the stripped port entry is valid |
| Endpoint.DecimalString | src/gui.py:238 | the decimal text of a number is non-empty and made of digits only |
| Endpoint.ParseDecimal | src/gui.py:238 | `int()` reads the decimal text of every natural number back as that number |
| Endpoint.DecimalValue | src/gui.py:238 | the digit value of the decimal text of `n` is `n` |
| Endpoint.DigitsOnlyRun | src/gui.py:238 | a non-empty string of digits is a valid digit run for `int()` |
| Endpoint.ParsedChars | src/gui.py:238 | a string `int()` accepts holds only whitespace, digits, signs and underscores, and in particular no '.' and no ':' |
| Endpoint.SignedDigitRunChars | src/gui.py:238 | a signed digit run holds only digits, signs and underscores |
| Endpoint.ParseIgnoresSpace | src/gui.py:238 | whitespace that `int()` skips, around the text, does not change what `int()` returns |
| Endpoint.SeparatorRejected | src/gui.py:238 | a separator U+001C to U+001F at either end makes `int()` raise, although `strip()` would remove it |
| Endpoint.SignAndUnderscore | src/gui.py:238 | `int("+1")` is 1 and `int("1_0")` is 10 |
| Endpoint.MinusZero | src/gui.py:238-246 | `int("-0")` is 0, so "-0" is an octet and a valid port |
| Endpoint.AllOctetsIff | src/gui.py:237-240 | the short-circuit `all(...)` under `except ValueError` is true exactly when every part is an octet |
| Endpoint.ValidateIpIff | src/gui.py:231-240 | `validate_ip` is true exactly when the input is non-empty, splits into four parts on '.', and every part is an octet |
| Endpoint.ValidateJoinedOctets | src/gui.py:231-240 | four octets joined by dots form an accepted address |
| Endpoint.JoinFour | src/gui.py:234 | joining four parts puts the separator between each pair |
| Endpoint.DecimalOctet | src/gui.py:238 | the decimal text of any number up to 255 is an octet |
| Endpoint.ValidateDottedQuad | src/gui.py:231-240 | every dotted quad of decimal numbers in [0, 255] is accepted |
| Endpoint.RejectsBadPart | src/gui.py:237-240 | one part that is not an octet rejects the whole address |
| Endpoint.ValidIpHasNoColon | src/gui.py:231-240 | an accepted address holds no ':' |
| Endpoint.ValidatePortDecimal | src/gui.py:242-249 | the decimal text of every number in [0, 65535] is an accepted port |
| Endpoint.RejectsPortAbove | src/gui.py:242-249 | the decimal text of any number above 65535 is rejected |
| Endpoint.ValidPortHasNoColon | src/gui.py:242-249 | an accepted port holds no ':' |
| Endpoint.SmallOctets | src/gui.py:238 | "1", "3" and "4" are octets |
| Endpoint.SpacedOctet | src/gui.py:238 | " 2" is an octet, because `int()` strips it |
| Endpoint.LargeOctets | src/gui.py:238-240 | "192" and "168" are octets and "256" is not |
| Endpoint.AcceptsSpaceInsidePart | src/gui.py:231-240 | "1. 2.3.4" is accepted |
| Endpoint.AcceptsPrivateAddress | src/gui.py:231-240 | "192.168.1.1" is accepted |
| Endpoint.RejectsThreeParts | src/gui.py:235-236 | "1.2.3" is rejected, since it has three parts |
| Endpoint.RejectsOctetAbove255 | src/gui.py:237-240 | "192.168.1.256" is rejected |
| Endpoint.RejectsSeparatorInPart | src/gui.py:212-240 | `strip()` keeps "1.\x1c2.3.4" as it is, and `validate_ip` rejects it |
| Endpoint.AcceptsSeparatorAroundAddress | src/gui.py:210-229 | the input "\x1c1.2.3.4" with port "5555" is valid, because the whole address is stripped first |
| Endpoint.AcceptsPlainAddress | src/gui.py:231-240 | "1.2.3.4" is accepted |
| Endpoint.AcceptsPorts | src/gui.py:242-249 | "0" and "5555" are accepted ports |
| Endpoint.RejectsPorts | src/gui.py:242-249 | "65536", "abc" and "" are rejected ports |
| Bridge.ValidateAdb | src/gui.py:181-195 | the probe passes exactly when `adb version` exits with 0 and prints the banner; it raises exactly on a start-up error other than a missing file or a timeout |
| Bridge.ProbeNeedsBanner | src/gui.py:193 | a zero exit without the banner fails the probe |
| Bridge.ClassifyConnect | src/gui.py:270-290 | the connection counts as made exactly when `adb connect` exits with 0 and its lower-cased output holds "connected"; anything other than an exit escapes the handler |
| Bridge.ConnectIgnoresCase | src/gui.py:283 | output holding "connected" in any mix of cases counts as connected |
| Bridge.RecognisesConnectedReply | src/gui.py:283-284 | the reply "connected to 192.168.1.1:5555" counts as connected |
| Bridge.ClassifyDisconnect | src/gui.py:297-306 | disconnection succeeds exactly on a zero exit; anything other than an exit escapes the handler |
| Gui.AdbPath | src/gui.py:255-260 | a bridge path is set exactly when the key is present and not empty, and it is the stored value |
| Gui.StoredEndpoint | src/gui.py:108 | `settings.get('last_ip_port', '')`, with `LastEndpoint` stating what the entries are made of |
| Gui.ResolveLanguage | src/gui.py:69-72 | the language is always one of the string table; a valid stored language wins; with no stored key a valid system locale wins; any result other than "en" is the one requested |
| Gui.LastEndpoint | src/gui.py:108-110 | with a ':' in the stored endpoint, the entries are its first two colon-free fields, followed by the end or a ':'; otherwise both are empty |
| Gui.NoColonNoEndpoint | src/gui.py:109-110 | a stored endpoint without ':' leaves both entries empty |
| Gui.RestoredEndpoint | src/gui.py:108-110 | an endpoint stored after passing validation comes back at the next start as the same IP and port |
| Gui.PrecheckConnect | src/gui.py:251-270 | the checks before `adb connect`, in their order: no path, an empty entry, invalid input; the bridge runs exactly when all pass, on the stripped endpoint |
| Gui.App.constructor | src/gui.py:69-113 | settings are the loaded file or empty, the language is resolved, the entries hold the stored endpoint, the status is "ready", and no bridge has run |
| Gui.App.EditEntries | src/gui.py:112-113 | typing changes only the two entries |
| Gui.App.ChangeLanguage | src/gui.py:150-161 | the language is set, stored under its own key alone and saved; the status goes back to "ready"; nothing else changes |
| Gui.App.SetAdbPath | src/gui.py:197-208 | a cancelled dialog changes nothing; otherwise the probe runs once, and the path is stored and saved exactly when the probe passes; no other key changes |
| Gui.App.StartDebug | src/gui.py:251-290 | a failed precheck shows its message and runs nothing; otherwise `adb connect` runs once, and the endpoint is stored and saved and shown exactly when the connection is made; settings change only then |
| Gui.App.StopDebug | src/gui.py:292-306 | settings and the file never change; without a path nothing runs; otherwise `adb disconnect` runs once, and the status shows "disconnected" exactly on success |
| Gui.PrivateEndpointProceeds | src/gui.py:251-268 | with a path set, the entries "192.168.1.1" and "5555" pass every check, on the endpoint "192.168.1.1:5555" |
| Gui.PrivateEndpointRestored | src/gui.py:108-110 | the stored "192.168.1.1:5555" is read back as those two entries |
| Gui.ConnectThenReopen | src/gui.py:69-113 | a session that connects to 192.168.1.1:5555 shows the endpoint as connected, and the next session opens with the same IP and port in its entries |

## Left out

- Tk is not modelled: widgets, menus, styles, validation icons and dialogs. A dialog is a `Notice` value, and the status line and messages are string-table keys.
- The `STRINGS` texts are not modelled, only which key is shown. The set of languages is the two keys of the table.
- Real processes are not run. This covers `subprocess.run`, `CREATE_NO_WINDOW` and the 2.5 s probe timeout. An outcome is an input `Run`.
- File I/O is not modelled.
  - `load_settings` is an input `Option` map: `None` stands for a missing, unreadable or unparsable file.
  - `save_settings` is the ghost snapshot `saved`, and a write is assumed to succeed. A failed write, which would escape the handler, is not modelled.
- Settings values that are not strings are not modelled. What they do in the source depends on the key:
  - a non-string `language` falls back to "en", or fails at start-up when it cannot be hashed;
  - a falsy `adb_path` (null, false, 0, an empty array or an empty object) counts as no path, and any other non-string one makes the bridge call raise;
  - a `last_ip_port` that is a number, a boolean or null fails at start-up;
  - a `last_ip_port` that is an array or an object fails at start-up only when it holds ':' as an element or key, and otherwise gives two empty entries.
- A settings file holding something other than a JSON object is not modelled. It fails at start-up.
- `locale.getdefaultlocale()` is an input `Option`, where `None` is a missing locale.
- The application path and the frozen/script distinction are not modelled.
- Endpoint.ParseInt: does not model the limit on the number of digits that Python 3.11 and later sets for `int()` on a string (4300 by default, configurable). Above it `int()` raises, so a port written with more digits, leading zeros included, is rejected by the source but accepted by the model. The limit depends on the Python version and its configuration.
- `int()` is modelled on ASCII digits only. Python's `int()` also accepts other Unicode decimal digits, so a part written in those is accepted by the source but not by the model.
- `PyStr.Lower` maps only A to Z. For the test `"connected" in s.lower()` the verdict is still exact: no other character lowercases to a text that holds one of the letters of "connected".
- Decoding errors of the process output are not modelled.
- `askopenfilename` is modelled as returning a string, with "" standing for a cancelled dialog.
- The `run` main loop and the `<KeyRelease>` bindings that call `validate_input` with an event are not modelled, and neither are the entry styles and icons `validate_input` sets. Its verdict is modelled (`Endpoint.ValidateInput`), and that is what the argument-less call in `start_debug` uses.
