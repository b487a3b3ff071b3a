# nsetools `Nse` client — a Dafny model

This project models the core of the `Nse` client of nsetools (`nse.py`).
The client fetches market data from the National Stock Exchange of India.
The model covers what the client does once a response body has arrived:

- **Value coercion.** `cast_intfloat_string_values_to_intfloat` copies a
  record. Each string that `int()` accepts becomes that int. Each string
  that only `float()` accepts becomes that float. Every other value is kept.
- **Reference-data CSV reads.** `get_stock_codes` maps stock code to name.
  `get_fno_lot_sizes` maps derivative symbol to lot size. Each fills a
  dictionary line by line and stops at the first line that raises.
- **The code cache.** The two reference-data reads share one slot. The
  server is read only when `cached` is false or the slot is empty. A
  successful read replaces the whole slot. A missing response raises "no
  response received" and leaves the slot as it was. `is_valid_code` looks a
  code up in whatever the slot holds.
- **Index lookup.** Index codes are normalised: upper-cased, with runs of
  whitespace collapsed to one space and trimmed at both ends.
  `get_index_quote` returns the coerced first quote whose `indexSymbol` is
  the normalised code, or raises "Wrong index code".
- **Top gainers and losers.** The selector returns either the whole payload,
  coerced, or the `data` entry of one index, not coerced.
- **Session staleness.** `fetch` reuses the HTTP session while
  `(now - session_init_time).seconds` is below the refresh interval, which
  defaults to 120. Otherwise it creates a new session first. Python's
  `timedelta.seconds` is only the seconds-within-a-day part, and the model
  keeps that exactly.

Python's string built-ins that the client relies on are modelled in
`PyStr`: `isspace`, `strip`, `split(sep)`, `split()`, `join`, `upper`,
`casefold` and `find`. `PyInt` models `int()` on strings. The clock, the
HTTP transport and `float()` are parameters: times are integers in
microseconds, a response is an `Option<string>` body, and the float parser
is a function `string -> Option<Float>`.

Modules, each in its own file:

- `Base`: `Option`, `Result` and the client's errors.
- `PyStr`, `PyInt`: the Python built-ins.
- `Values`: JSON values and coercion.
- `RefData`: the CSV line rules and the dictionary-filling loop.
- `Lookup`: normalisation, the index quote and the movers selector.
- `Client`: the class `Nse`, with its session and its cache slot.

Three behaviours of the code that are easy to misread:

- **The cache slot is per client.** `__CODECACHE__` is declared on the
  class, but `self.__CODECACHE__ = res_dict` creates an attribute on the
  instance. So each client fills its own slot, starting empty. The model
  keeps the slot as a field of `Nse`, initialised to `None`.
- **`"-"` and `"1,000"` stay strings.** The docstring of
  `clean_server_response` speaks of mapping `"-"` to `None` and `"1,000"` to
  1000, but that method is a stub. Coercion keeps both strings verbatim,
  under any float parser that meets `SoundFloatParser`.
- **A failed session warm-up.** `create_session` installs the new session
  before its warm-up request. So when the warm-up fails, the new session is
  in place and the old start time is kept.

## Model

| member | source | states |
|---|---|---|
| Values.CastIntFloatStringValues | nse.py:204-217 | The loop over a copy of the record gives exactly the coerced record, key by key. The caller's record is a value and is not changed. |
| Values.CastOneValue | nse.py:207-216 | One loop step: try `int()`, then `float()`, else keep. Only strings are touched. |
| Values.CastRule | nse.py:204-217 | Coercion keeps the key set. A non-string is unchanged. A string `int()` accepts becomes that int. A string only `float()` accepts becomes that float. A string is kept verbatim exactly when both parsers reject it. |
| Values.CastIdempotent | nse.py:204-217 | Coercing a coerced record changes nothing. |
| Values.IntRejects | nse.py:209 | `int()` rejects text that, once stripped of the blanks it skips, holds a comma, or holds neither an ASCII digit nor any non-ASCII character. |
| Values.StaysString | nse.py:208-216 | With a sound float parser, a string survives coercion unchanged when, once stripped of its blanks, it holds a comma. It also survives when it holds no ASCII digit, no non-ASCII character (which might be a digit of another script) and no special float word. |
| Values.OtherScriptDigitMayBeFloat | nse.py:212 | `MayBeFloatLiteral` admits ARABIC-INDIC DIGIT ONE, which Python's `float()` accepts. |
| Values.SeparatorStaysString | nse.py:208-216 | `str.strip()` removes the information separator U+001C, but `int()` and `float()` do not skip it: `"\x1c5"` is neither an int nor a float literal and stays a string under every sound float parser. |
| Values.SentinelsStayStrings | nse.py:208-216 | The no-data dash `"-"` and the grouped number `"1,000"` stay strings under every sound float parser. |
| PyInt.ParseIntOfIntToString | nse.py:209 | `int(str(n)) == n` for every integer `n`, negatives included. |
| PyInt.ParseIntShape | nse.py:209 | Text that `int()` accepts, once stripped of the blanks it skips (`isspace()` whitespace other than U+001C to U+001F), holds a digit and only digits, signs and underscores. |
| PyInt.ParseIntRejectsChar | nse.py:209 | `int()` rejects text whose blank-stripped form holds a character other than a digit, a sign or an underscore. |
| PyInt.ParseIntRejectsNoDigit | nse.py:209 | `int()` rejects text whose blank-stripped form holds no digit. |
| PyStr.Split | nse.py:68 | `split('\n')` gives at least one piece. It gives one piece exactly when the separator is absent. No piece holds the separator, and joining the pieces back gives the input. |
| PyStr.Find | nse.py:177 | `find` gives the first index where the pattern occurs, or -1 exactly when it occurs nowhere. |
| PyStr.StripShape | nse.py:178 | A stripped field neither starts nor ends with whitespace, and stripping it again changes nothing. |
| PyStr.Words | nse.py:137 | `split()` gives non-empty words that hold no whitespace. |
| PyStr.WordsKeepText | nse.py:137 | The words of `split()`, run together, are the text with its whitespace removed, in order. |
| PyStr.WordsOfJoin | nse.py:137 | Splitting at whitespace undoes `' '.join` of well-formed words. |
| RefData.FillDict | nse.py:68-71 | The CSV loop, written with a `for` loop and an early exit, gives the fold `BuildDict`: the dictionary after all lines, or the first error raised. The same loop serves lines 176-179 with the lot-size rule. |
| RefData.BuildDictOk | nse.py:176-179 | The loop finishes without raising exactly when no line raises. |
| RefData.BuildDictFirstFailure | nse.py:176-179 | When the loop raises, it raises the error of the first failing line, and no earlier line fails. |
| RefData.FailureSticks | nse.py:176-179 | Once a prefix of the lines has raised, later lines do not change the outcome. |
| RefData.BuildDictKeys | nse.py:68-71 | Every line that writes an entry leaves its key in the dictionary. |
| RefData.BuildDictLastWriter | nse.py:71 | Each key holds the value of the last line that writes it, so later lines overwrite earlier ones. |
| RefData.StockCodesNeverFail | nse.py:68-71 | Reading the stock-code list never raises. |
| RefData.StockCodeLineLayout | nse.py:69-71 | A stock-code line gives an entry exactly when it is non-empty and holds a comma. The line is then `code,name` followed by nothing or by `,` and more fields, and neither the code nor the name holds a comma. |
| RefData.LotSizeLineCases | nse.py:177-179 | A lot-size line has four outcomes. It is skipped when empty, without a comma, or a header. It fails to unpack when it has exactly two fields. It fails when the third field is not an int. It gives an entry exactly when none of these holds, and the entry maps the stripped second field to that int. No other error is raised. |
| RefData.HeaderLineMeaning | nse.py:177 | A line is a header exactly when its case-folded text contains `symbol` somewhere. |
| Lookup.NormalizedShape | nse.py:235-236 | A normalised code has no whitespace except single spaces, each with a non-whitespace character on both sides. It has the same words as the upper-cased code. |
| Lookup.NormalizeIdempotent | nse.py:235-236 | Normalising a normalised code changes nothing. |
| Lookup.NormalizeIgnoresCase | nse.py:235-236 | Upper-casing the code first does not change its normalised form. |
| Lookup.NormalizeIgnoresOuterSpace | nse.py:235-236 | Whitespace added before or after the code does not change its normalised form. |
| Lookup.NiftyFiftyExample | nse.py:130-137 | `"NIFTY 50 "` and the default `"nifty 50"` both normalise to `"NIFTY 50"`. |
| Lookup.IndexSymbols | nse.py:234 | The comprehension `[i['indexSymbol'] for i in ...]` succeeds exactly when every quote has the key, and then gives the symbols in order. Otherwise it raises a KeyError for `indexSymbol`. |
| Lookup.IndexQuoteSpec | nse.py:233-241 | It raises a KeyError exactly when some quote lacks `indexSymbol`. It raises "Wrong index code" exactly when every quote has the key and none carries the normalised code. When every quote has the key and one carries the code, it succeeds with the coerced first quote that carries the code. |
| Lookup.SelectMoversSpec | nse.py:109-114 | With an index, the result is the `data` entry of that index's object, uncoerced. The call succeeds exactly when that index and its `data` key exist and the entry is an object. Without an index, the result is the whole payload coerced, an object with the payload's keys. The same holds for lines 122-128. |
| Client.ElapsedSecondsRange | nse.py:297-298 | `.seconds` of the time difference always lies in 0..86399. |
| Client.ElapsedWithinDay | nse.py:297-298 | Within a day of the start, `.seconds` is the number of whole seconds elapsed. |
| Client.WholeDaysIgnored | nse.py:297-298 | Adding whole days to the clock reading does not change `.seconds`. |
| Client.DayOldSessionLooksFresh | nse.py:297-298 | A session started a day and ten seconds ago counts as ten seconds old. |
| Client.ClockStepBackLooksStale | nse.py:297-298 | A clock one second behind the start counts as 86399 seconds elapsed. |
| Client.Nse.constructor | nse.py:47-49 | A new client stores the interval and holds session 0 started at the construction time. Its cache slot is empty. |
| Client.Nse.WithDefaultInterval | nse.py:47 | Without an argument, the refresh interval is 120 seconds. |
| Client.Nse.CreateSession | nse.py:288-293 | The session is always replaced. The start time is updated only when the warm-up request succeeds. A failed warm-up raises. |
| Client.Nse.Fetch | nse.py:296-305 | A fresh session is reused and nothing changes. A stale one is replaced by exactly one new session, and the request goes out on the new one. |
| Client.Nse.ReadThroughCache | nse.py:61-76 | The server is read exactly when `cached` is false or the slot is empty. A read that yields a dictionary replaces the slot. A missing response or a failing line raises and leaves the slot unchanged. Without a read, the slot's content is returned. |
| Client.Nse.GetStockCodes | nse.py:51-76 | The cache policy with the stock-code line rule. A read fails only when no response arrives. |
| Client.Nse.GetFnoLotSizes | nse.py:159-184 | The cache policy with the lot-size line rule. |
| Client.Nse.IsValidCode | nse.py:78-88 | An empty code gives `None` and touches nothing. Otherwise the result is whether the upper-cased code is a key of the cached map, fetching the stock codes first when the slot is empty; with the slot empty and no response it raises "no response received". |
| Client.SessionReuse | nse.py:296-300 | Two requests within the refresh interval of a new client both go out on its first session. |
| Client.SharedCacheSlot | nse.py:169-183 | After the lot sizes are read, a cached stock-code read returns the lot-size map without a server read, because both reads share one slot. |

## Left out

- HTTP transport is not modelled: the request, the opener, headers, cookies, `nse_headers` and the `urls` constants. A response is a parameter: its body, or `None`. Only a failed warm-up request in `CreateSession` is modelled, as the error `Transport`.
- Client.Nse.ReadThroughCache: does not model `opener.open` raising an HTTP or URL error. That exception would propagate and leave the slot unchanged, as a missing response does.
- Client.Nse.Fetch: does not model the final `session.get(url)` failing. Its result is the session the request goes out on.
- JSON decoding, `byte_adaptor`, `js_adaptor`, `render_response` and `as_json` are not modelled. A decoded payload is a `Value` or a `Record`.
- Float parsing is not modelled. `float()` is a parameter. `SoundFloatParser` states the only property used: `float()` accepts nothing but digits, signs, a point, an exponent mark and underscores (with at least one digit), or one of the words inf, infinity and nan. Any non-ASCII character counts as a possible digit, because `float()` reads the decimal digits of every script. Like `int()`, `float()` skips only the blanks of `PyInt.IsNumberSpace` around the number, so U+001C to U+001F count against a literal. Python's own `float()` therefore meets `SoundFloatParser`: each string it accepts is one of these forms once its blanks are stripped.
- `dt.now()` is not modelled. The clock readings are parameters, in microseconds.
- `print` in `fetch` is left out.
- PyStr.Upper: upper-cases only ASCII letters. Python's `str.upper` also maps other scripts, including characters that expand to several letters.
- PyStr.CaseFold: folds the ASCII capitals and the characters whose full folding contains ASCII letters. Every other character is kept. This decides the `symbol` test exactly, but it is not `str.casefold` in general.
- PyInt.ParseInt: accepts ASCII digits only. Python's `int()` also accepts other Unicode decimal digits.
- PyInt.ParseInt: has no length limit. From Python 3.11 on, `int()` by default rejects a numeral of more than 4300 digits, and such a string then goes on to `float()`.
- PyInt.ParseIntOfIntToString: holds for every integer in the model. From Python 3.11 on, `str(n)` by default raises once `n` has more than 4300 digits.
- Client.Nse.constructor: takes the refresh interval as an integer. Python accepts any number, for example 120.5, and compares the whole seconds with it.
- The order of dictionary keys is not modelled, because maps are unordered.
- Client.Nse.ReadThroughCache: takes `cached` as a boolean. The source compares with `is not True`, so any other value also forces a read.
- Client.Nse.constructor: assumes the first session's warm-up request succeeds. A failure there raises from `__init__`, and no client exists to model.
- `get_quote` is not modelled. It is a fetch, a JSON field access and the coercion modelled by `CastIntFloatStringValues`.
- `get_all_index_quote` is not modelled. It is a fetch and a JSON field access. `get_index_list` is `IndexSymbols` applied to its result.
- `get_advances_declines` is modelled only in part. Its code normalisation is `NormalizeCode` and its coercion is `CastIntFloatStringValues`. Its URL building and fetch are transport.
- `get_top_fno_gainers` and `get_top_fno_losers` are not modelled. They depend on `clean_server_response`, which is a stub.
- The stubs that only `pass` are not modelled: `build_url_for_quote`, `clean_server_response`, `download_index_copy`, `get_active_monthly`, `get_year_high`, `get_year_low` and the `get_preopen_*` methods.
