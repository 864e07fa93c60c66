# LoRa timing dashboard — a Dafny model

The dashboard in `timing/app.js` is the browser side of a LoRa race timer. A timing
device sends text lines over a WebSocket. `START:<n>` means run n has started, and
`RESULT:<n>:<seconds>` means it has finished with that time. The `TimingDashboard`
object does four things:

- It tracks the run in progress and runs a live timer while one is going.
- It keeps the history of finished runs, most recent first.
- It shows the number of runs, the best time, and a table in which every best time and
  the newest row are marked.
- It retries a lost connection at most five times.

A demo mode does the same without hardware. Its "start" button hands out run numbers
1, 2, 3, … and its "finish" button finishes the oldest run still pending.

The model has five modules:

- `JsValues` (`js_values.dfy`) holds the JavaScript numbers the dashboard handles.
  - A number is either NaN or a finite value (`Number<T>`).
  - `Math.min` and `===` follow JavaScript semantics.
  - The global parsers `parseInt` and `parseFloat` are modelled character by character:
    leading white space, a sign, the `0x` prefix, the longest digit run, the fraction and
    the exponent.
  - Whatever follows the number is ignored (ParseIntDigitsThen, IntegerPrefixOfDecimal,
    ParseFloatDecimalThen, ExponentAbsent), and NaN comes out when no digit is there.
- `Strings` (`strings.dfy`) holds `split` on a one-character separator, and `join`.
- `Messages` (`messages.dfy`) holds the dispatch of `handleMessage` as a pure function
  from a line to the call it makes (`Classify`).
- `History` (`history.dfy`) holds the run record, the best time `updateStats` shows, and
  the rows `updateTable` draws.
- `Dashboard` (`dashboard.dfy`) holds the `TimingDashboard` class.
  - Its fields are the ones the source updates in place: `runs`, `currentRun`,
    `startTime`, `timerInterval`, `reconnectAttempts`, and the demo driver's
    `demoRunNumber` and `pendingRuns`.
  - Other fields stand for what the page shows (connection indicator, total runs, best
    time, table rows).
  - Other fields stand for the host's timers: the live intervals, the next interval
    handle, and the retries that are scheduled and have not yet fired.
  - `Valid()` is the invariant that the constructor establishes and that every method
    the page or the socket calls keeps; `UpdateStats` and `UpdateTable` are helpers
    called only after the history has changed, and keep it only together with that change:
    - at most one live interval, and it is the one `timerInterval` holds;
    - the counter never exceeds its cap of 5;
    - the page shows the count, best time and rows of the current history;
    - the pending demo runs are exactly those after the first ones finished.

The clock is a parameter `now` in milliseconds, the value `Date.now()` would return.
The run timestamp produced by `toLocaleTimeString()` is kept as that same opaque value.
Whether the `WebSocket` constructor throws is a `bool` parameter.

## Model

| member | source | states |
|---|---|---|
| JsValues.Min | timing/app.js:154 | `Math.min` of two numbers is NaN exactly when either is NaN; otherwise it is one of them and no greater than either |
| JsValues.TrimStart | timing/app.js:74 | the text the parsers read starts after the leading run of JavaScript white space and line terminators, and does not start with one |
| JsValues.DigitRun | timing/app.js:74 | the parsers read the longest prefix of digits: every character in it is a digit, and the next character is not |
| JsValues.StrictEquals | timing/app.js:170 | `===` on numbers holds between two equal numbers that are not NaN, and only there: NaN equals nothing, not even NaN |
| JsValues.ParseInt | timing/app.js:74 | `parseInt` with the radix left undefined; stated by ParseIntText, ParseIntDigitsThen, ParseIntSign and NoDigitsNaN |
| JsValues.IntegerPrefix | timing/app.js:74 | the integer at the front of an unsigned text, in radix 16 after `0x`; stated by IntegerPrefixOfNumeral, IntegerPrefixOfDecimal, IntegerPrefixOfHex and NoLeadingDigit |
| JsValues.IntegerPrefixOfDecimal | timing/app.js:74 | without `0x`, the unsigned reader takes the whole run of decimal digits, leading zeros included, and ignores what follows |
| JsValues.ParseIntDigitsThen | timing/app.js:74 | `parseInt` of digits followed by text that does not start with a digit is the digits' value: "12abc" is 12 and "007" is 7 |
| JsValues.IntegerPrefixOfHex | timing/app.js:74 | after `0x` or `0X`, a non-empty run of hexadecimal digits followed by a character that is not one is read in radix 16 |
| JsValues.NoLeadingDigit | timing/app.js:74 | a text that starts with neither a digit nor a point followed by a digit has no integer and no decimal number at its front |
| JsValues.ParseFloat | timing/app.js:79 | `parseFloat`; stated by ParseFloatDecimal, ParseFloatDecimalThen, ParseFloatSign and NoDigitsNaN |
| JsValues.DecimalPrefix | timing/app.js:79 | the decimal number at the front of an unsigned text: its mantissa scaled by the exponent part that follows, or by nothing when no complete one follows; stated by MantissaNone, MantissaLongest, MantissaWhole, MantissaWithPoint, ExponentOfDigits, ExponentAbsent, ScaleByPower, DecimalPrefixWithoutExponent and DecimalPrefixOfDecimal |
| JsValues.DecimalPrefixWithoutExponent | timing/app.js:79 | when no complete exponent part follows the mantissa, the decimal number is exactly the mantissa's value and the text after it is ignored |
| JsValues.MantissaOfDecimalThen | timing/app.js:79 | "whole.frac" followed by anything that does not start with a digit is read as the mantissa whole + fraction, ending at the fraction's last digit |
| JsValues.ParseFloatDecimalThen | timing/app.js:79 | `parseFloat` of "whole.frac" followed by text that starts with neither a digit nor a complete exponent part is exactly whole + fraction: a trailing carriage return or other text is ignored |
| JsValues.Exponent | timing/app.js:79 | the exponent part after the mantissa; stated by ExponentOfDigits and ExponentAbsent |
| JsValues.ExponentAbsent | timing/app.js:79 | text that does not start with a complete exponent part (`e` or `E`, an optional sign, at least one digit) contributes 0, so "x", "e", "e+" and "E-" change nothing |
| JsValues.ScaleBy | timing/app.js:79 | the mantissa scaled by the exponent; stated by ScaleByPower |
| JsValues.ParseIntSign | timing/app.js:74 | a `-` in front of a text that starts with neither white space nor a sign makes `parseInt` NaN exactly when the text alone is NaN, and otherwise gives the negation; a `+` changes nothing |
| JsValues.ParseFloatSign | timing/app.js:79 | the same for `parseFloat`: `-` negates, `+` changes nothing, and NaN stays NaN either way |
| JsValues.FractionOfDigits | timing/app.js:79 | the digits after the decimal point are worth their numeral divided by 10 to the number of digits: "025" is 25 / 1000 |
| JsValues.ScaleByPower | timing/app.js:79 | a negative exponent e divides the mantissa by 10 to the −e; for any other e, shifting the result back e places gives the mantissa, so it is the mantissa times 10 to the e |
| JsValues.ExponentOfDigits | timing/app.js:79 | an exponent part `e` or `E`, an optional sign and digits, followed by a non-digit, is worth its digits, negated after `-` |
| JsValues.Mantissa | timing/app.js:79 | a number prefix, when there is one, is non-empty and lies within the text |
| JsValues.MantissaNone | timing/app.js:79 | there is no number prefix exactly when the text starts with neither a digit nor a point followed by a digit |
| JsValues.MantissaLongest | timing/app.js:79 | the number prefix is made of digits and at most one point, holds a digit, and cannot be made longer: no digit follows it, and a point follows only when it already holds one |
| JsValues.MantissaWhole | timing/app.js:79 | a number prefix without a point is worth its digits |
| JsValues.MantissaWithPoint | timing/app.js:79 | a number prefix with a point is worth its digits without the point, divided by 10 to the number of digits after the point |
| JsValues.NatText | timing/app.js:72 | the device writes a number as a non-empty string of decimal digits |
| JsValues.NatTextValue | timing/app.js:72 | the digits of a written number have that number as their value |
| JsValues.IntegerPrefixOfNumeral | timing/app.js:74 | the unsigned integer reader reads back every number written in decimal |
| JsValues.ParseIntText | timing/app.js:74 | `parseInt` reads back every integer the device writes, negative ones included |
| JsValues.NoDigitsNaN | timing/app.js:74-79 | a text without a decimal digit, such as the `"undefined"` of a missing field, is NaN for both `parseInt` and `parseFloat` |
| JsValues.MantissaAtPoint | timing/app.js:79 | digits, a point and digits form a number prefix worth the whole part plus the fraction, running to the end of the fraction |
| JsValues.MantissaOfDecimal | timing/app.js:79 | a text "whole.frac" is entirely a number prefix, worth the whole part plus the fraction |
| JsValues.DecimalPrefixOfDecimal | timing/app.js:79 | the unsigned decimal reader gives exactly whole + fraction for "whole.frac" |
| JsValues.ParseFloatDecimal | timing/app.js:79 | `parseFloat` of "whole.frac" is exactly the value of the whole part plus the fraction |
| JsValues.ThreeDecimals | timing/app.js:79 | three decimals are read as thousandths of a second |
| JsValues.DigitRunOfNumeral | timing/app.js:74 | the digit run of digits followed by a non-digit is exactly those digits |
| Strings.IndexOf | timing/app.js:74 | the first occurrence of the separator: it is there, and not before |
| Strings.Split | timing/app.js:74-77 | `split(':')` gives at least one piece, the first piece is a prefix of the line, and no piece contains `:` |
| Strings.JoinSplit | timing/app.js:77 | joining the pieces of a split gives back the line |
| Strings.SplitJoin | timing/app.js:77 | pieces free of the separator come back unchanged from a join and a split |
| Strings.SplitAfter | timing/app.js:74-77 | splitting "first:rest" gives `first` followed by the pieces of `rest` |
| Messages.IntField | timing/app.js:74 | `parseInt` of a field, where a missing field is `undefined` and so NaN; stated by StartLine, ResultLine and StartWithoutNumber |
| Messages.TimeField | timing/app.js:79 | `parseFloat` of a field, where a missing field is `undefined` and so NaN; stated by ResultLine and ResultWithoutTime |
| Messages.Classify | timing/app.js:73-80 | the dispatch of `handleMessage`: a line is a start exactly when it begins with `START:`, and a finish exactly when it does not but begins with `RESULT:`; the fields it carries are stated by StartLine and ResultLine |
| Messages.StartLine | timing/app.js:73-75 | a line starting with `START:` starts a run numbered by `parseInt` of the text up to the next `:` |
| Messages.ResultLine | timing/app.js:76-80 | a line starting with `RESULT:` finishes a run with `parseInt` of field 1 and `parseFloat` of field 2, and field 2 is NaN when it is missing |
| Messages.OtherLine | timing/app.js:68-82 | any other line is ignored |
| Messages.StartMessage | timing/app.js:72-75 | the line the device sends for the start of run n is read as the start of run n |
| Messages.ResultMessage | timing/app.js:72-80 | the line the device sends for the finish of run n with a decimal time is read as that finish with the exact time |
| Messages.StartWithoutNumber | timing/app.js:73-75 | a start line with no digits in its field still starts a run, numbered NaN |
| Messages.ResultWithoutTime | timing/app.js:76-80 | `RESULT:n` without a time field still finishes run n, timed NaN |
| Messages.ExampleStartLine | timing/app.js:72 | `"START:1"` starts run 1 |
| Messages.ExampleResultLine | timing/app.js:72 | `"RESULT:1:2.345"` finishes run 1 in 2.345 s |
| History.MinTime | timing/app.js:154 | `Math.min(...runs.map(r => r.time))` is NaN exactly when some time is NaN; otherwise it is a time of the history that no time undercuts |
| History.Rows | timing/app.js:159-182 | one placeholder row for an empty history; otherwise one row per run in stored order, carrying its number, time and timestamp; a row is marked best exactly when its time is a number no greater than any time; only row 0 is marked new |
| History.TiesMarkedAlike | timing/app.js:170 | two runs with the same time are both marked best or both not |
| History.SomeRowMarkedBest | timing/app.js:170 | with no NaN time, some row of a non-empty history is marked best |
| History.NaNMarksNoRow | timing/app.js:154-170 | a NaN time anywhere in the history leaves every row unmarked |
| History.BestAfterRecord | timing/app.js:126-154 | after a run is put in front, the best time is `Math.min` of its time and the previous best |
| History.SingleRun | timing/app.js:159-182 | in a one-run history with a numeric time, that time is the best and its row is marked best and new |
| Dashboard.ReconnectStep | timing/app.js:60-66 | one `attemptReconnect`: a retry is scheduled exactly when the counter grows by one, otherwise the counter stays, and a counter within the cap stays within it |
| Dashboard.AfterCloses | timing/app.js:60-66 | several closes in a row never lower the counter, raise it by at most one per close, and schedule at most one retry per close |
| Dashboard.RetriesAreBounded | timing/app.js:60-66 | k closes in a row take the counter from a to min(a + k, 5) and schedule min(k, 5 − a) retries, so at most five from a fresh counter |
| Dashboard.MinKey | timing/app.js:199 | `Math.min(...pendingRuns.keys())` is a key no greater than any key |
| Dashboard.TimingDashboard.constructor | timing/app.js:5-16 | a new dashboard has an empty history, no run, the counter at zero, no retry scheduled and no demo run; when the socket constructor throws, the indicator shows Disconnected and no retry is scheduled |
| Dashboard.TimingDashboard.InitWebSocket | timing/app.js:27-58 | a throwing socket constructor shows Disconnected and schedules nothing; otherwise nothing changes until the socket opens or closes |
| Dashboard.TimingDashboard.UpdateConnectionStatus | timing/app.js:138-148 | the indicator shows Connected or Disconnected as asked |
| Dashboard.TimingDashboard.OnOpen | timing/app.js:35-39 | on open the indicator shows Connected and the counter is back to 0 |
| Dashboard.TimingDashboard.OnClose | timing/app.js:49-53 | on close the indicator shows Disconnected and one reconnect step is taken |
| Dashboard.TimingDashboard.AttemptReconnect | timing/app.js:60-66 | below the cap the counter grows by exactly one and one retry is scheduled; at the cap nothing changes; the counter never exceeds 5 |
| Dashboard.TimingDashboard.RetryFires | timing/app.js:64 | a scheduled retry fires once and runs `initWebSocket` again |
| Dashboard.TimingDashboard.HandleMessage | timing/app.js:68-82 | a start line starts its run at `now` and restarts the live timer without touching the history; a result line puts its run in front of the history and stops the timer; any other line changes nothing |
| Dashboard.TimingDashboard.HandleStart | timing/app.js:84-95 | the run and its start instant are replaced whatever they were, and exactly one fresh interval is live |
| Dashboard.TimingDashboard.StartLiveTimer | timing/app.js:97-106 | the previous interval is cleared before a new one is created, so exactly one interval is live |
| Dashboard.TimingDashboard.HandleFinish | timing/app.js:108-136 | the run is put in front of the history, older runs keep their order, no interval is live, the count, best time and rows are redrawn, and the run in progress is left as it was, whatever its number |
| Dashboard.TimingDashboard.UpdateStats | timing/app.js:150-157 | the count shown is the length of the history; the best time shown is the least time, and is left as it was for an empty history |
| Dashboard.TimingDashboard.UpdateTable | timing/app.js:159-182 | the rows shown are those of the history |
| Dashboard.TimingDashboard.DemoStart | timing/app.js:189-194 | the demo counter grows by one, the new number is a fresh key holding `now`, every key is at most the counter, and that run is started with one fresh interval live |
| Dashboard.TimingDashboard.DemoFinish | timing/app.js:196-206 | with no pending run nothing changes; otherwise the least pending number is removed, the other entries stay, that run is finished with the seconds elapsed since its start, no interval is live, and the count, best time and rows are redrawn |
| Dashboard.TimingDashboard.TakeOldestPending | timing/app.js:198-203 | the least pending number is found, its start instant read, and its entry deleted |
| Dashboard.StartThenResult | timing/app.js:68-182 | after `"START:1"` and `"RESULT:1:2.345"` the history holds that one run, the count is 1, the best is 2.345, and its row is marked best and new |
| Dashboard.TwoStartsOneFinish | timing/app.js:185-206 | after two demo starts, a demo finish takes run 1, not the run started last, and leaves run 2 pending |

## Left out

- DOM writes are not modelled: the run-status and current-time texts and classes,
  `toFixed(3)` formatting, and the HTML of the rows. Only which values are shown and which
  rows are marked best or new are modelled. `initElements` is not modelled.
- The WebSocket itself is not modelled: its URL, `onerror`, the wiring of `onmessage`
  (modelled as a call of `HandleMessage`), and handlers of replaced sockets. `OnClose` and
  `OnOpen` may be called at any time, which covers a late event from an old socket.
- Host timers are fields, not callbacks. The 50 ms tick that writes the elapsed time
  (timing/app.js:100-105) and the 3-second cosmetic reset (timing/app.js:131-135) only write
  DOM text and are not modelled.
- `console.log` and the `DOMContentLoaded` bootstrap (timing/app.js:210-213) are not modelled.
- The clock is a parameter, and the `toLocaleTimeString()` timestamp is kept as the
  millisecond value `now`. The demo "start" button reads the clock twice, once for
  `pendingRuns` (timing/app.js:191) and once inside `handleStart` (timing/app.js:86);
  DemoStart uses one `now` for both, so it does not capture the milliseconds that may
  pass between the two reads. The demo "finish" button likewise reads it twice, with
  `Date.now()` for the elapsed time (timing/app.js:201) and with `new Date()` for the
  timestamp inside `handleFinish` (timing/app.js:123); DemoFinish uses one `now` for both.
- ParseFloat: numbers are exact. A time is a `real` with no double rounding, and a
  parsed exponent scales exactly. The `Infinity` literal, which `parseFloat` accepts,
  gives NaN here.
- ParseInt: run numbers are unbounded integers, so the loss of precision of very long
  numerals in a double is not modelled.
- Two error paths are not modelled. `Math.min(...spread)` (timing/app.js:154, 170 and 199)
  throws a RangeError once the spread passes the engine's argument limit; MinTime and
  MinKey never fail, so the throw in `handleFinish`, which would come after the `unshift`
  and before `updateTable`, is not there. `data.startsWith` (timing/app.js:73) throws a
  TypeError on a binary frame, which is not a string; the model's message is always a string.
- Strings are sequences of Unicode scalar values rather than UTF-16 code units. The two
  agree on every character the parsers and `split(':')` look at, except characters
  outside the Basic Multilingual Plane.
- The device's own number formatting is not part of this model. The round-trip lemmas
  describe the time it sends as decimal digits, a point and decimal digits.
