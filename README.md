# run.js: attaching frida to every matching process

`run.js` is a small Node.js glue script. It works in four steps:

1. It runs the process-listing command `frida-ps`.
2. It keeps the listing lines that mention a filter word, ignoring case.
3. From each kept line it reads the process identifier (PID) at the front.
4. It starts one `frida -p <pid> -l config.js -l native-connect-hook.js` per PID and waits for keystrokes. A `q` or `Q` kills every frida process it started and exits with status 0.

When no PID is found, it exits with status 0 at once.

This project models that logic in Dafny and proves properties of it. There are five modules:

- `Basics` (`basics.dfy`): `Option`, mapping over a list, and keeping the present entries of a list of options, with their lemmas.
- `JsString` (`js_string.dfy`): the JavaScript built-ins the parser relies on.
  - `toLowerCase`, for ASCII letters.
  - `includes`.
  - `split` with a one-character separator.
  - `trim`, over the ECMAScript WhiteSpace and LineTerminator characters.
  - `split(/\s+/)`.
  - `parseInt(s, 10)`: skip white space, take an optional sign, then the longest run of decimal digits. No digit is `None`, which stands for NaN.
  - `Number.prototype.toString`, for integers.
- `Locator` (`locator.dfy`): `filterPs`, and the PIDs one line yields (`LinePid`).
  - The pure parse `Pids(output, filter)`.
  - The imperative `getPIDs` loop (`GetPids`), proved equal to that parse. A failed listing gives `[]`.
- `Supervisor` (`supervisor.dfy`): the start decision of `main` (`StartPlan`) and the frida command line (`FridaArgv`).
  - Launched frida processes are objects (`FridaProcess`) that record the signals sent to them.
  - The session (`Session`) keeps those processes and whether `main` still listens for keys.
  - The quit rule (`IsQuit`) and the `'data'` callback (`OnData`), which kills every process on `q`/`Q`.
- `Scenarios` (`scenarios.dfy`): concrete listings and sessions stated as lemmas and methods.
  - Three listings with their PID lists.
  - A listing with no match, and a failed listing.
  - A two-process session quit with `Q` after another key.

## Model

| member | source | states |
|---|---|---|
| JsString.LowerChar | run.js:14 | the result is never an ASCII capital; a capital moves to its lowercase letter, anything else is kept |
| JsString.ToLowerCase | run.js:14 | `toLowerCase()` keeps the length, lowers each character by LowerChar, and leaves no ASCII capital in the result |
| JsString.ToLowerCaseIdempotent | run.js:14 | lowering a lowered string changes nothing |
| JsString.Includes | run.js:14 | `s.includes(t)`: the empty string is included in every text, and nothing longer than s is included in s; IncludesIff characterises it fully |
| JsString.IncludesIff | run.js:14 | `s.includes(t)` holds exactly when t occurs in s at some position; the empty string occurs everywhere |
| JsString.Split | run.js:29 | `s.split(sep)` has at least one piece (`"".split('\n')` is `[""]`), and a single piece is the whole text; SplitNoSeparator, JoinSplit, SplitConcat and SplitCount characterise the pieces |
| JsString.SplitNoSeparator | run.js:29 | no piece of `s.split(sep)` contains sep |
| JsString.JoinSplit | run.js:29 | joining the pieces of `s.split(sep)` with sep gives back s |
| JsString.SplitJoin | run.js:29 | splitting separator-free pieces joined by sep gives back the pieces |
| JsString.SplitConcat | run.js:29 | `(a + sep + b).split(sep)` is `a.split(sep)` followed by `b.split(sep)` |
| JsString.SplitCount | run.js:29 | there is one more piece than there are separators |
| JsString.TrimStart | run.js:33 | the result is a suffix, everything cut off is white space, and it does not start with white space |
| JsString.TrimEnd | run.js:33 | the result is a prefix, everything cut off is white space, and it does not end with white space |
| JsString.Trim | run.js:33 | the result is a middle slice with only white space on either side, and it neither starts nor ends with white space |
| JsString.TrimEmptyIff | run.js:33 | `line.trim()` is empty (falsy) exactly when the line is all white space |
| JsString.FirstToken | run.js:34 | the result is a prefix with no white space, followed by white space or the end of the text |
| JsString.FirstTokenUnique | run.js:34 | those three properties determine the first token |
| JsString.SplitWhiteSpace | run.js:34-35 | `split(/\s+/)` gives at least one piece, so `parts.length >= 1` always holds; the first piece is the first token, and no piece has white space |
| JsString.DigitPrefix | run.js:36 | the longest run of digits at the front: a prefix, all digits, not followed by a digit |
| JsString.Find | run.js:29 | the position of the first separator is within the text |
| JsString.FindSpec | run.js:29 | the position found holds the separator, and none comes before it |
| JsString.NumberToString | run.js:61 | the text of an integer is digits with a leading minus exactly for negatives, with no leading zero: zero is "0", and "-0" and "007" never arise |
| JsString.NumberToStringIsToken | run.js:61 | the text of an integer has no white space |
| JsString.ParseInt | run.js:36 | `parseInt(s, 10)` skips leading white space, then reads an optional sign and the leading digits; it gives a number only when s holds a digit. ParseIntSkipsWhiteSpace, ParseIntPlus, ParseIntNegative, ParseIntUnsigned, ParseIntNoDigit and ParseIntSignWithoutDigit fix its value and its NaN cases |
| JsString.ParseSigned | run.js:36 | the sign-and-digits part of `parseInt`, once white space is skipped: a number only when the text holds a digit |
| JsString.TrimStartBlankPrefix | run.js:33 | removing leading white space from white space followed by text that does not start with white space leaves exactly that text |
| JsString.ParseIntSkipsWhiteSpace | run.js:36 | white space in front of a text does not change what `parseInt` reads from it |
| JsString.ParseIntPlus | run.js:36 | `parseInt("+" + d)` is the value of the leading digits of d, or NaN when d does not start with a digit |
| JsString.ParseIntOfText | run.js:36 | `parseInt` reads back the decimal text of any integer |
| JsString.ParseIntOfNumberToString | run.js:36 | `parseInt` reads back the text of any integer, also when followed by text not starting with a digit; negative values included, since there is no positivity check |
| JsString.ParseIntNegative | run.js:36 | `parseInt("-" + d)` is the negated value of the leading digits of d, or NaN when d does not start with a digit |
| JsString.ParseIntUnsigned | run.js:36 | a text starting with a digit parses as the value of its leading digits ("123abc" gives 123) |
| JsString.ParseIntNoDigit | run.js:36-37 | a text starting with neither white space, a sign nor a digit is NaN |
| JsString.ParseIntSignWithoutDigit | run.js:36-37 | a sign not followed by a digit is NaN |
| JsString.LeadingNumberOfDecimal | run.js:36 | the leading digits of an integer's decimal text, followed by a non-digit, denote that integer |
| Locator.FilterPs | run.js:12-18 | the empty filter passes every line, and a filter longer than the line passes none; FilterPsIff characterises it fully |
| Locator.FilterPsIff | run.js:12-18 | `filterPs(line)` holds exactly when the lowercased filter occurs somewhere in the lowercased line |
| Locator.FilterPsEmptyFilter | run.js:14 | the empty filter passes every line |
| Locator.FilterPsIgnoresCase | run.js:14 | lowering the line or the filter first does not change the outcome |
| Locator.FilterPsNeedsChars | run.js:14 | a passing line holds every character of the filter, up to case |
| Locator.LinePid | run.js:32-38 | one pass of the loop body: a line gives a PID only if it passes the filter and is not blank; LinePidIff, RowPid and Contributors fix what it gives |
| Locator.LinePidIff | run.js:32-38 | a line failing the filter or blank gives nothing; any other line gives `parseInt` of the first token of the trimmed line (nothing when NaN) |
| Locator.RowPid | run.js:32-38 | a passing row "white space, pid, white space, rest" gives exactly that pid |
| Locator.BlankLinePid | run.js:33 | a blank line gives nothing, whatever the filter |
| Locator.PidsOfLines | run.js:31-42 | at most one PID per line |
| Locator.Pids | run.js:29-42 | at most one PID more than the number of newlines in the listing |
| Locator.PidsOfLinesConcat | run.js:31-38 | the PIDs of two line lists joined are the PIDs of the first followed by those of the second |
| Locator.PidsOfLinesStep | run.js:31-38 | the first i+1 lines give the PIDs of the first i lines, then what line i gives |
| Locator.PidsConcat | run.js:29-38 | parsing `a + "\n" + b` gives the PIDs of a followed by the PIDs of b: order is kept and lines do not interfere |
| Locator.PidsOfOneLine | run.js:29-38 | text without a newline gives at most the one PID of its single line |
| Locator.PidsOfEmptyOutput | run.js:29-42 | an empty listing gives no PIDs |
| Locator.Contributors | run.js:31-42 | each PID comes from its own line, in strictly increasing line order, and the contributing lines are exactly those whose LinePid is defined |
| Locator.ScanLine | run.js:32-38 | the loop body's tests, run in order (filter, blank after trim, first token, NaN), yield exactly `LinePid(line, filter)` |
| Locator.ScanListing | run.js:28-42 | the `for` loop over the lines of the listing collects exactly `Pids(output, filter)`, in line order |
| Locator.GetPids | run.js:22-56 | the `try`/`catch` around the loop: a listing that succeeds gives `Pids(stdout, filter)`, a failed listing gives `[]` |
| Supervisor.FridaArgv | run.js:61 | frida gets six arguments: `-p`, the decimal text of the PID (`pid.toString()`), then `-l config.js -l native-connect-hook.js` |
| Supervisor.FridaArgvTarget | run.js:61 | the `-p` argument reads back, with `parseInt`, as exactly the PID |
| Supervisor.FridaArgvInjective | run.js:61 | two PIDs get the same command line only when they are equal |
| Supervisor.StartPlan | run.js:76-82 | an empty PID list, and only that, means exit with status 0; otherwise exactly one launch per PID |
| Supervisor.StartPlanTargets | run.js:82 | launch k is exactly the frida command line of the k-th PID, whose `-p` argument reads back as that PID, so the list order is kept |
| Supervisor.StartPlanDistinct | run.js:82 | two launches of one plan have equal arguments exactly when their PIDs are equal |
| Supervisor.IsQuit | run.js:92 | a quitting chunk is exactly one character long; IsQuitIff names the two chunks |
| Supervisor.IsQuitIff | run.js:92 | a chunk quits exactly when it is "q" or "Q" |
| Supervisor.FridaProcess.Spawn | run.js:61-63 | a new frida process holds its arguments and has received no signal |
| Supervisor.FridaProcess.Kill | run.js:97 | the signal is added to those the process has received |
| Supervisor.LaunchAll | run.js:82 | one fresh, distinct, unsignalled frida process per command line, in order |
| Supervisor.Session.Start | run.js:76-82 | the session follows StartPlan: exit with status 0 and no processes, or listening with one fresh process per launch |
| Supervisor.Session.Run | run.js:73-82 | main locates the PIDs as `getPIDs` does and starts the session on them |
| Supervisor.Session.OnData | run.js:90-103 | on a quit chunk every process gets SIGKILL, none skipped, and the phase becomes exited with status 0; any other chunk changes no process and keeps listening |
| Scenarios.FilterPsAt | run.js:14 | a line passes when, up to case, the filter matches the line's characters at some position |
| Scenarios.FilterPsMissing | run.js:14 | a line lacking a character of the filter, up to case, fails |
| Scenarios.TwoLines | run.js:29-38 | two newline-terminated lines give what each line gives, in order |
| Scenarios.OneLine | run.js:29-38 | one newline-terminated line gives what that line gives |
| Scenarios.ScenarioOneMatch | run.js:22-42 | "1234 myapp\n5678 other\n" with filter "myapp" gives [1234] |
| Scenarios.ScenarioIgnoreCase | run.js:14 | "12 FooBar\n34 foobar\n" with filter "foobar" gives [12, 34] |
| Scenarios.ScenarioNaNToken | run.js:36-37 | "abc not-a-pid\n" with filter "not-a-pid" gives [] |
| Scenarios.ScenarioNothingFound | run.js:76-79 | an empty listing: exit with status 0 and nothing launched |
| Scenarios.ScenarioListingFails | run.js:52-55 | a failed listing: exit with status 0 and nothing launched |
| Scenarios.ScenarioLaunch | run.js:74-82 | two PIDs found: two frida processes for 12 and 34, in that order, and main listens |
| Scenarios.ScenarioQuit | run.js:90-102 | after another key changes nothing, "Q" sends SIGKILL once to each of the two processes and exits with status 0 |

## Notes on the source

The code is followed wherever other descriptions of the script differ from it:

- PIDs are not checked to be positive. `parseInt` accepts a sign, so a first token "-5" gives -5 and "0" gives 0. `ParseIntNegative` and `ParseIntOfNumberToString` state this.
- The filter is `process.argv.at(-1)` (run.js:10). With no argument, that is the path of the script itself, not a missing value. So the filter does not fail against every line: it matches only lines that mention the script path. The model takes the filter as a parameter.
- A line is tested against the filter before it is tested for blankness (run.js:32-33). Both tests must pass, so the order does not change the result.

## Left out

- Process and terminal I/O are left out:
  - running `frida-ps`, modelled as the `Listing` input: its standard output, or a failure;
  - `spawn`, modelled as creating a `FridaProcess`;
  - stdio wiring, `setRawMode` and `resume`;
  - all console output (run.js:25, 46-48, 53, 60-63, 77, 85-89, 93).
- `process.exit(0)` is modelled as the `Exited(0)` phase. Nothing happens after it: `OnData` requires a listening session.
- The `'close'` callback of each frida process (run.js:65-67) only logs, so it is not modelled.
- Event-loop scheduling is not modelled. Each `'data'` event is one call of `OnData`.
- `key.toString()` (run.js:92) decodes a byte buffer. The model takes the decoded chunk as its input.
- Spawn failures are not modelled: `Spawn` always succeeds. An exception there would end the program.
- `FridaProcess.Kill` records a signal even on a frida process that has already exited. The real `kill` would then do nothing.
- `LowerChar` folds only the ASCII letters A-Z. JavaScript also folds other capitals.
- Strings are sequences of Unicode scalar values. JavaScript strings are UTF-16 code units, so surrogate pairs are not modelled. White space uses the full ECMAScript WhiteSpace and LineTerminator set, not ASCII only.
- `ParseInt`: there is no IEEE double precision.
  - PIDs are unbounded integers, so above 2^53 the model is exact where JavaScript is not.
  - JavaScript's `-0` from `"-0"` is the integer 0 here.
- FridaArgvTarget: JavaScript prints numbers of 1e21 and more in exponent form ("1e+21"), which `parseInt` reads back as 1. With unbounded integers, `NumberToString` always prints plain digits, so the read-back holds in the model for every integer. Real PIDs are far below that bound.
- The two frida scripts `config.js` and `native-connect-hook.js` are foreign code. Only their file names appear, as arguments.
