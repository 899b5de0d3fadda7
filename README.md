# Result reader and progress bar of the surface-plotting form

This project models two pieces of the lab application's main form
(`MainForm.cs`):

- **Reading the results file** (`ReadResultsFromFile`). The worker threads
  write computed points to a text file. A point is written as the record
  `[X][Y] z = Z, x = X, y = Y`, and the records of one line are separated
  by `;`. The reader works as follows:
  - it skips every line that is empty or holds no `[`;
  - it splits each remaining line on `;`;
  - in each record it looks for the leftmost match of `z = (-?\d+,\d+)`,
    `x = (\d+)` and `y = (\d+)`;
  - it keeps a point only when all three patterns match and the captured
    texts parse; the comma of z is replaced by a point before parsing.
- **The progress bar and its labels**. `Button2_Click` resets the bar before
  a run. `UpdateUI` writes a worker's report into four labels and the bar: it
  shows values in range, clamps values above the maximum, and ignores
  negative values.

The model is split by concern:

| file | module | what it holds |
|---|---|---|
| `wrappers.dfy` | `Wrappers` | `Option` |
| `digits.dfy` | `Digits` | ASCII digit runs, their values, `int.ToString()` |
| `decimals.dfy` | `Decimals` | exact decimal numerals, `Replace(',', '.')`, `float.TryParse` on a numeral |
| `field_regex.dfy` | `FieldRegex` | the three patterns with `Regex.Match` leftmost semantics |
| `splitting.dfy` | `Splitting` | `string.Split(char)` and joining |
| `result_reader.dfy` | `ResultReader` | the reader: functions per record and per line, and the two nested loops as methods |
| `result_format.dfy` | `ResultFormat` | the record format, round-trip lemmas, and what happens to records that stray from it |
| `progress.dfy` | `Progress` | the bar as a class with the WinForms setter rules, `Reset` and `Update` |

The matching functions have these meanings:
- `MatchAt(s, key, shape, i)` is the group captured when the pattern is
  tried at position `i`.
- `LeftmostMatch` is the first position where `MatchAt` succeeds.
- The group `\d+` is the greedy digit run (`DigitRun`).
- For `-?\d+,\d+` the sign is tried first. Giving it back never helps,
  because `-` is not a digit.

The parsed z is the exact value of the numeral (a `real`); x and y are the
values of their digit runs (`nat`).

Two details of the code decide which records are read:
- The z pattern `-?\d+,\d+` accepts only a decimal comma, so a record
  written with `z = 1.5` is dropped (`ResultFormat.PointZDrops`).
- The `[` test is `Contains('[')`, made once for each line before the line is
  split. A record without brackets is therefore still read when it follows a
  bracketed record on the same line (`ResultFormat.BracketTestIsPerLine`).

## Model

| member | source | states |
|---|---|---|
| Digits.DigitRun | MainForm.cs:101-102 | `\d+` from a position is the longest run of digits there: all digits, ending at the end of the text or before a non-digit |
| Digits.NatTextRoundTrip | MainForm.cs:108-109 | the decimal text of a natural number reads back as that number |
| Digits.CanonicalTextRoundTrip | MainForm.cs:108-109 | a digit string without a leading zero is the text of its own value |
| Digits.DigitsValue | MainForm.cs:108-109 | the value of a digit string, read most significant digit first, is below 10 to the power of its length |
| Digits.IntToText | MainForm.cs:342 | `int.ToString()`: a leading '-' exactly for negative numbers, then a non-empty digit string without a leading zero |
| Digits.IntTextRoundTrip | MainForm.cs:342 | the text `threadId.ToString()` gives reads back as the thread number, sign included |
| Decimals.Replace | MainForm.cs:108 | `Replace(',', '.')` keeps the length, turns every ',' into '.', and changes nothing else |
| Decimals.ReadNumeral | MainForm.cs:108 | a text it splits is exactly the point text of the well-formed numeral it returns; `Decimals.DotTextParses` gives the converse |
| Decimals.ParseDecimal | MainForm.cs:108 | `float.TryParse` on the replaced group: it succeeds only on the point text of a well-formed numeral, and on every such text it gives that numeral's value |
| Decimals.CommaToDot | MainForm.cs:108 | replacing the comma of a comma numeral gives the same numeral written with a point |
| Decimals.DotTextParses | MainForm.cs:108 | a point numeral is read back as exactly its sign and digit strings |
| Decimals.CommaTextParses | MainForm.cs:108 | a captured z text, after the replacement, parses to exactly the value of the numeral |
| FieldRegex.CommaNumeralAt | MainForm.cs:100 | `\d+,\d+` at a position gives two non-empty greedy digit runs around a comma, and no digit follows |
| FieldRegex.SignedNumeralAt | MainForm.cs:100 | `-?\d+,\d+` at a position captures a well-formed numeral that is written there: its sign is the '-' at the position, its digits and comma are the characters that follow, and no digit comes after it |
| FieldRegex.GroupAt | MainForm.cs:100-102 | the captured group is the substring of the text at the position, never followed by a digit; for `(\d+)` it is a non-empty run of digits |
| FieldRegex.MatchAt | MainForm.cs:100-102 | a match attempted at a position succeeds only where the key is written there, and its group is the substring that follows the key |
| FieldRegex.FirstMatch | MainForm.cs:100-102 | the first successful attempt: it succeeds, and every earlier attempt fails |
| FieldRegex.LeftmostMatch | MainForm.cs:100-102 | `Regex.Match`: when it succeeds, the pattern matches at the reported index with the reported group and at no earlier position; when it fails, the pattern matches nowhere |
| FieldRegex.LeftmostMatchAt | MainForm.cs:100-102 | a key written at a position, whose first letter does not occur earlier, followed by a matching group, is the leftmost match |
| FieldRegex.LeftmostMatchNone | MainForm.cs:100-102 | when the key's first letter occurs only where the key is written and the group fails there, the pattern does not match |
| FieldRegex.SignedNumeralAtFinds | MainForm.cs:100 | a numeral written with a comma, followed by no digit, is captured with its sign |
| FieldRegex.SignedNumeralFails | MainForm.cs:100 | digits, with or without a minus sign, that are not followed by a comma and a digit do not match `-?\d+,\d+` |
| FieldRegex.UnsignedGroupFinds | MainForm.cs:101-102 | a digit string followed by no digit is exactly what `(\d+)` captures |
| Splitting.Split | MainForm.cs:97 | `Split(';')` gives one piece more than there are separators, empty pieces included, and no piece holds a separator |
| Splitting.JoinSplit | MainForm.cs:97 | joining the pieces with the separator gives the line back |
| Splitting.SplitJoin | MainForm.cs:97 | records without ';' that are joined by ';' split back into exactly those records |
| ResultReader.ZNumeral | MainForm.cs:100 | the z numeral exists exactly when the z pattern matches, and it is a well-formed numeral whose comma text is the captured group |
| ResultReader.ParseUnsigned | MainForm.cs:108-109 | `float.TryParse` of an x or y group succeeds exactly on non-empty digit strings, with a value below 10 to the power of the length; the decimal text of every number reads as that number |
| ResultReader.ParseSegment | MainForm.cs:100-111 | a record gives a point exactly when all three patterns match (the conversions never fail on what they capture); z is the value of the z numeral and x, y are the values of their digit runs |
| ResultReader.ParseLine | MainForm.cs:90-112 | a line without '[' gives nothing, and a line gives at most one point per `;`-separated record |
| ResultReader.ParseLines | MainForm.cs:89-113 | a file none of whose lines holds a '[' gives no points |
| ResultReader.FlatMapAppend | MainForm.cs:89-113 | the points of a file are those of its lines, concatenated in file order |
| ResultReader.CollectAppend | MainForm.cs:98-112 | the points of a line are those of its records, concatenated in record order |
| ResultReader.ReadResults | MainForm.cs:89-113 | the loop over the lines returns exactly the concatenation, in order, of what each line gives |
| ResultReader.AppendRecords | MainForm.cs:97-112 | for a line that is not skipped, the result is what came before followed by the points of its records |
| ResultReader.AppendFound | MainForm.cs:98-112 | the loop over the records appends, in order, the point of every record that has one |
| ResultFormat.FieldsRoundTrip | MainForm.cs:100-110 | the fields `z = Z, x = X, y = Y`, after any text without the letters x, y and z, read back as exactly the point (X, Y, Z) |
| ResultFormat.RecordRoundTrip | MainForm.cs:100-110 | a record `[X][Y] z = Z, x = X, y = Y` reads back as exactly the point (X, Y, Z) |
| ResultFormat.LineRoundTrip | MainForm.cs:90-112 | a line of records joined by ';' reads back as their points, in order |
| ResultFormat.FileRoundTrip | MainForm.cs:89-113 | a file of such lines reads back as all the points, line after line |
| ResultFormat.BracketTestIsPerLine | MainForm.cs:93-98 | bare fields on a line of their own are skipped, but after a bracketed record on the same line they are read |
| ResultFormat.ZWithoutCommaDrops | MainForm.cs:100-106 | when the letter z occurs nowhere else in the record, a z written as digits, signed or not, that are not followed by a comma and a digit drops the record |
| ResultFormat.UnsignedFieldRequired | MainForm.cs:101-106 | when the key's letter occurs nowhere else in the record, an x or y key followed by anything but a digit drops the record |
| ResultFormat.NegativeNumeral | MainForm.cs:108 | `-2,25` is a well-formed numeral of value -2.25 |
| ResultFormat.NegativeCommaZ | MainForm.cs:100-110 | the record `[1][2] z = -2,25, x = 1, y = 2` gives the point (1, 2, -2.25), sign kept |
| ResultFormat.PointZDrops | MainForm.cs:100-106 | `[1][2] z = 1.5, x = 1, y = 2` gives no point |
| ResultFormat.IntegerZDrops | MainForm.cs:100-106 | `[3][4] z = 3, x = 3, y = 4` gives no point |
| ResultFormat.NegativeXDrops | MainForm.cs:101-106 | `[1][2] z = 1,5, x = -3, y = 2` gives no point |
| Progress.NextValue | MainForm.cs:344-348 | a report in range is shown, one above the maximum shows the maximum, and a negative one leaves the bar as it was |
| Progress.NextValueInRange | MainForm.cs:344-348 | whatever is reported, a bar from 0 to its maximum stays in range |
| Progress.NextValueIdempotent | MainForm.cs:344-348 | reporting the same progress twice shows the same as reporting it once |
| Progress.NextValueForgetsPast | MainForm.cs:344-348 | after a non-negative report the bar shows the same whatever it showed before |
| Progress.ProgressIndicator.constructor | MainForm.cs:27-31 | the form starts with a bar from 0 to 100 at 0 |
| Progress.ProgressIndicator.SetMaximum | MainForm.cs:61 | `Maximum = m` throws exactly when m is negative and then changes nothing; otherwise it stores m and lowers the minimum and the value to m when they exceed it; the bar stays in range |
| Progress.ProgressIndicator.SetStep | MainForm.cs:62 | `Step = s` stores s and changes nothing else |
| Progress.ProgressIndicator.SetMinimum | MainForm.cs:63 | `Minimum = m` throws exactly when m is negative and then changes nothing; otherwise it stores m and raises the maximum and the value to m when they are below it; the bar stays in range |
| Progress.ProgressIndicator.SetValue | MainForm.cs:345-350 | `Value = v` stores v when it is within the bounds; otherwise it throws and the bar is unchanged |
| Progress.ProgressIndicator.Reset | MainForm.cs:61-64 | from any bar, the reset leaves max = 100, step = 1, min = 0 and value = 0, with the labels untouched |
| Progress.ProgressIndicator.Update | MainForm.cs:333-351 | the labels show start, finish, duration and the decimal text of the thread number; the bar shows `NextValue` of the report; the bounds stay; the exception handler is never entered |

## Left out

- File access is not modelled: `File.Exists`, `File.ReadAllLines`, the message boxes for a missing file or a read error, and the `try`/`catch` around them. `ReadResults` takes the file's lines as its input.
- `UpdateUI`'s hop to the form's thread (`InvokeRequired` / `Invoke`) and the worker threads and tasks are not modelled. `Update` is the body that runs on the form's thread.
- The rest of `Button2_Click` is not modelled: reading the text boxes, clearing files and starting the calculators. `ProgressBar.Refresh()` is not modelled either.
- Drawing the results, the projection, and `DrawingParameters.cs` are not part of this model.
- The writer of the results file lives in the worker code, which is not part of this model. `ResultFormat` states the record format as a reference.
- ResultReader.ParseSegment: x, y and z are exact (`nat`, `real`). `Point3D` stores single-precision floats, so the rounding of long numerals and the overflow of very long digit runs are not modelled. Neither is the sign of a negative zero (`-0,0`).
- Decimals.ParseDecimal: `float.TryParse` is modelled only on the shape the z group can produce after the replacement (`-?\d+\.\d+`), as read in a culture whose decimal separator is '.'. The current culture's influence on `float.TryParse` is not modelled. Neither are the other number shapes it accepts.
- Digits.IsDigit: `\d` is modelled as the ASCII digits. .NET's `\d` also matches other Unicode decimal digits.
- Progress.ProgressIndicator.constructor: the designer file is not part of this model. The bar is assumed to start with the `ProgressBar` defaults (minimum 0, maximum 100, value 0, step 10), and the labels start empty.
