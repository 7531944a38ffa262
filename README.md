# GlebSat: a verified model of the dashboard rules

GlebSat is a school CanSat project: a small satellite sends telemetry records (temperature,
pressure, humidity, altitude, CO2, fine particles and a GPS position) that a React dashboard
shows to its administrators and to the public, next to a news site. A small Django backend
handles accounts and news. This project models, in Dafny, the deterministic rules inside
that code and proves what they promise:

- how the charts format time labels and choose their ticks;
- how a mission's raw records become per-sensor series with extremes, trends, time labels
  and a trajectory, on the missions page and on the comparison page;
- how mission durations, report values, table rows and file names are written;
- how the news carousel cycles its images and how image paths are made relative;
- how the admin gallery groups images, checks a save and switches an image on or off;
- which menu entry is highlighted for a path;
- how the sign-up, sign-in and password-reset forms check their fields, which requests they
  send, and what the login writes into the browser's store;
- how the backend logs users in against the user table and registers them under a salted
  password hash, and how it lists the news;
- how the theme (dark or light) is kept in the store and toggled.

One module corresponds to each source file:

| module | source |
|---|---|
| `SensorChart` | `src/Admin/components/SensorChart.tsx` |
| `FrontSensorChart` | `src/components/FrontSensorChart.tsx` |
| `MultiSensorChart` | `src/Admin/components/MultiSensorChart.tsx` |
| `ReportGenerator`, `ClockDuration` | `src/Admin/services/ReportGenerator.ts` |
| `ViewMissions`, `Trend`, `TelemetryRecord` | `src/Admin/ViewMissions.tsx` |
| `DataAnalysis` | `src/Admin/DataAnalysis.tsx` |
| `SensorData` | `src/Admin/internals/data/sensorData.ts` |
| `NewsArticlePage` | `src/NewsArticlePage.tsx` |
| `ManageImages` | `src/Admin/ManageImages.tsx` |
| `MenuContent` | `src/Admin/components/MenuContent.tsx` |
| `FormRules`, `SignUp` | `src/Admin/authentication/SignUp.tsx` |
| `SignIn` | `src/Admin/authentication/SignIn.tsx` |
| `ResetPassword` | `src/Admin/authentication/components/ResetPassword.tsx` |
| `BackendViews` | `backend/api/views.py` |
| `AppTheme`, `Browser` | `src/assets/theme/AppTheme.tsx` |
| `ThemeToggle` | `src/components/ThemeToggle.tsx` |

The shared modules are:

- `JsText`: the JavaScript string operations the pages use. These are `${n}`, `parseInt`
  with its prefix rule, `split` on one character, `startsWith`, `trim`, `toLowerCase`,
  `replace(/\s+/g, …)`, the first-match `replace` and `toFixed`.
- `TelemetryRecord`: a record's JSON fields, JavaScript's `Number()` and truthiness, and
  the specification functions for series, labels and trajectories.
- `Trend`: the percent change over extended reals, where dividing by zero gives an
  infinity or `NaN`, and the 3% classification.
- `ClockDuration`: the `H:MM:SS` duration text that the report and the missions page share.
- `TimeLabel`: the `"Ns"` labels and reading rendered h/m/s text back.
- `Browser`: `localStorage` and the document's class, as a class with a map field.
- `Optional`: an option type.

Readings are Dafny `real`s and counts are `nat`s. Code that mutates state is written as
classes and methods:

- the login, sign-up and reset forms;
- the gallery's state and its in-place toggle;
- the store and the theme switch;
- the backend user table.

Each method is proved against specification functions. The record loops
(`processSensorData`, `processMissionData`, `processMultipleMissionsData`,
`formatChartData`, `getCustomTicks` and the registration message loop) are methods with
loop invariants.

## Model

| member | source | states |
|---|---|---|
| JsText.NatToString | src/Admin/components/SensorChart.tsx:123-132 | `${n}` of a natural number is a non-empty run of decimal digits without a leading zero |
| JsText.NatToStringValue | src/Admin/components/SensorChart.tsx:123-132 | the digits of `${n}` denote `n` |
| JsText.NatToStringInjective | src/Admin/components/SensorChart.tsx:123-132 | different numbers render as different texts |
| JsText.IntToString | src/Admin/ManageImages.tsx:240 | `${i}` of any integer is non-empty |
| JsText.DigitPrefix | src/Admin/components/SensorChart.tsx:118 | the part `parseInt` reads is the longest prefix of decimal digits |
| JsText.DigitPrefixOf | src/Admin/components/SensorChart.tsx:118 | digits followed by a non-digit give exactly those digits as the prefix |
| JsText.ParseIntDigits | src/Admin/components/SensorChart.tsx:118 | `parseInt` of digits followed by a non-digit is their value |
| JsText.ParseIntOfNat | src/Admin/components/SensorChart.tsx:118 | `parseInt(`${n}` + rest)` is `n` when `rest` does not continue the digits |
| JsText.ParseIntOfInt | src/NewsArticlePage.tsx:65 | `parseInt` undoes `${i}` for every integer, negative ones included |
| JsText.TrimStart | src/Admin/ManageImages.tsx:209 | the result is a suffix that starts with a non-space, and only white space was dropped |
| JsText.TrimEnd | src/Admin/ManageImages.tsx:209 | the result is a prefix that ends with a non-space, and only white space was dropped |
| JsText.TrimEmpty | src/Admin/ManageImages.tsx:209 | `trim()` gives "" exactly when every character is white space |
| JsText.Split | src/Admin/services/ReportGenerator.ts:81 | `split(':')` always gives at least one part |
| JsText.SplitNoSeparator | src/Admin/services/ReportGenerator.ts:84 | a text without the separator splits into itself alone |
| JsText.SplitAtFirst | src/Admin/services/ReportGenerator.ts:81 | splitting at the first separator peels off the text before it |
| JsText.SplitHasTwoParts | src/Admin/services/ReportGenerator.ts:80-82 | a text holding the separator splits into two parts or more |
| JsText.ReplaceFirstAbsent | src/Admin/services/ReportGenerator.ts:175 | replacing the first '.' leaves a text without '.' unchanged |
| JsText.ReplaceFirstAfter | src/Admin/services/ReportGenerator.ts:175 | the first occurrence is replaced and the rest, later '.'s included, is kept |
| JsText.ReplaceSpaceRunsNoSpace | src/Admin/components/MultiSensorChart.tsx:107 | replacing white-space runs by a space-free text leaves no white space |
| JsText.ReplaceSpaceRunsIdentity | src/Admin/components/MultiSensorChart.tsx:107 | a text without white space is left as it is |
| JsText.Lower | src/Admin/components/MultiSensorChart.tsx:107 | lower-casing a character does not change whether it is white space |
| JsText.ToLower | src/Admin/components/MultiSensorChart.tsx:107 | `toLowerCase` keeps the length and lowers each character in place |
| JsText.ToLowerIdempotent | src/Admin/components/MultiSensorChart.tsx:107 | lowering twice is lowering once |
| JsText.ToLowerAppend | src/Admin/components/MultiSensorChart.tsx:107 | lowering distributes over concatenation |
| JsText.ToLowerReplaceSpaceRuns | src/Admin/services/ReportGenerator.ts:283 | lowering and replacing white-space runs commute |
| JsText.FixedUnits | src/Admin/ViewMissions.tsx:291 | the scaled integer of `toFixed` is within half a unit of `x * 10^f` |
| JsText.FixedDigits | src/Admin/services/ReportGenerator.ts:174 | `toFixed(f)` starts with a digit, holds only digits for `f = 0`, and otherwise has a '.' before exactly `f` final digits |
| JsText.CodeUnits | src/Admin/authentication/SignUp.tsx:110 | a character takes one UTF-16 code unit inside the Basic Multilingual Plane and two outside it |
| JsText.Length | src/Admin/authentication/SignUp.tsx:110 | `length` is between the number of characters and twice it, and is 0 exactly for "" |
| JsText.LengthOfPlaneZero | src/Admin/authentication/SignUp.tsx:110 | for Basic Multilingual Plane text, `length` is the number of characters |
| JsText.LengthOfAstral | src/Admin/authentication/SignUp.tsx:110 | for text outside that plane, `length` is twice the number of characters |
| TimeLabel.SecondsOfLabel | src/Admin/components/SensorChart.tsx:118 | the label `"Ns"` parses back to `N` |
| TimeLabel.ReadOne | src/Admin/components/SensorChart.tsx:123-132 | one rendered h/m/s token reads back as its number of seconds |
| TimeLabel.ReadCons | src/Admin/components/SensorChart.tsx:123-132 | a token, a space and more tokens read back as the sum of their seconds |
| SensorChart.FormatLabel | src/Admin/components/SensorChart.tsx:117-134 | a label `"Ns"` is formatted as the h/m/s text of `N` |
| SensorChart.FormatBelowMinute | src/Admin/components/SensorChart.tsx:131-133 | fewer than 60 seconds render as `"Ns"` |
| SensorChart.FormatMinutes | src/Admin/components/SensorChart.tsx:126-130 | from 60 to 3599 seconds: `"Mm"` on a whole minute, otherwise `"Mm Ss"`, with `60 * M + S` the seconds and `S < 60` |
| SensorChart.FormatHours | src/Admin/components/SensorChart.tsx:119-125 | from 3600 seconds: `"Nh"` on a whole hour, `"Nh Mm"` on a whole minute, otherwise all three parts, with `3600 * N + 60 * M + S` the seconds and `M, S < 60` |
| SensorChart.FormatHourAndFiveSeconds | src/Admin/components/SensorChart.tsx:119-125 | an hour and five seconds renders as `"1h 0m 5s"` |
| SensorChart.FormatReadsBack | src/Admin/components/SensorChart.tsx:117-134 | every formatted label reads back as the label's number of seconds |
| SensorChart.AllSeconds | src/Admin/components/SensorChart.tsx:139 | the seconds of every label, one per label in order, or nothing when some label reads as `NaN` |
| SensorChart.Max | src/Admin/components/SensorChart.tsx:140 | `Math.max` of the seconds is one of them and no smaller than any |
| SensorChart.Min | src/Admin/components/SensorChart.tsx:154 | `Math.min` of the seconds is one of them and no larger than any |
| SensorChart.TickInterval | src/Admin/components/SensorChart.tsx:136-145 | 30 without labels, and always one of 10, 30 and 60 |
| SensorChart.TickIntervalChoice | src/Admin/components/SensorChart.tsx:136-145 | with labels, 10 exactly when every label is within a minute, and at most 30 exactly when every label is within five minutes, so a `NaN` label gives 60 |
| SensorChart.FindClose | src/Admin/components/SensorChart.tsx:158-161 | `findIndex` gives the first label within half an interval of the grid value, or -1 when there is none |
| SensorChart.GridTicks | src/Admin/components/SensorChart.tsx:157-166 | every index pushed for the grid values from `i` up to the largest label is a valid label index |
| SensorChart.GridTicksNear | src/Admin/components/SensorChart.tsx:157-164 | every index pushed is within half an interval of one of the grid values visited |
| SensorChart.LoopTicks | src/Admin/components/SensorChart.tsx:152-166 | the loop's ticks are valid label indices |
| SensorChart.ExpectedTicks | src/Admin/components/SensorChart.tsx:149-174 | no ticks without labels; only valid indices; from two labels on, the last index is always a tick |
| SensorChart.GridLoop | src/Admin/components/SensorChart.tsx:157-166 | the `for` loop pushes exactly the grid ticks from the smallest label to the largest |
| SensorChart.GridStep | src/Admin/components/SensorChart.tsx:157-166 | pushing the index found for `i`, if any, and then the ticks from `i + step` gives the ticks from `i` |
| SensorChart.CustomTicks | src/Admin/components/SensorChart.tsx:149-174 | `getCustomTicks` returns exactly the expected ticks |
| SensorChart.GridOfLabels | src/Admin/components/SensorChart.tsx:152-166 | the ticks before the last index is added are the loop ticks of the labels |
| SensorChart.LoopTickNear | src/Admin/components/SensorChart.tsx:157-164 | each tick the loop finds points at a label within half an interval of a grid value `min + j * interval` no larger than the largest label |
| SensorChart.TrendColor | src/Admin/components/SensorChart.tsx:101-110 | up gives error for CO2 and particles and success otherwise; down gives success for them and warning otherwise; neutral gives default |
| FrontSensorChart.ShowsNextSecond | src/components/FrontSensorChart.tsx:131 | the label of record `n` shows `n + 1` seconds |
| FrontSensorChart.FirstLabelShowsOne | src/components/FrontSensorChart.tsx:131 | the label `"0s"` shows `"1s"` |
| FrontSensorChart.ShownWholeMinutes | src/components/FrontSensorChart.tsx:132-134 | a multiple of 60 seconds renders as `"Km"` with `K` the seconds over 60 |
| FrontSensorChart.ShownBelowMinute | src/components/FrontSensorChart.tsx:135-137 | fewer than 60 seconds render as `"Ss"` |
| FrontSensorChart.ShownMinutesSeconds | src/components/FrontSensorChart.tsx:138-142 | from a minute on, and not on a whole minute, the text is `"Mm Ss"` with `60 * M + S` the seconds and `0 < S < 60` |
| FrontSensorChart.ShownReadsBack | src/components/FrontSensorChart.tsx:130-143 | every shown label reads back as the label's number plus one |
| FrontSensorChart.TickedEveryThirty | src/components/FrontSensorChart.tsx:178 | the ticks are exactly the indices `i` with `(i + 1) % 30 == 0` |
| FrontSensorChart.TrendColor | src/components/FrontSensorChart.tsx:114-123 | the colour mapping is the admin chart's on every trend and title |
| MultiSensorChart.AllValuesAppend | src/Admin/components/MultiSensorChart.tsx:55 | pooling distributes over the series list and keeps series order |
| MultiSensorChart.AllValuesMember | src/Admin/components/MultiSensorChart.tsx:55 | a value is pooled exactly when some series holds it |
| MultiSensorChart.MinOf | src/Admin/components/MultiSensorChart.tsx:57 | the smallest pooled value is pooled and no larger than any |
| MultiSensorChart.MaxOf | src/Admin/components/MultiSensorChart.tsx:59 | the largest pooled value is pooled and no smaller than any |
| MultiSensorChart.YBounds | src/Admin/components/MultiSensorChart.tsx:56-59 | explicit bounds are used unchanged, and 0 and 100 are the defaults with nothing pooled |
| MultiSensorChart.DefaultBoundsCoverNonNegative | src/Admin/components/MultiSensorChart.tsx:56-59 | with non-negative values the default axis takes in every value |
| MultiSensorChart.NegativeMinimumCutOff | src/Admin/components/MultiSensorChart.tsx:56-57 | a single reading of -10 gets the lower bound -9, which cuts it off |
| MultiSensorChart.PaddedBounds | src/Admin/components/MultiSensorChart.tsx:56-59 | corrected bounds: explicit ones are used unchanged, and 0 and 100 are the defaults with nothing pooled |
| MultiSensorChart.PaddedBoundsCover | src/Admin/components/MultiSensorChart.tsx:56-59 | the corrected default axis takes in every pooled value, whatever its sign |
| MultiSensorChart.PaddedAgreesOnNonNegative | src/Admin/components/MultiSensorChart.tsx:56-59 | on non-negative data the corrected bounds are the written ones |
| MultiSensorChart.FormatTimeLabel | src/Admin/components/MultiSensorChart.tsx:66-79 | the formatter is the front chart's, with the same +1 offset |
| MultiSensorChart.ShowTick | src/Admin/components/MultiSensorChart.tsx:94 | a tick is shown exactly where `(i + 1) % 30 == 0`, as on the front chart |
| MultiSensorChart.SlugNoSpace | src/Admin/components/MultiSensorChart.tsx:107 | a slug holds no white space |
| MultiSensorChart.SlugIdempotent | src/Admin/components/MultiSensorChart.tsx:107 | slugging a slug changes nothing |
| MultiSensorChart.SlugIgnoresCase | src/Admin/components/MultiSensorChart.tsx:107 | names differing only in letter case share a slug |
| MultiSensorChart.SeriesIdShape | src/Admin/components/MultiSensorChart.tsx:107 | a series id has no white space and starts with the chart's slug and a '-' |
| MultiSensorChart.ChartSeriesOf | src/Admin/components/MultiSensorChart.tsx:102-110 | one chart series per input series, in order, with its data and colour, the id `slug(title)-slug(name)` and the name as label |
| Trend.Divide | src/Admin/ViewMissions.tsx:280 | JavaScript division: finite quotients for a non-zero divisor, an infinity or `NaN` for zero |
| Trend.Classify | src/Admin/ViewMissions.tsx:282-287 | above 3 is up, below -3 is down, and anything else, `NaN` included, is neutral |
| Trend.ChangeFromPositive | src/Admin/ViewMissions.tsx:280-287 | from a positive first reading: up exactly when the last is more than 3% above, down exactly when it is more than 3% below |
| Trend.ChangeFromNegative | src/Admin/ViewMissions.tsx:280-287 | from a negative first reading the comparison flips, so a fall from -10 to -11 is up |
| Trend.ChangeValue | src/Admin/ViewMissions.tsx:280 | from a non-zero first reading the change is finite and equals `100 * (last - first) / first` |
| Trend.PlusFromPositive | src/Admin/ViewMissions.tsx:291 | from a positive first reading the label has a '+' exactly when the last reading is larger |
| Trend.ProductSign | src/Admin/ViewMissions.tsx:280 | scaling by a positive factor keeps the sign of the change |
| Trend.ChangeFromZero | src/Admin/ViewMissions.tsx:280-287 | from a zero first reading a rise is up, a fall is down, and no change is `NaN`, which is neutral |
| Trend.NoChange | src/Admin/ViewMissions.tsx:280-287 | an unchanged non-zero reading is a change of 0, which is neutral |
| Trend.SignedLabelPlus | src/Admin/ViewMissions.tsx:291 | the label has a '+' exactly when the change is positive |
| TelemetryRecord.Key | src/Admin/ViewMissions.tsx:211-263 | no sensor reads the latitude, longitude or timestamp field |
| TelemetryRecord.KeysDistinct | src/Admin/ViewMissions.tsx:211-263 | different sensors read different fields |
| TelemetryRecord.Unsigned | src/Admin/ViewMissions.tsx:212 | the value of an unsigned number text is never negative |
| TelemetryRecord.NumberOfNatText | src/Admin/ViewMissions.tsx:212-213 | `Number()` of the decimal text of a whole number is that number |
| TelemetryRecord.SeriesOf | src/Admin/ViewMissions.tsx:211-263 | a series has at most one reading per record |
| TelemetryRecord.SeriesAppend | src/Admin/ViewMissions.tsx:211-263 | collecting over two runs of records gives the two collections one after the other |
| TelemetryRecord.SeriesOfOne | src/Admin/ViewMissions.tsx:211-218 | a single record contributes its reading when its field is present and numeric, and nothing otherwise |
| TelemetryRecord.SeriesMember | src/Admin/ViewMissions.tsx:211-263 | a value is in the series exactly when some record reads as it |
| TelemetryRecord.TimestampCount | src/Admin/ViewMissions.tsx:205 | at most one label per record, one per truthy timestamp |
| TelemetryRecord.Labels | src/Admin/ViewMissions.tsx:205-209 | exactly `n` labels for `n` timestamped records |
| TelemetryRecord.LabelsConsecutive | src/Admin/ViewMissions.tsx:205-209 | each label reads back as its own position, whatever the timestamps are |
| TelemetryRecord.LabelsNext | src/Admin/ViewMissions.tsx:207-208 | one more label is the next number |
| TelemetryRecord.TrajectoryOf | src/Admin/ViewMissions.tsx:265-271 | at most one point per record |
| TelemetryRecord.PositionIs | src/Admin/ViewMissions.tsx:265-271 | a record has a position exactly when both coordinates are present and numeric |
| TelemetryRecord.TrajectoryMember | src/Admin/ViewMissions.tsx:265-271 | a point is on the trajectory exactly when it is some record's position |
| TelemetryRecord.TrajectorySource | src/Admin/ViewMissions.tsx:265-271 | each point of the trajectory comes from a record |
| TelemetryRecord.TrajectoryHas | src/Admin/ViewMissions.tsx:265-271 | each record with a position puts it on the trajectory |
| ViewMissions.IsLive | src/Admin/ViewMissions.tsx:78-79 | a mission is live exactly when it is a real-time mission without an end date |
| ViewMissions.MinExt | src/Admin/ViewMissions.tsx:214 | from `Infinity` the first reading; afterwards the smaller of the two, and one of them |
| ViewMissions.MaxExt | src/Admin/ViewMissions.tsx:215 | from `-Infinity` the first reading; afterwards the larger of the two, and one of them |
| ViewMissions.StatsBounds | src/Admin/ViewMissions.tsx:211-263 | the collected series is the field's series; the extremes stay infinite while nothing was read and are then the smallest and largest readings |
| ViewMissions.TrendFromPositiveStart | src/Admin/ViewMissions.tsx:275-293 | from a positive first reading: up exactly above +3%, down exactly below -3%, and a '+' exactly for a positive change |
| ViewMissions.LabelFromPositiveStart | src/Admin/ViewMissions.tsx:291 | from a positive first reading the label has a '+' exactly when the last reading is larger |
| ViewMissions.TrendOfShortSeries | src/Admin/ViewMissions.tsx:276 | fewer than two readings give neutral and `"0%"` |
| ViewMissions.Decimals | src/Admin/ViewMissions.tsx:296-321 | every sensor is shown with at most one decimal |
| ViewMissions.Current | src/Admin/ViewMissions.tsx:296-321 | `"0"` for an empty series; otherwise the `toFixed` text of the last reading, with a '-' exactly when it is negative |
| ViewMissions.ProcessSensorData | src/Admin/ViewMissions.tsx:140-337 | the loop's result is the labels, the series with exact extremes, the trends, the current values and the trajectory that the specification functions give for the records |
| ViewMissions.RecordStep | src/Admin/ViewMissions.tsx:204-271 | one more record extends the label count, every field's statistics and the trajectory by that record's contribution |
| ViewMissions.SummaryFacts | src/Admin/ViewMissions.tsx:211-324 | each sensor's series is its field's series, no longer than the records; an empty one has infinite extremes and current value `"0"`; otherwise its extremes bound every reading and occur in it |
| ViewMissions.JsRem60 | src/Admin/ViewMissions.tsx:372 | JavaScript's `% 60`: the remainder has the sign of the dividend and its size is below 60 |
| ViewMissions.LiveReadsBack | src/Admin/ViewMissions.tsx:367-381 | a running mission shows its elapsed whole seconds as minutes and seconds that add up to them |
| ViewMissions.RecordedDuration | src/Admin/ViewMissions.tsx:363-404 | a finished mission's clock text whose fields parse as `m` and `s` is shown as text that reads back as `60 * m + s` seconds |
| ClockDuration.ReadPhrase | src/Admin/ViewMissions.tsx:389-395 | one "N min" or "N seg" phrase reads back as its seconds |
| ClockDuration.ReadPhraseCons | src/Admin/ViewMissions.tsx:393-394 | a phrase, a space and more phrases read back as the sum |
| ClockDuration.RenderReadsBack | src/Admin/ViewMissions.tsx:389-395 | every rendering of minutes and seconds denotes `60 * minutes + seconds` |
| ClockDuration.RenderNoColon | src/Admin/ViewMissions.tsx:389-395 | a rendering never holds a ':' |
| ClockDuration.ColonAlwaysRendered | src/Admin/ViewMissions.tsx:383-399 | a duration with a ':' is always rewritten, never returned as it is |
| ClockDuration.HoursIgnored | src/Admin/ViewMissions.tsx:384-387 | the hour field plays no part in the result |
| ClockDuration.ClockFields | src/Admin/ViewMissions.tsx:384-387 | an `H:MM:SS[.fff]` text reads its minutes and seconds from the digits of the second and third fields |
| ClockDuration.FormatColon | src/Admin/ViewMissions.tsx:383-397 | a non-empty text with a ':' is shown as its minutes and seconds |
| ClockDuration.ClockReadsBack | src/Admin/ViewMissions.tsx:383-397 | a clock text whose fields parse as `m` and `s` is shown as the `60 * m + s` seconds they make up |
| ClockDuration.MinutesOnly | src/Admin/ViewMissions.tsx:387 | without a seconds field the seconds are 0, so `"H:MM"` with non-zero minutes shows whole minutes |
| ClockDuration.ZeroDuration | src/Admin/services/ReportGenerator.ts:86-92 | `"0:00:00"` shows `"0 seg"` |
| ReportGenerator.FormatReportDuration | src/Admin/services/ReportGenerator.ts:76-101 | "N/A" for an empty duration; a text with a ':' shows its minutes and seconds; any other text is returned unchanged |
| ReportGenerator.SameAsMissionsPage | src/Admin/services/ReportGenerator.ts:76-101 | the report and the missions page show every non-empty recorded duration alike, and differ on the empty one |
| ReportGenerator.ReportDurationReadsBack | src/Admin/services/ReportGenerator.ts:81-92 | the text reads back as the minutes and seconds of the clock text, without the hours |
| ReportGenerator.ZeroReportDuration | src/Admin/services/ReportGenerator.ts:86-92 | `"0:00:00"` reports as `"0 seg"` |
| ReportGenerator.FormatValue | src/Admin/services/ReportGenerator.ts:171-176 | "N/A" for a missing value and for the text "N/A" |
| ReportGenerator.FirstPointOnly | src/Admin/services/ReportGenerator.ts:175 | in a text only the first '.' becomes ',' and later ones stay |
| ReportGenerator.TextWithoutPoint | src/Admin/services/ReportGenerator.ts:175 | a text without '.' is shown unchanged |
| ReportGenerator.NumberShape | src/Admin/services/ReportGenerator.ts:174 | a number is shown as its sign and integer digits, a ',' and exactly two decimals |
| ReportGenerator.FixedTwoParts | src/Admin/services/ReportGenerator.ts:174 | a two-decimal text splits at its only '.' into the integer digits and two decimals |
| ReportGenerator.RowOrderComplete | src/Admin/services/ReportGenerator.ts:189-242 | every sensor is in the row order, and no sensor twice |
| ReportGenerator.RowLabelsDistinct | src/Admin/services/ReportGenerator.ts:189-242 | different sensors have differently labelled rows |
| ReportGenerator.TableData | src/Admin/services/ReportGenerator.ts:179-243 | a header row and then one seven-cell row per sensor, in row order, each showing that sensor's statistics |
| ReportGenerator.SensorRow | src/Admin/services/ReportGenerator.ts:179-243 | every sensor's statistics appear on the row after the sensors listed before it |
| ReportGenerator.RecordCountLine | src/Admin/services/ReportGenerator.ts:268-271 | the line under the table starts with its prefix and carries more after it |
| ReportGenerator.RecordCountReadsBack | src/Admin/services/ReportGenerator.ts:268-271 | after the prefix the line reads back as the number of records |
| ReportGenerator.FileSlugOrder | src/Admin/services/ReportGenerator.ts:283 | replacing white space before lowering is the same as lowering first |
| ReportGenerator.FileSlugShape | src/Admin/services/ReportGenerator.ts:283 | the slug has no white space and no upper-case letter, and slugging it again changes nothing |
| ReportGenerator.FileName | src/Admin/services/ReportGenerator.ts:283 | the file name starts with "relatorio_missao_" and ends with ".pdf" |
| SensorData.GenerateTimeLabels | src/Admin/internals/data/sensorData.ts:62-66 | exactly 300 labels, label `i` being `"{i}s"` |
| SensorData.DemoLabelsReadBack | src/Admin/internals/data/sensorData.ts:64-66 | every demo label reads back as its position |
| SensorData.DemoTickInterval | src/Admin/internals/data/sensorData.ts:62-66 | the demo labels give the admin chart a tick interval of 30 |
| SensorData.LabelsTickInterval | src/Admin/internals/data/sensorData.ts:64-66 | 62 to 301 consecutive labels give a tick interval of 30 |
| SensorData.CalculateTrend | src/Admin/internals/data/sensorData.ts:125-137 | the label ends with '%'; up carries a '+' and down does not |
| SensorData.AgreesWithLivePage | src/Admin/internals/data/sensorData.ts:125-137 | with two readings or more the demo trend is the live page's |
| SensorData.SingleReading | src/Admin/internals/data/sensorData.ts:125-129 | one non-zero reading is neutral with "0.0%" on the demo and "0%" on the live page |
| SensorData.NoReadings | src/Admin/internals/data/sensorData.ts:125-129 | without readings the change is `NaN`, which is neutral |
| SensorData.DemoRange | src/Admin/internals/data/sensorData.ts:139-188 | each demo sensor's fixed display range has its minimum below its maximum |
| SensorData.DemoSummary | src/Admin/internals/data/sensorData.ts:139-188 | a demo sensor shows its series and its fixed range as extremes |
| SensorData.DemoLikeLive | src/Admin/internals/data/sensorData.ts:139-188 | from two readings on, a demo sensor's trend, label and current value are the live page's |
| DataAnalysis.Completed | src/Admin/DataAnalysis.tsx:98 | only missions with an end date are kept, each no more often than in the input |
| DataAnalysis.CompletedKeepsAll | src/Admin/DataAnalysis.tsx:98 | a completed mission is kept exactly as often as it occurs |
| DataAnalysis.Insert | src/Admin/DataAnalysis.tsx:99 | inserting into a latest-first list keeps it latest first, one longer, headed by the new mission or the old head |
| DataAnalysis.InsertKeeps | src/Admin/DataAnalysis.tsx:99 | inserting adds the one mission and loses none |
| DataAnalysis.SortLatestFirst | src/Admin/DataAnalysis.tsx:99 | the sorted list is latest first and a permutation of the input |
| DataAnalysis.SelectRecent | src/Admin/DataAnalysis.tsx:97-100 | latest first, three missions or all the completed ones if fewer, drawn from the input |
| DataAnalysis.SelectionIsMostRecent | src/Admin/DataAnalysis.tsx:97-100 | no completed mission left out ended later than a selected one, and with at most three completed missions all of them are selected |
| DataAnalysis.TailNotLater | src/Admin/DataAnalysis.tsx:99-100 | what is left after the first three of a latest-first list ended no later than they |
| DataAnalysis.LaterInOrder | src/Admin/DataAnalysis.tsx:99-100 | in a latest-first list nothing after the first three ended later than them |
| DataAnalysis.FewCompletedAllSelected | src/Admin/DataAnalysis.tsx:97-100 | every completed mission is selected when there are at most three |
| DataAnalysis.ProcessMissionData | src/Admin/DataAnalysis.tsx:223-308 | the loop's labels, six series and trajectory are those the specification functions give for the records |
| DataAnalysis.Push | src/Admin/DataAnalysis.tsx:246-286 | one record contributes its reading to a series when it has one, and nothing otherwise |
| DataAnalysis.SeriesStep | src/Admin/DataAnalysis.tsx:237-296 | one more record extends the label count and the trajectory by that record's contribution |
| DataAnalysis.SeriesNext | src/Admin/DataAnalysis.tsx:246-286 | one more record extends a field's series by that record's reading |
| DataAnalysis.SensorLists.Add | src/Admin/DataAnalysis.tsx:168-202 | each of the six sensors gets exactly one more entry, with the mission's name, series and colour |
| DataAnalysis.ColorAt | src/Admin/DataAnalysis.tsx:162 | a position's colour is one of the page's colours |
| DataAnalysis.ProcessMultipleMissions | src/Admin/DataAnalysis.tsx:143-220 | the loop's entries, paths and labels are those the specification functions give for the selection |
| DataAnalysis.ContributingIndices | src/Admin/DataAnalysis.tsx:160 | positions of missions with records, below `n`, in increasing order |
| DataAnalysis.ContributingListed | src/Admin/DataAnalysis.tsx:160 | every mission that takes part is listed |
| DataAnalysis.EntriesPerMission | src/Admin/DataAnalysis.tsx:160-202 | each sensor lists one entry per mission with records, in selection order, with that mission's name and series and the colour of its position in the selection |
| DataAnalysis.SkippedMissionUsesColour | src/Admin/DataAnalysis.tsx:160-162 | a first mission without records leaves the first colour unused |
| DataAnalysis.PathsNonEmpty | src/Admin/DataAnalysis.tsx:205-211 | at most one path per mission with records, and every path non-empty |
| DataAnalysis.MaxCount | src/Admin/DataAnalysis.tsx:214-216 | the largest number of timestamped records among the missions that take part, or 0 |
| DataAnalysis.LongestLabels | src/Admin/DataAnalysis.tsx:214-216 | the shared labels are those of the mission with the most timestamped records |
| DataAnalysis.PointOf | src/Admin/DataAnalysis.tsx:315-325 | a point always carries `name` |
| DataAnalysis.FormatChartData | src/Admin/DataAnalysis.tsx:311-326 | no points without series; otherwise one point per label, each holding the label and every series' reading at that position |
| DataAnalysis.PointKeys | src/Admin/DataAnalysis.tsx:316-322 | a point's keys are `name` and the names of the series with a reading there |
| DataAnalysis.PointLastWriter | src/Admin/DataAnalysis.tsx:318-322 | under a name sits the reading of the last series of that name with a reading there |
| DataAnalysis.PointLabel | src/Admin/DataAnalysis.tsx:316-322 | `name` holds the label unless a series called "name" has a reading there |
| DataAnalysis.NamedNameHidesLabel | src/Admin/DataAnalysis.tsx:316-322 | a mission called "name" replaces the label of every point where it has a reading |
| NewsArticlePage.NextImage | src/NewsArticlePage.tsx:83-87 | a valid image index stays valid |
| NewsArticlePage.PrevImage | src/NewsArticlePage.tsx:89-93 | a valid image index stays valid |
| NewsArticlePage.PrevUndoesNext | src/NewsArticlePage.tsx:83-93 | back after forward, and forward after back, return to the same image |
| NewsArticlePage.ForwardWraps | src/NewsArticlePage.tsx:83-87 | up to a full turn, `k` presses of next from image `i` land on `i + k`, less the count once past the end |
| NewsArticlePage.FullTurn | src/NewsArticlePage.tsx:83-87 | `n` presses return to the starting image |
| NewsArticlePage.ForwardStraight | src/NewsArticlePage.tsx:83-87 | short of the last image each press moves one on |
| NewsArticlePage.ForwardToStart | src/NewsArticlePage.tsx:83-87 | the presses up to the end of the list land on the first image |
| NewsArticlePage.ForwardCompose | src/NewsArticlePage.tsx:83-87 | pressing `a` times and then `b` times is pressing `a + b` times |
| NewsArticlePage.EmptyGalleryLeavesRange | src/NewsArticlePage.tsx:83-93 | with no images the presses leave the empty range |
| NewsArticlePage.WithPrefix | src/NewsArticlePage.tsx:68 | the path starts with "../../backend", and is unchanged exactly when it already did |
| NewsArticlePage.WithPrefixIdempotent | src/NewsArticlePage.tsx:68 | prefixing twice is prefixing once |
| NewsArticlePage.ArticleImages | src/NewsArticlePage.tsx:64-69 | the gallery holds only active images with prefixed paths, no more than are listed |
| NewsArticlePage.ArticleImagesMember | src/NewsArticlePage.tsx:64-69 | an image is in the gallery exactly when the list holds an active image of the article of which it is the prefixed copy |
| NewsArticlePage.ArticleImagesIdempotent | src/NewsArticlePage.tsx:64-69 | the gallery of a gallery is itself |
| NewsArticlePage.NoNumberNoImages | src/NewsArticlePage.tsx:65 | an id that does not parse as a number shows no images |
| ManageImages.WithPrefix | src/Admin/ManageImages.tsx:121 | the path starts with "../backend", and is unchanged exactly when it already did |
| ManageImages.Normalise | src/Admin/ManageImages.tsx:119-122 | same length and order, each image with its path prefixed and nothing else changed |
| ManageImages.NormaliseIdempotent | src/Admin/ManageImages.tsx:170-173 | normalising twice is normalising once, and only paths change |
| ManageImages.InCategory | src/Admin/ManageImages.tsx:369 | every image kept has the category |
| ManageImages.InCategoryMember | src/Admin/ManageImages.tsx:369 | an image is in its category's list exactly when the gallery holds it |
| ManageImages.Sections | src/Admin/ManageImages.tsx:368-370 | at most one section per category, each non-empty and holding that category's images |
| ManageImages.SectionShown | src/Admin/ManageImages.tsx:368-370 | a category gets a section exactly when some image belongs to it |
| ManageImages.HandleSave | src/Admin/ManageImages.tsx:204-250 | a request is sent exactly with a dialog image, a name that is not only white space, a category and, for a new image, a file; it carries that image and file |
| ManageImages.SaveCheckOrder | src/Admin/ManageImages.tsx:209-231 | an empty name is reported first, then a missing category, then a missing file |
| ManageImages.SavePath | src/Admin/ManageImages.tsx:232-240 | id 0 goes to "/image/create" and any other id to "/image/update/{id}" |
| ManageImages.FormFields | src/Admin/ManageImages.tsx:153-161 | the form has at least two fields and starts with the name |
| ManageImages.FormKeys | src/Admin/ManageImages.tsx:153-161 | the form has a category and an article exactly when they are set, a file exactly when one was picked, and always the name and the flag |
| ManageImages.FindById | src/Admin/ManageImages.tsx:192 | `find` gives the first image with the id, or nothing when none has it |
| ManageImages.Toggled | src/Admin/ManageImages.tsx:191-196 | the list keeps its length; without an image of that id it is unchanged; otherwise the first image with the id has its `active` flag flipped and every other image is unchanged |
| ManageImages.ToggleTwice | src/Admin/ManageImages.tsx:191-196 | toggling twice restores the list |
| ManageImages.ImagesContent.constructor | src/Admin/ManageImages.tsx:68-72 | the page starts with no images, no dialog image, preview or file, and the dialog closed |
| ManageImages.ImagesContent.Loaded | src/Admin/ManageImages.tsx:118-123 | the server's list is stored with prefixed paths and nothing else changes |
| ManageImages.ImagesContent.DialogOpen | src/Admin/ManageImages.tsx:252-269 | an existing image is shown with its path as preview; otherwise a new image with id 0, no name, path, category or article, and switched on; no file; the dialog open |
| ManageImages.ImagesContent.DialogClose | src/Admin/ManageImages.tsx:271-276 | the dialog closes with no image, preview or file |
| ManageImages.ImagesContent.ToggleActive | src/Admin/ManageImages.tsx:191-201 | the first image with the id has its flag switched in place and only that one; the update request carries it; nothing is sent when no image has the id |
| ManageImages.ImagesContent.Save | src/Admin/ManageImages.tsx:204-250 | the outcome is the save checks'; a failed check changes nothing; a request closes the dialog, and a successful reply replaces the list |
| MenuContent.HomeSelection | src/Admin/components/MenuContent.tsx:42-43 | the home entry is selected exactly on "/admin" and "/admin/" |
| MenuContent.SectionSelection | src/Admin/components/MenuContent.tsx:44 | the other entries are selected exactly on paths starting with their link |
| MenuContent.MissionPageSelectsHistory | src/Admin/components/MenuContent.tsx:16-44 | "/admin/missions/7" highlights the history entry and nothing else |
| MenuContent.AtMostOneSelected | src/Admin/components/MenuContent.tsx:16-21 | whatever the path, at most one entry is highlighted |
| FormRules.EmptyChecksRedundant | src/Admin/authentication/SignUp.tsx:101-110 | a valid e-mail has at least five characters, an '@' and a '.', and the emptiness checks add nothing to the pattern and the UTF-16 length |
| FormRules.EmojiPassword | src/Admin/authentication/SignUp.tsx:110 | four emoji, four characters but eight code units, pass the length check |
| FormRules.SevenLettersRefused | src/Admin/authentication/SignUp.tsx:110 | "abcdefg" fails the length check |
| FormRules.EmailUnanchored | src/Admin/authentication/SignUp.tsx:101 | any text around a matching e-mail still matches |
| FormRules.ShortestEmail | src/Admin/authentication/SignUp.tsx:101 | "a@b.c" matches |
| FormRules.SpaceInDomain | src/Admin/authentication/SignUp.tsx:101 | "a@ b.c" does not match |
| FormRules.NoAtNoEmail | src/Admin/authentication/SignUp.tsx:101 | a text without '@' is never valid |
| SignUp.AfterRegister | src/Admin/authentication/SignUp.tsx:153-157 | success goes to the login page, otherwise the server's message is shown |
| SignUp.SignUpForm.constructor | src/Admin/authentication/SignUp.tsx:94-129 | the form starts without errors |
| SignUp.SignUpForm.ValidateInputs | src/Admin/authentication/SignUp.tsx:94-129 | the result holds exactly when all three checks pass, and every field's error shows its own check |
| SignUp.SignUpForm.HandleRegister | src/Admin/authentication/SignUp.tsx:131-162 | a request is sent exactly with valid fields and a matching confirmation, and carries exactly the name, the e-mail and the password |
| SignUp.RequestNeedsValidFields | src/Admin/authentication/SignUp.tsx:133-149 | a request carries a password of eight UTF-16 code units or more, an e-mail of five or more and a name |
| SignIn.AfterLogin | src/Admin/authentication/SignIn.tsx:104-121 | success with a user writes the four session entries and goes to the content page; success without a user writes two and throws; a refusal clears the session |
| SignIn.SessionAfterLogin | src/Admin/authentication/SignIn.tsx:109-120 | `isLoggedIn` is "true" exactly on success; a refusal empties the e-mail, id and name; a completed login stores them |
| SignIn.ReplyOf | src/Admin/authentication/SignIn.tsx:104-108 | the page gets a reply exactly when the view answered with a body and status 200 |
| SignIn.CorrectLoginThrows | src/Admin/authentication/SignIn.tsx:110-113 | against the login view as written, a correct login stores only the login flag and the e-mail, then throws |
| SignIn.CorrectLoginStoresUser | src/Admin/authentication/SignIn.tsx:110-119 | against a view that returns the user, a correct login stores that user's id and name and goes to the content page |
| SignIn.SignInForm.constructor | src/Admin/authentication/SignIn.tsx:132-157 | the form starts without errors |
| SignIn.SignInForm.ValidateInputs | src/Admin/authentication/SignIn.tsx:132-157 | the result holds exactly when both checks pass, and each field's error shows its own check |
| SignIn.SignInForm.HandleLogin | src/Admin/authentication/SignIn.tsx:96-122 | invalid fields send nothing and leave the store alone; otherwise the store and the outcome are those of the reply |
| ResetPassword.CheckedAsWritten | src/Admin/authentication/components/ResetPassword.tsx:146-169 | the result is the reset rule; a short password shows the length message; in the other branch the field shows no error |
| ResetPassword.MismatchHidden | src/Admin/authentication/components/ResetPassword.tsx:157-165 | "abcdefgh" against "abcdefgx" is refused while the field shows no error |
| ResetPassword.Checked | src/Admin/authentication/components/ResetPassword.tsx:152-166 | corrected: the field shows an error exactly when the form is refused, with the length or the mismatch message |
| ResetPassword.CheckedAgreement | src/Admin/authentication/components/ResetPassword.tsx:146-169 | both versions refuse the same inputs and differ only on a mismatch of long enough passwords |
| ResetPassword.ResetPasswordForm.constructor | src/Admin/authentication/components/ResetPassword.tsx:146-169 | the form starts without errors, not submitting, with no messages |
| ResetPassword.ResetPasswordForm.ValidateInputs | src/Admin/authentication/components/ResetPassword.tsx:146-169 | the error state and result are those of the code as written, and each refusal adds its message |
| ResetPassword.ResetPasswordForm.HandleResetPassword | src/Admin/authentication/components/ResetPassword.tsx:95-144 | a request is sent exactly with valid fields, a reCAPTCHA token and the link's token and e-mail; it carries all four; each failure shows its message; the form is never left submitting |
| BackendViews.FindUser | backend/api/views.py:18 | the user found has the e-mail, and none is found only when no user has it |
| BackendViews.FindUserUnique | backend/api/models.py:17 | with unique e-mails the user found is the only one with that e-mail |
| BackendViews.Login | backend/api/views.py:12-42 | without an e-mail or password the view fails; otherwise status 200 and success exactly when a user has that e-mail and the salted hash as password, with one failure body for both causes |
| BackendViews.FindUsersPassword | backend/api/views.py:18-19 | with unique e-mails no other user has that e-mail and hash |
| BackendViews.LoginFailuresAlike | backend/api/views.py:19-42 | an unknown e-mail and a wrong password give the same reply |
| BackendViews.LoginWithUser | backend/api/views.py:12-42 | corrected: the same checks and messages, with the user's id and name in the success body |
| BackendViews.FieldErrors | backend/api/views.py:47-48 | a missing field is required, and a taken e-mail gets the unique validator's message |
| BackendViews.FieldEntry | backend/api/views.py:59-60 | a field is listed in the errors exactly when it has messages |
| BackendViews.Errors | backend/api/serializers.py:7 | the fields with messages, in declared order; no errors exactly when no field has a message |
| BackendViews.JoinFirstErrors | backend/api/views.py:58-60 | the loop builds the first message of every failing field, one after the other |
| BackendViews.Register | backend/api/views.py:44-67 | without a password the view fails; otherwise status 200 with a body |
| BackendViews.Save | backend/api/views.py:47-66 | the serializer step always answers with status 200 and a body |
| BackendViews.RegisterStoresHash | backend/api/views.py:46-49 | a registered user's password is the salted hash of the request's password; the other fields are the request's |
| BackendViews.RegisterAccepted | backend/api/views.py:47-49 | an accepted request has every field, and its e-mail is free |
| BackendViews.RegisterRefusal | backend/api/views.py:57-66 | a refused request's message is the first message of every failing field, in field order |
| BackendViews.SecondRegistrationFails | backend/api/models.py:17 | registering an e-mail already in the table fails and leaves the table alone |
| BackendViews.AddUserKeepsTable | backend/api/views.py:49 | adding a user with a free e-mail under the next id keeps the table invariant |
| BackendViews.RegisterKeepsTable | backend/api/views.py:44-67 | registration keeps the table invariant |
| BackendViews.RegisterThenLogin | backend/api/views.py:9-46 | since the salt is fixed, the password given at registration logs the user in |
| BackendViews.LoginAs | backend/api/views.py:16-34 | a user whose stored password is the hash of the password logs in with it |
| BackendViews.NewsList | backend/api/views.py:69-89 | every article in table order, with success and status 200 |
| BackendViews.Database.constructor | backend/api/views.py:44-67 | an empty table with the given hasher and checks, keeping the invariant |
| BackendViews.Database.LoginPost | backend/api/views.py:12-42 | the view's response is that of the login rule on the current table |
| BackendViews.Database.RegisterPost | backend/api/views.py:44-67 | the table, the next id and the response are those of the registration rule, and the invariant is kept |
| BackendViews.Database.SaveRequest | backend/api/views.py:47-66 | the table, the next id and the response are those of the serializer step, and the invariant is kept |
| Browser.Storage.constructor | src/assets/theme/AppTheme.tsx:2-3 | the store starts with the given entries and class |
| Browser.Storage.GetItem | src/assets/theme/AppTheme.tsx:7 | `getItem` gives the stored text, or `null` without one |
| Browser.Storage.SetItem | src/assets/theme/AppTheme.tsx:2 | `setItem` writes this entry and changes nothing else |
| Browser.Storage.SetDocumentClass | src/assets/theme/AppTheme.tsx:3 | the document's class is set and the store is unchanged |
| AppTheme.SetTheme | src/assets/theme/AppTheme.tsx:1-4 | the name is stored under "theme" and becomes the document's class |
| AppTheme.Kept | src/assets/theme/AppTheme.tsx:6-16 | nothing stored, or "", sets the dark theme; a stored theme name is set again; any other value leaves everything alone |
| AppTheme.KeepTheme | src/assets/theme/AppTheme.tsx:6-16 | the store and the document's class become those the rule gives |
| AppTheme.KeepIdempotent | src/assets/theme/AppTheme.tsx:6-16 | keeping the theme twice is keeping it once |
| AppTheme.KeptAgrees | src/assets/theme/AppTheme.tsx:6-16 | afterwards a stored theme name and the document's class agree, and only the theme entry can have changed |
| ThemeToggle.Switched | src/components/ThemeToggle.tsx:17-29 | from the dark theme to light and unchecked; from anything else, nothing included, to dark and checked |
| ThemeToggle.CheckedFor | src/components/ThemeToggle.tsx:31-39 | the checkbox is checked exactly when the theme is not light |
| ThemeToggle.SwitchAgreesWithEffect | src/components/ThemeToggle.tsx:17-39 | after a switch, the stored theme brings the checkbox to the state the switch set |
| ThemeToggle.TwoSwitches | src/components/ThemeToggle.tsx:17-29 | two switches from a stored theme name store that name again, and from dark restore the whole dark state |
| ThemeToggle.Toggle.constructor | src/components/ThemeToggle.tsx:11-14 | the class starts as "dark" and the box checked; the mode is the colour scheme's, given as a parameter |
| ThemeToggle.Toggle.ChangeTheme | src/components/ThemeToggle.tsx:17-29 | mode, store, class and checkbox become those of the switch from the stored theme |
| ThemeToggle.Toggle.ThemeChanged | src/components/ThemeToggle.tsx:31-39 | the class and checkbox follow the stored theme |

## Left out

- Rendering, styling, animation, charts drawn on screen and maps: they are user interface,
  not rules.
- Network calls: every `fetch` and `axios` request is a parameter. This covers the server's
  replies, a request that throws and the reCAPTCHA call.
- `setInterval` polling, `handleEndMission`, `formatDate`, `formatReportDate`,
  `formatReportTime` and `toLocaleString`: they depend on the clock or the locale.
  ViewMissions.FormatDuration takes the elapsed milliseconds of a live mission as a
  parameter.
- `generateSmoothData`, `demoTrajectoryData` and the random gradient ids: they use
  `Math.random`, `sin` and `exp`. SensorData.DemoSummary takes the demo series as a
  parameter.
- The y-axis scaling of the single-sensor charts, at src/Admin/components/SensorChart.tsx:112-113
  and src/components/FrontSensorChart.tsx:125-126: floating-point display only.
- Floating point: readings are exact reals. `toFixed` rounds the exact value, where
  JavaScript rounds the nearest double.
- JsText.ParseInt and TelemetryRecord: `Number()` is modelled for decimal texts with an
  optional sign and one '.'. Texts with exponents, hexadecimal digits or `Infinity` are not
  modelled; they read as `NaN`. JSON `null`, `true` and `false` give 0, 1 and 0, as in
  JavaScript. An array or object field is taken to read as `NaN`, although JavaScript turns
  an empty or one-element array into a number.
- JsText.ToLower: only ASCII letters are lowered. Other case mappings are not modelled.
- An unparsable `end_date`, which `new Date` turns into `NaN`: end dates are abstract
  ordered instants.
- DataAnalysis.SortLatestFirst: modelled as a stable insertion sort. The engine's sort
  algorithm is not modelled; only the order it produces on distinct end dates is fixed.
- The jsPDF document, its drawing calls and the footer loop over pages: ReportGenerator
  models the texts and the table the document receives.
- The `colors` arrays of the sensor entries on the comparison page: the code never fills
  them.
- ReportGenerator.FileName: the name is computed and then unused by the code. It is kept
  as text.
- The `catch` branches of `formatReportDuration` and `formatDuration`, and the
  `DoesNotExist` branch of `NewsArticleView.get`: nothing in their `try` blocks can raise.
- Django's `make_password` and the serializer's own field checks (length, e-mail form):
  they are parameters of BackendViews. E-mail equality is exact text equality. The
  serializer's white-space trimming is not modelled.
- ThemeToggle: the value read from the store is the one from the last render. React's
  re-rendering itself is not modelled.
- ManageImages: the snackbar texts and the `images-updated` event dispatch are not modelled.
- SensorData.CalculateTrend: an empty demo series gives `NaN`, because the code has no
  guard. The demo series are never empty, so this path is modelled but unused.
- The mission ingestion endpoints: their views are not part of this model.

## Findings

| source | as written | input that shows it | evidently intended | confidence | as-written member | corrected member |
|---|---|---|---|---|---|---|
| src/Admin/components/MultiSensorChart.tsx:56-59 | without explicit bounds the axis runs from 90% of the smallest value to 110% of the largest | one series holding the single reading -10: the lower bound is -9, above the reading | the axis leaves headroom beyond each extreme, so it takes in every value | medium, not executed | MultiSensorChart.NegativeMinimumCutOff | MultiSensorChart.PaddedBoundsCover |
| backend/api/views.py:28-34 with src/Admin/authentication/SignIn.tsx:110-113 | the login success body has only `success` and `message`, and the page reads `user.id` from it | any registered user logging in with the right password: the page stores the flag and the e-mail, then throws before storing the id and name or moving on | the success body carries the user's id and name | low, not executed; the routing file names views that this views.py does not define, so the deployed login view may differ from this text | SignIn.CorrectLoginThrows | SignIn.CorrectLoginStoresUser |
| src/Admin/authentication/components/ResetPassword.tsx:157-165 | the mismatch error is set and then cleared straight away | "abcdefgh" with the confirmation "abcdefgx": refused, but the field shows no error | the field keeps the mismatch error | high, not executed | ResetPassword.MismatchHidden | ResetPassword.Checked |
