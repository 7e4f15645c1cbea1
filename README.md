# MHD BA departures: a verified model

`mhd_ba` is a Home Assistant integration for the departure boards of
Bratislava's public transport. When an entry is configured, it checks the
stop id against the stop-information service. It parses a comma- or
semicolon-separated list of lines to follow, and it derives the entry's
unique id and title. A data-update coordinator per stop polls the
planned-departures service. It caches the stop's name and lines, posts a
form-encoded request stamped with the local date, and publishes a snapshot
after every good cycle. A sensor projects that snapshot onto two views. Its
state is a one-line headline such as `21 -> Centrum in 5 min`. Its attributes
hold a bounded list of per-departure details. Both views apply a line
allow-list and a direction mode (all, arrivals "here", departures "there").

The model is written in Dafny, one module per concern:

- `Values` — `Option` and `Result`.
- `Text` — Python's string operations as the code uses them: `str.strip`
  (with Python's whitespace set), `re.split("[,;]")`, `str.join`,
  `str.replace` on one character, and `str(int)`.
- `Sorting` — `sorted()` on strings: code-point lexicographic order, an
  insertion sort, and the uniqueness of the sorted arrangement.
- `Const` — the direction modes and the request constants.
- `Api` — the upstream JSON responses as datatypes. Absent keys are `None`.
- `ConfigFlow` — stop validation, line parsing, the 2-argument unique id,
  the entry title and the user step as one function of its inputs.
- `Helpers` — `generate_name` and the 3-argument `generate_unique_id`, as
  methods that build their result step by step like the source. Each is
  proved against a specification function.
- `Coordinator` — the coordinator as a class whose fields are the cached
  stop name, the stopping lines and the last-update stamp. A refresh cycle
  is a method driven by abstract responses. The class also holds the
  published snapshot and the success flag, which the host's base class keeps.
- `Sensor` — the sensor's settings as a value, the filter and headline as
  functions, and `extra_state_attributes` as a method whose loop builds the
  detail list.

Network responses, the clock's renderings and the current instant are
parameters. `now` is the integer UTC timestamp. `localTime` stands for the
local `HH:MM` rendering. A `Clock` carries the strings `strftime` would
produce.

## Model

| member | source | states |
|---|---|---|
| Text.IsSpace | config_flow.py:65 | the whitespace `strip` removes: SPACE and TAB to CR are whitespace, no printable ASCII character is |
| Text.LeadingSpaces | config_flow.py:65 | counts the whitespace that `strip` removes at the front: all of it is whitespace and the next character is not |
| Text.TrailingSpaces | config_flow.py:65 | the same at the back |
| Text.Strip | config_flow.py:65 | the result is the input's middle part: everything cut off is whitespace, and a non-empty result begins and ends with non-whitespace |
| Text.StripIdempotent | config_flow.py:65 | stripping twice is stripping once |
| Text.SplitOn | config_flow.py:63 | splitting gives at least one piece and no piece contains a separator |
| Text.SplitOnWhole | config_flow.py:63 | a string without separators splits into itself alone |
| Text.SplitOnConcat | config_flow.py:63 | splitting `a + sep + b` is splitting `a` followed by splitting `b` |
| Text.Join | helpers.py:37 | `sep.join(parts)` begins with the first part and, for two or more parts, is at least as long as the first part plus one separator |
| Text.JoinAvoids | helpers.py:37 | a join holds only characters of its parts and of the separator |
| Text.JoinSnoc | helpers.py:31-43 | appending a part to a non-empty list appends separator and part to the join |
| Text.SplitJoin | coordinator.py:123 | splitting a one-character join at that character gives the parts back when no part contains it |
| Text.JoinPermutationAvoids | helpers.py:36-37 | joining a permutation of parts that avoid some characters, with a separator that avoids them, avoids them too |
| Text.ReplaceChar | coordinator.py:106-108 | `s.replace(c, rep)` is no shorter than `s` for a non-empty replacement and no longer for one of at most one character |
| Text.ReplaceCharSingle | coordinator.py:106-108 | on one character, replacement gives `rep` for `c` and the character itself otherwise |
| Text.Unreplace | coordinator.py:106-108 | the decoding that turns each `rep` back into `c` never lengthens its input |
| Text.UnreplaceInverts | coordinator.py:106-108 | decoding undoes the replacement whenever the first character of `rep` is not in the input, as `%` is not in a clock rendering |
| Text.ReplaceCharRemoves | coordinator.py:106-108 | after replacing a character with text that lacks it, the character is gone |
| Text.ReplaceCharAbsent | coordinator.py:106-108 | replaced in a string without it, a character leaves the string unchanged |
| Text.ReplaceCharKeepsOut | coordinator.py:106-108 | a replacement brings in no character that neither the input nor the replacement contains |
| Text.ReplaceCharConcat | coordinator.py:106-108 | replacement acts on each half of a concatenation separately |
| Text.DigitChar | sensor.py:201 | a digit value renders as a character `0`–`9` |
| Text.NatToString | sensor.py:201 | a natural renders as a non-empty digit string with no leading zero, unless the number is 0 |
| Text.NatToStringRoundTrip | sensor.py:201 | the decimal value of the rendering is the number |
| Text.IntToString | config_flow.py:48 | `str(i)` is non-empty and starts with `-` exactly when `i` is negative |
| Text.IntToStringInjective | config_flow.py:48 | different integers render differently |
| Sorting.LexLe | helpers.py:36 | Python's `a <= b` on strings, the order `sorted()` uses: a prefix comes no later than the strings it begins, and a non-empty string is `<=` only non-empty strings whose first character is no lower |
| Sorting.LexLeReflexive | helpers.py:16 | string order: every string is `<=` itself |
| Sorting.LexLeTotal | helpers.py:16 | string order: any two strings are comparable |
| Sorting.LexLeAntisymmetric | helpers.py:16 | string order: strings `<=` each other are equal |
| Sorting.LexLeTransitive | helpers.py:16 | string order is transitive |
| Sorting.Insert | helpers.py:36 | inserting into a sorted list keeps it sorted and adds exactly the element |
| Sorting.SortLines | helpers.py:36 | `sorted()` returns an ascending permutation of its input |
| Sorting.SortedUnique | helpers.py:35-36 | two ascending lists with the same elements are equal |
| Sorting.SortPermutationInvariant | helpers.py:35-36 | permutations of a list sort to the same list |
| ConfigFlow.IdTruthy | config_flow.py:47 | a text `stopID` is truthy exactly when non-empty, and a falsy number is the one whose `str` is `0` |
| ConfigFlow.IdString | config_flow.py:48 | `str(stopID)` is the text itself for a text, and for a number a non-empty string starting with `-` exactly when it is negative |
| Api.StopEntry.IsEmpty | config_flow.py:46 | a stop entry is falsy exactly when it is `{}`, with no key at all |
| ConfigFlow.ValidateStopId | config_flow.py:31-54 | CannotConnect exactly on a client error or a non-200 status. The stop is accepted exactly when the first stop's `stopID` is present and truthy and its `str` equals the requested id. InvalidStopId in every other case |
| ConfigFlow.NumericStopIdDetermined | config_flow.py:44-50 | two numeric stop ids accepted for the same requested text are the same number |
| ConfigFlow.ZeroStopIdRejected | config_flow.py:47 | upstream stop number 0 is falsy, so it is rejected even for the requested id "0" |
| ConfigFlow.StrippedNonEmpty | config_flow.py:65 | the kept pieces are at most the pieces given, and each is non-empty with no whitespace at either end |
| ConfigFlow.StripAvoids | config_flow.py:65 | stripping adds no character |
| ConfigFlow.StrippedNonEmptyAvoids | config_flow.py:63-65 | pieces without separators stay without separators after strip-and-drop |
| ConfigFlow.StrippedNonEmptyConcat | config_flow.py:65 | strip-and-drop keeps order: it maps a concatenation to the concatenation of the results |
| ConfigFlow.ParseFilterLines | config_flow.py:57-65 | no text or empty text parses to `[]`. Every parsed line is non-empty, trimmed and free of `,` and `;` |
| ConfigFlow.ParseText | config_flow.py:63-65 | parsing is splitting at `,`/`;`, then stripping, then dropping empty pieces |
| ConfigFlow.ParseSingle | config_flow.py:63-65 | a text without separators parses to its stripped self, or to nothing when that is empty |
| ConfigFlow.ParseConcat | config_flow.py:63-65 | lines keep their left-to-right order: parsing `a;b` is parsing `a` followed by parsing `b` |
| ConfigFlow.GenerateUniqueId | config_flow.py:68-75 | no lines gives the stop id unchanged. With lines the id starts with `stop_id + "_"` |
| ConfigFlow.UniqueIdPermutationInvariant | config_flow.py:73-75 | the id is the same for any order of the lines |
| ConfigFlow.UniqueIdEncodesSortedLines | config_flow.py:73-75 | with lines the id is `stop_id_` plus the sorted lines joined by `-`, and the sorted lines can be read back from that part when no line contains `-` |
| ConfigFlow.EntryTitle | config_flow.py:110-112 | the title starts with `Bus Stop {stop_id}`. It is just that iff there are no lines, otherwise it continues with ` (Lines: a, b)` in input order |
| ConfigFlow.UserStep | config_flow.py:89-124 | a form error exactly when the stop is not accepted: `cannot_connect` exactly for a client error or a non-200 status, `invalid_stop_id` for every other rejection. On success the entry holds the parsed lines, the id and the title over them |
| Helpers.GenerateName | helpers.py:6-25 | the name built by appending the parts step by step is `EntityName` |
| Helpers.LinesSuffix | helpers.py:15-16 | the lines part is empty exactly when there are no lines, and otherwise begins with ` (Lines: ` |
| Helpers.DirectionSuffix | helpers.py:19-23 | the direction part is empty exactly for all directions |
| Const.DirectionValue | helpers.py:40-41 | the direction text appended to the id is `all` exactly for all directions, and is non-empty without `_` |
| Helpers.EntityName | helpers.py:12-23 | the name is at least `Bus Stop {stop_id}` long, and strictly longer than stop and lines parts together when the direction is not all |
| Helpers.NameStartsWithStop | helpers.py:12 | every name starts with `Bus Stop {stop_id}` |
| Helpers.NameSuffixes | helpers.py:12-23 | no lines and all directions gives just `Bus Stop {stop_id}`. The lines part is present iff lines are given, the direction part iff the direction is not all |
| Helpers.DirectionSuffixValues | helpers.py:19-23 | the direction part is ` direction here` for here and ` direction there` for the other mode |
| Helpers.NameIsTitleOfSortedLines | helpers.py:15-16 | for all directions the name is the entry title over the sorted lines |
| Helpers.NamePermutationInvariant | helpers.py:16 | the name is the same for any order of the lines |
| Helpers.UniqueId | helpers.py:28-43 | the id starts with the stop id. No lines and all directions gives exactly the stop id |
| Helpers.UniqueIdParts | helpers.py:31-41 | there are 1 to 3 parts, the stop id first, one more for lines and one more for a direction other than all. The lines part is the `-`-join of the sorted lines, and the last part is then the direction text |
| Helpers.GenerateUniqueId | helpers.py:28-43 | the id built by collecting the parts and joining them with `_` is the `_`-join of `UniqueIdParts` and equals `UniqueId` |
| Helpers.UniqueIdJoinsParts | helpers.py:43 | joining the parts with `_` gives the id |
| Helpers.UniqueIdPermutationInvariant | helpers.py:34-37 | the id is the same for any order of the lines |
| Helpers.UniqueIdAgreesWithConfigFlow | helpers.py:28-43 | for all directions the 3-argument id equals the configuration step's 2-argument id |
| Helpers.SortedLinesAvoid | helpers.py:36-37 | the `-`-joined sorted lines contain no character that no line contains |
| Helpers.UniqueIdSplits | helpers.py:39-43 | when no part contains `_`, splitting the id at `_` gives back stop id, lines part and direction part, the last present iff the direction is not all |
| Coordinator.EncodeDateTime | coordinator.py:106-107 | the escaped date and time has no `:`, and a form decoder that reads `%3A` as `:` recovers the clock's rendering |
| Coordinator.EncodeOffset | coordinator.py:108 | the escaped offset has neither `:` nor `+`. An offset with neither passes unchanged. Without `:` or `%`, reading `%2B` as `+` recovers it |
| Coordinator.EncodeRequestDate | coordinator.py:106-108 | the request date is the escaped date and time followed by the escaped offset, and holds no `:` |
| Coordinator.EncodeDateTimeOneColon | coordinator.py:106-107 | a rendering `{date}:{time}` with one colon escapes to `{date}%3A{time}` |
| Coordinator.EncodeOffsetEastern | coordinator.py:108 | an eastern offset `+HHMM` escapes to `%2BHHMM` |
| Coordinator.EncodeClockRendering | coordinator.py:105-108 | the clock's `YYYY-MM-DD+HH:MM` and `+HHMM` give `YYYY-MM-DD+HH%3AMM%2BHHMM`: the `+` between date and time stays |
| Coordinator.FormFields | coordinator.py:110-123 | there are four fields, and none contains `&` when neither the stop id nor the date does |
| Coordinator.DeparturesPayload | coordinator.py:110-123 | the posted body begins with the `stopID=` field |
| Coordinator.PayloadLayout | coordinator.py:110-123 | the payload is `stopID=…&date=…&filter=urban&cityID=-1`, in that order |
| Coordinator.PayloadFieldsRecoverable | coordinator.py:110-123 | without `&` in the stop id and the date, splitting the payload at `&` gives the four fields back |
| Coordinator.StopInfoUsable | coordinator.py:74-87 | a response the coordinator takes is a reply with at least one stop. A client error never is |
| Coordinator.DeparturesOutcome | coordinator.py:132-146 | success exactly on status 200 with a `departures` key, returning the list verbatim. A client error is CommunicationError. A non-200 status is BadStatus with that status. A missing key is MalformedResponse |
| Coordinator.UpdateCoordinator.constructor | coordinator.py:30-38 | a new coordinator has the stop id, no name, no lines, an empty stamp and no published data, and its success flag is set as the host's base class sets it |
| Coordinator.UpdateCoordinator.FetchStopInfo | coordinator.py:63-99 | a usable response caches the first stop's name and lines, with `[]` for missing lines. Anything else leaves both as they were |
| Coordinator.UpdateCoordinator.FetchDepartures | coordinator.py:101-146 | the posted payload is the encoded request. The outcome is `DeparturesOutcome`. `last_update` takes the new stamp only on success |
| Coordinator.UpdateCoordinator.UpdateData | coordinator.py:47-61 | stop info is consulted only while no name is cached. A failure leaves `last_update`. Success returns the departures with the cached metadata and the new stamp |
| Coordinator.UpdateCoordinator.Refresh | coordinator.py:47-61 | success publishes the new snapshot, stamps it with the cycle's update time and sets the success flag. Failure keeps the last snapshot and the stamp and clears the flag. A cached name is never touched. Without one, a usable stop response caches the first stop's name and lines and any other response leaves them |
| Coordinator.CachedNameSurvivesCycles | coordinator.py:51-52 | once a name is cached, any number of cycles leave the name and the lines unchanged |
| Sensor.CalculateDepartureTime | sensor.py:119-132 | the effective time differs from the planned one by exactly the delay in whole minutes, and is earlier exactly for a negative delay |
| Sensor.TimeUntilDeparture | sensor.py:134-148 | nothing for no target. Otherwise the signed seconds from now to the target, negative exactly when it is past |
| Sensor.Truthy | sensor.py:184 | a truthy timestamp is present, and 0 is falsy |
| Sensor.LineText | sensor.py:171-175 | the departure's line, or `Unknown` when it has none |
| Sensor.DestinationText | sensor.py:176-178 | the departure's destination, or `Unknown` when it has none |
| Sensor.DelayOf | sensor.py:182 | the departure's delay in minutes, or 0 when it reports none |
| Sensor.LineAllowed | sensor.py:214-219 | without a line list every departure passes. With one, a passing departure has a listed line |
| Sensor.ShouldIncludeDeparture | sensor.py:203-235 | with a line list, a missing, empty or unlisted line is excluded. All checks no direction. Here keeps only tag `here`. The other mode drops `here` and keeps every other tag, a missing one included |
| Sensor.FilterDepartures | sensor.py:157-161 | the filtered list holds exactly the input departures that pass, and only those |
| Sensor.FilterConcat | sensor.py:157-161 | filtering keeps upstream order: it maps a concatenation to the concatenation of the filtered parts |
| Sensor.FilterIdempotent | sensor.py:157-161 | filtering twice is filtering once |
| Sensor.FilterAllowsAll | sensor.py:214-235 | no line list and all directions keeps every departure |
| Sensor.TruncatedMinutes | sensor.py:198 | `int(s / 60)` truncates toward zero: for `s >= 0` the whole minutes not exceeding `s`, for `s < 0` the non-positive minutes not below it |
| Sensor.HeadlineMinutes | sensor.py:195-198 | 0 when no seconds or at most 0 remain. Otherwise the whole minutes remaining |
| Sensor.SecondsUntil | sensor.py:181-193 | there are seconds exactly when the planned time is truthy. Then now plus the seconds is the planned time plus the delay in minutes, and not before the planned time for a delay of 0 or more |
| Sensor.Headline | sensor.py:171-201 | the headline starts with `line -> destination`, each `Unknown` when absent. Without a truthy planned time it is just that |
| Sensor.HeadlineMinutesReadable | sensor.py:184-201 | a timed headline is `line -> destination in N min`, where N is a non-empty digit string without leading zeros that reads back as 0 for a due or past departure and as the whole minutes remaining otherwise |
| Sensor.NativeValue | sensor.py:150-201 | nothing iff there is no data or no departure passes the filter. Otherwise the headline of the first passing departure |
| Sensor.ProjectDeparture | sensor.py:274-327 | a detail entry copies line, destination, planned time, delay, platform and direction. The formatted times, the calculated time and the seconds are set exactly when the planned (resp. calculated) time is truthy. The minutes are set exactly when the seconds are non-zero, truncated toward zero |
| Sensor.HeadlineClampsDetailKeeps | sensor.py:184-319 | for the same departure the detail's seconds are the headline's. The headline clamps a due or past departure to 0, and for one still ahead both show the same minutes |
| Sensor.ExtraStateAttributes | sensor.py:237-329 | without data nothing. With data the stop name when non-empty, the stopping lines and the settings. The details are exactly `min(max_departures, #passing)` entries, the i-th being the detail of the i-th passing departure |
| Sensor.HeadlineExample | sensor.py:150-201 | line 21 to Centrum, on time and 300 s away, reads `21 -> Centrum in 5 min` |
| Sensor.NoMatchExample | sensor.py:153-165 | a filter naming a line not served leaves no departure and no headline |
| Sensor.DirectionExample | sensor.py:222-235 | here keeps only the `here` departure, there keeps the `there` and the untagged one, all keeps the three |
| Sensor.TwoOfFive | sensor.py:266-273 | room for two and five passing departures details the first two, in order |

## Left out

- Network I/O: the sessions, GET and POST calls, timeouts and JSON decoding. Only the decisions taken on the response values are modelled, as `HttpResult`, with `ClientError` standing for `aiohttp.ClientError`.
- The Home Assistant lifecycle and registry (`async_setup_entry`, `async_unload_entry`, `hass.data`), the config-flow form and schema, the duplicate-entry abort (config_flow.py:106-107) and the catch-all `unknown` error (config_flow.py:125-127). These are host wiring, or exceptions the model has no source for.
- Polling and async scheduling. A cycle is one method call; concurrency between the host and the sensor is not modelled.
- Local-time rendering and time zones. `localTime` and `Clock` are opaque strings, and `now` is a parameter, as is `dt_util.now()`.
- Logging.
- The success flag and the published data belong to the host's coordinator base class, which starts with the flag set. The model keeps both as fields of `UpdateCoordinator`.
- Each detail entry of `extra_state_attributes` reads the clock afresh in the source; the model uses one `now` for all of them.
- The entity naming inside the sensor constructor (sensor.py:92-113), which repeats `generate_name` over the stop name.
- The sensor constructor's call of the 2-argument `generate_unique_id` with three arguments (sensor.py:18, sensor.py:89) raises a `TypeError`. `__init__.py:28` passes a fourth argument to the 3-parameter constructor (coordinator.py:30-31). Neither can be stated in a typed model. The sensor's unique id is not modelled; `Helpers.UniqueId` is the 3-argument form. The coordinator constructor takes the stop id alone (the session is I/O).
- `extra_state_attributes` reads `self.coordinator.direction` (sensor.py:247), an attribute the coordinator does not define. As written, every read of the attributes raises: `AttributeError` there once data exists, and already at sensor.py:241 before it. `Sensor.ExtraStateAttributes` models the evidently intended attribute bag and reports the sensor's own direction.
- `extra_state_attributes` reads `last_update` from the data before its guard (sensor.py:241), so without data it raises. The model returns `None` in that case.
- `const.py` does not define `CONF_DIRECTION`, `DIRECTION_ALL`, `DIRECTION_HERE` or `DEFAULT_DIRECTION`. The model uses a three-valued `Direction` whose string values `all`, `here` and `there` are an assumption. The source treats any non-`all`, non-`here` value as the third mode; the model has exactly one such value.
- The `return {[]}` on a response without `departures` (coordinator.py:144) raises `TypeError` in Python. The model gives `MalformedResponse`, a failed cycle that leaves `last_update` unchanged.
- JSON values of the wrong type, and explicit `null` values where the source uses `.get` with a default: absent and null are both `None`. A `stopID` is text or an integer only.
- Sensor.TruncatedMinutes: models `int(s / 60)` as exact truncating division. Python divides in floating point first, which differs only for magnitudes beyond 2^53.
- Sensor.NativeValue: the source also answers `None` when the data has no `departures` key (sensor.py:153). The coordinator always supplies that key, so the model's snapshot always has a departure list.
