# telegram-bot core, modelled in Dafny

This project models the decision and data-transformation logic of a Telegram bot. The bot is written in Python on aiogram, and the model is in Dafny. It covers:

- **Poll-driven removal** (`Poll`). A group can vote to remove the bot. The registry file active_polls.json maps poll ids to chat ids. Every registry operation re-reads the whole file and writes the whole file back. Class `PollRegistry` holds the file and the log of attempted writes. The command `/poll_delete` starts a vote in groups only. The poll-state callback ignores open polls and looks up the chat. It tallies "Yes" and "No", announces the result, and leaves on a strict Yes majority. Then it evicts the entry.
- **Admin guard** (`Auth`). The allow-list file .auth is parsed into the integer ids of its all-digit lines. The middleware then runs the wrapped handler or sends the fixed refusal. The file is re-read on every call.
- **Command logging** (`CommandLogging`). For a message whose text starts with "/", the middleware runs the handler once. When the handler returns, it appends one entry to the command log (class `CommandLoggingMiddleware`, field `log`).
- **Inline weather queries** (`Inline`). This covers the city list read at start-up and how the results of one inline query are chosen:
  - the instruction for an empty query;
  - the result for a shared location;
  - case-insensitive prefix autocompletion, capped at 5 cities;
  - a lookup by the exact query when no city matches;
  - the "City not found" fallback.
- **City-list generator** (`PopulateCities`). It parses the GeoNames dump, keeps cities with more than 100000 inhabitants as "name, CC", sorts them and writes cities.txt. The model proves that the file it writes loads back as the same list in the inline handler, when the bot reads the file as UTF-8, the encoding the generator writes.
- **Log tail** (`Log`). `/log` sends the last 30 lines of commands.log, cut to the last 4000 characters, with a header count.
- **Keyword auto-reply** (`AutoReply`). The first keyword (hello, pricing, support) that occurs in the lowercased text gets its reply, and only that one.
- **Forecast digest** (`Forecast`). `format_forecast_message` reduces an OpenWeatherMap 5-day/3-hour reply to two parts:
  - the next 8 intervals;
  - a summary of at most 5 UTC days, in ascending order, giving each day's lowest and highest temperature and its most frequent condition.

  `get_forecast` chooses the request parameters.

Support modules:

- `Text` models Python's `str.strip`, `str.isdigit`, `str.lower`, `in`, `int()` and string ordering on `seq<char>`.
- `Lines` models `"".join`, `readlines()` and `str.split`.
- `Sorting` is an insertion sort parameterised by its order.
- `Wrappers` holds `Option`.

Effects are recorded, not performed. The handlers return the platform calls they make, in order. Registry writes and log entries are appended to a field of the object that owns them.

External lookups are function parameters:

- `get_weather` (`Lookup -> Option<Weather>`);
- the handler behind a middleware.

Failure points are also parameters:

- a failing send;
- a failing file write;
- an unreadable file;
- a failed download.

## Model

| member | source | states |
|---|---|---|
| Poll.LoadFallsBackToEmpty | handlers/poll.py:12-19 | A registry file that is missing or cannot be read as JSON loads as the empty map. |
| Poll.SaveMapsOnlyItsPoll | handlers/poll.py:21-23 | After a successful save, the poll maps to the chat, replacing any earlier chat. Every other entry is present exactly when it was before, with the same chat. |
| Poll.RemoveDeletesOnlyItsPoll | handlers/poll.py:30-38 | A successful remove leaves exactly the old map minus the poll. For an unregistered poll the file is unchanged, whatever write fault would have happened. |
| Poll.PollRegistry.constructor | handlers/poll.py:10 | The registry starts as the file on disk, with no writes attempted. |
| Poll.PollRegistry.SavePoll | handlers/poll.py:21-28 | It writes exactly the map read from disk with the poll set to the chat, as one whole-file write. A failing write is swallowed: an `open` failure leaves the file as it was, and a `dump` failure leaves it unreadable. |
| Poll.PollRegistry.RemovePoll | handlers/poll.py:30-38 | When the poll is not registered, nothing is written and the file is unchanged. Otherwise the map minus the poll is written once, and write faults are swallowed. |
| Poll.CmdPollDelete | handlers/poll.py:40-55 | Outside a group or supergroup: exactly one answer with the fixed notice, no poll, and no registry change. Inside one: one non-anonymous Yes/No poll open for 21600 seconds, whose id is then saved for the chat. When creating the poll raises, nothing is saved. |
| Poll.TallyOfLabel | handlers/poll.py:70-72 | A label that no option carries counts 0. A label that exactly one option carries counts that option's votes. |
| Poll.HandlePollUpdate | handlers/poll.py:57-94 | The platform calls, the new registry file and the writes are exactly those of the callback's step function applied to the file as read. |
| Poll.OpenPollIgnored | handlers/poll.py:60-61 | A callback for a poll that is still open makes no call and leaves the registry unchanged. |
| Poll.UnknownPollIgnored | handlers/poll.py:63-67 | A closed poll that is unregistered, or registered with the falsy chat id 0, makes no call and evicts nothing. |
| Poll.LeaveIffStrictMajority | handlers/poll.py:70-92 | The bot leaves a chat if and only if the closed poll registered for it has strictly more Yes than No votes (missing labels count 0) and the announcement did not raise. |
| Poll.AtMostOneAnnouncementAndLeave | handlers/poll.py:80-86 | A callback makes at most two calls. Only the first can be an announcement and only the second a leave. |
| Poll.AnnounceBeforeLeave | handlers/poll.py:80-86 | A leave is always the second and last call. It comes right after an announcement to the same chat that carries the poll's Yes and No tallies, with Yes strictly ahead. |
| Poll.AnnouncementReportsCounts | handlers/poll.py:74-88 | Every announcement text starts with the results header giving the Yes and No counts. |
| Poll.TieStays | handlers/poll.py:87-92 | 3 Yes against 3 No sends only one announcement, carrying 3 and 3 (so the "staying" text), with no leave. |
| Poll.MajorityLeaves | handlers/poll.py:80-84 | 5 Yes against 2 No sends the announcement carrying 5 and 2 (so the "leaving" text) and then leaves, each exactly once. |
| Poll.ClosedKnownPollEvicted | handlers/poll.py:94 | A closed, registered poll is evicted on both branches, whether or not the send failed. With a successful write, every other entry is kept. |
| Poll.ReplayIsNoop | handlers/poll.py:63-67 | Replaying a callback after its eviction was written makes no call and changes nothing. |
| Poll.FailedEvictionRepeats | handlers/poll.py:37-38 | When the eviction's `open` fails, the swallowed error leaves the entry in place, so a replayed closure announces again. |
| Poll.VoteToLeaveScenario | handlers/poll.py:40-94 | Start a vote in a group, then close it with a Yes majority. The bot announces once and leaves once, and the registry ends empty. |
| Auth.AuthorizedUsers | middlewares/auth.py:11-20 | No authorized id is negative. |
| Auth.AuthorizedExactly | middlewares/auth.py:17 | An id is authorized if and only if some line, stripped, is a non-empty run of digits with that value. |
| Auth.NoFileAllowsNobody | middlewares/auth.py:13-14 | A missing or unreadable .auth file gives the empty set. |
| Auth.DecimalLineAllows | middlewares/auth.py:17 | A line holding the decimal form of n, with any surrounding whitespace, authorizes n. |
| Auth.NonDigitLineAllowsNobody | middlewares/auth.py:17 | Whether a given id is authorized does not change when a line that is not an id line is added. |
| Auth.NonDigitLineIgnored | middlewares/auth.py:17 | Adding a line whose stripped form is not all digits leaves the set unchanged. Examples are a signed id, a comment or a blank line. |
| Auth.AdminGate | middlewares/auth.py:22-42 | These events call the handler exactly once and return its result: non-message events, messages without a sender, and authorized senders. Any other sender gets exactly one refusal answer and no handler call. A sender with a negative id is never admitted. |
| Auth.RevocationTakesEffect | middlewares/auth.py:36 | The decision follows the file as read at each call. An authorized user is admitted. After an administrator deletes every line of .auth that authorizes the user, and keeps the other lines, that user's next message is refused. |
| CommandLogging.LogEntry | middlewares/command_logging.py:56-60 | The log entry contains the full message text, "[MsgID: id]" and the bracketed chat details. |
| CommandLogging.FieldFallbacks | middlewares/command_logging.py:39-42 | A missing or empty username or language shows as "N/A". A chat title appears exactly when it is truthy. |
| CommandLogging.CommandLoggingMiddleware.constructor | middlewares/command_logging.py:9-18 | The middleware starts with the bot's version and an empty log. |
| CommandLogging.CommandLoggingMiddleware.Call | middlewares/command_logging.py:20-63 | A non-command calls the handler once, returns its result and logs nothing. A command from a sender calls the handler once and returns its outcome. It appends exactly one entry only when the handler returned. A raised error passes through with nothing logged. |
| Inline.LoadCitiesCons | handlers/inline.py:12-14 | The first line of cities.txt, stripped of its "\n" and any surrounding whitespace, is the first city, and the rest of the file gives the remaining cities. |
| Inline.LoadCitiesLastLine | handlers/inline.py:12-14 | A final line without "\n" gives one more city, stripped. An empty file gives no cities. |
| Inline.Matches | handlers/inline.py:72 | There are never more matches than cities. |
| Inline.MatchesMembership | handlers/inline.py:72 | A city is among the matches if and only if it is in the list and its lowercase form starts with the lowercase query. |
| Inline.MatchesAppend | handlers/inline.py:72 | Matching keeps list order. |
| Inline.MatchingCities | handlers/inline.py:72 | The suggestions are a prefix of the ordered matches of length min(number of matches, 5). So five are suggested whenever five or more entries match, and all of them when at most 5 match. |
| Inline.MatchingCitiesAreSuggestions | handlers/inline.py:72 | Every suggestion is a matching city of the list. When fewer than 5 are suggested, every matching city is. |
| Inline.EmptyQuerySuggestsAll | handlers/inline.py:72 | Every city matches the empty query, so the empty query suggests the first min(number of cities, 5) cities of the list. |
| Inline.CityArticles | handlers/inline.py:79-100 | At most one result per suggestion. |
| Inline.CityArticleOrigin | handlers/inline.py:79-100 | Each city result is the article of a suggested city whose lookup succeeded, carrying that lookup's weather. |
| Inline.LookupCities | handlers/inline.py:76-100 | The fan-out makes exactly the lookups by name and builds exactly the city articles. |
| Inline.SearchByName | handlers/inline.py:72-115 | The results found by name and the lookups made are those of the suggestions, or of the exact-query fallback when nothing is suggested. |
| Inline.InlineWeather | handlers/inline.py:19-129 | The answer and the lookups are exactly those the response definition gives for the query, the location and the city list. |
| Inline.CityArticlesAppend | handlers/inline.py:79-100 | City results follow suggestion order. |
| Inline.AllLookupsSucceed | handlers/inline.py:79-100 | When every lookup succeeds, there is one result per suggestion, in order, each the article of that city with its weather. |
| Inline.RenderedResults | handlers/inline.py:27-127 | The message is sent as HTML exactly for weather results, not for the instruction or "City not found". A city result is titled with the city, described by the weather summary, and carries the full report. |
| Inline.LocateStep | handlers/inline.py:40-65 | For a shared location, one lookup by coordinates is made, and a successful lookup gives the single location result. Without a location, there is no lookup and no result. |
| Inline.AnswerNeverEmpty | handlers/inline.py:117-127 | Every answer holds at least one result. |
| Inline.InstructionWithoutQueryOrLocation | handlers/inline.py:22-37 | An empty query with no location gets only the instruction, cached for 300 seconds, and makes no lookup. Every other answer is cached for 60 seconds and never holds the instruction. |
| Inline.LocationFirst | handlers/inline.py:40-69 | A shared location is looked up first, and a successful lookup gives the first result. With an empty query, that result is the only result and the only lookup. |
| Inline.NameLookups | handlers/inline.py:74-115 | With suggestions, each is looked up once, in order. With none, exactly one lookup by the exact query is made. |
| Inline.CityResults | handlers/inline.py:74-127 | With suggestions, the results are the location result followed by the city results. "City not found" is shown exactly when both are empty. |
| PopulateCities.StrOrderIsTotalOrder | tools/populate_cities.py:49 | The order `sort` uses on the entries is total and transitive. |
| PopulateCities.Kept | tools/populate_cities.py:31-47 | Filtering keeps at most one entry per line. |
| PopulateCities.FetchCities | tools/populate_cities.py:10-54 | A failed download gives the empty list. Otherwise the result holds the entries of the kept lines, each exactly once (a permutation), sorted ascending. It is no longer than the dump. |
| PopulateCities.RecordEntry | tools/populate_cities.py:35-46 | A record of at least 15 tab-free fields yields "field1, field8" exactly when field 14 reads as an integer above 100000, and nothing otherwise. |
| PopulateCities.ShortOrBlankSkipped | tools/populate_cities.py:32-36 | Blank lines and lines with fewer than 15 fields yield nothing. |
| PopulateCities.PopulationThreshold | tools/populate_cities.py:45 | A population of exactly 100000 is rejected, and 100001 is kept. |
| PopulateCities.KeptFromLines | tools/populate_cities.py:31-47 | Every entry kept comes from some line of the dump. |
| PopulateCities.CitiesFileCons | tools/populate_cities.py:70-71 | The file text is the first city, a line break, then the rest. |
| PopulateCities.WriteCities | tools/populate_cities.py:70-71 | The text written is each city followed by "\n", in list order. |
| PopulateCities.GenerateCityList | tools/populate_cities.py:56-74 | Nothing is written when no city was fetched or the file cannot be opened. Otherwise the file holds each sorted city followed by "\n", in order. |
| PopulateCities.StrOrderIsAntisymmetric | tools/populate_cities.py:49 | Two strings that are ordered both ways are equal. |
| PopulateCities.SortedCitiesUnique | tools/populate_cities.py:49 | Any two sorted lists of the same entries are equal, so the result does not depend on the sorting procedure. |
| PopulateCities.WrittenListIsLoaded | tools/populate_cities.py:70-71 | Loading the written cities.txt the way the inline handler does gives back exactly the city list, provided no city holds a line break or surrounding whitespace. |
| PopulateCities.ReadBackLines | tools/populate_cities.py:70-71 | Reading the written file line by line gives each city followed by "\n". |
| Log.SliceStart | handlers/log.py:14 | A Python slice start never exceeds the length. A negative index in range counts from the end, and an index in range is itself. |
| Log.LastLines | handlers/log.py:11-14 | Exactly min(n, len) elements, forming the end of the input in its original order. |
| Log.AsWrittenAgreesForPositiveCounts | handlers/log.py:14 | For every positive count, the slice as written keeps exactly the last lines. |
| Log.ZeroCountReturnsEverything | handlers/log.py:14 | With a count of 0, the slice as written returns the whole non-empty file, where the last 0 lines are none. |
| Log.JoinOfTail | handlers/log.py:30 | Joining a trailing run of lines gives the end of the joined file. |
| Log.ShownContent | handlers/log.py:30-34 | The content shown is min(its length, 4000) characters long and is the end of the joined last lines. |
| Log.CmdLog | handlers/log.py:16-39 | A missing file gets the fixed "currently empty or does not exist" answer. A read error gets "Failed to read log file: ..." and goes no further. A file without lines gets "Log file is empty.". Otherwise it sends the HTML message, and a failing send gets one more "Failed to read log file" answer. |
| Log.ShownIsEndOfLog | handlers/log.py:30-36 | What is shown is at most 4000 characters and is the end of the log file. When the joined last 30 lines fit, it is all of them. |
| Log.HeaderCountIsLinesShown | handlers/log.py:36 | The header count is the number of lines shown, min(lines in the file, 30). |
| Log.EmptyExactlyWithoutLines | handlers/log.py:26-28 | The empty notice is sent exactly when the file has no lines. |
| AutoReply.FirstMatch | handlers/auto_reply.py:14-17 | The found position holds a keyword that occurs in the text, and no earlier entry's keyword does. None means no keyword occurs. |
| AutoReply.AutoReply | handlers/auto_reply.py:11-17 | The loop sends the replies of the reference definition, and at most one. |
| AutoReply.ReplyIsFirstKeyword | handlers/auto_reply.py:5-17 | At most one reply. There is no reply exactly when no keyword occurs in the lowercased text. The reply is that of the earliest keyword in the order hello, pricing, support. |
| AutoReply.SameLowercaseSameReplies | handlers/auto_reply.py:13-17 | Any two texts that lowercase to the same text get the same replies, so matching ignores ASCII case. |
| AutoReply.LowercasedTextSameReplies | handlers/auto_reply.py:13-17 | A text and its lowercase form get the same replies. |
| AutoReply.MatchingIgnoresCase | handlers/auto_reply.py:13 | "HELLO there" gets the hello reply. |
| AutoReply.TableOrderWins | handlers/auto_reply.py:13-16 | Any text whose lowercase form contains both "support" and "pricing", but not "hello", gets only the pricing reply. Table order wins over position in the text. |
| Forecast.IntervalOf | handlers/forecast.py:51-52 | The UTC clock time of an interval is a valid hour and minute. |
| Forecast.SecondOfDay | handlers/forecast.py:51-62 | The second of the UTC day is below 86400. Together with the day number it gives back the timestamp, so an interval's clock time and the day it is grouped under describe the same instant. |
| Forecast.Group | handlers/forecast.py:60-64 | A day's group holds as many temperatures as conditions, and never more than the list has entries. |
| Forecast.GroupNonEmpty | handlers/forecast.py:60-64 | A day's group is non-empty if and only if some entry falls on that day. |
| Forecast.GroupSizesStep | handlers/forecast.py:61-64 | A new entry adds one to its own day's group and to no other. |
| Forecast.EachEntryInOneGroup | handlers/forecast.py:61-64 | Over a duplicate-free list of days that covers every entry, the group sizes add up to the number of entries, so each entry lands in exactly one group. |
| Forecast.EmptyGroupSizes | handlers/forecast.py:60 | The empty list has only empty groups. |
| Forecast.MinOf | handlers/forecast.py:68 | The minimum is one of the temperatures and no temperature is below it. |
| Forecast.MaxOf | handlers/forecast.py:69 | The maximum is one of the temperatures and no temperature is above it. |
| Forecast.BestUpTo | handlers/forecast.py:71 | The chosen position has the highest count among the first n, and every earlier position has a strictly lower count. |
| Forecast.MainCondition | handlers/forecast.py:71 | The main condition is one of the day's conditions, and none is counted more often. |
| Forecast.MainConditionTieBreak | handlers/forecast.py:71 | Among conditions with the top count, the main one is first seen no later than any other. |
| Forecast.Summarize | handlers/forecast.py:67-71 | A day's summary has min at most max, and both are temperatures of that day. |
| Forecast.DayLeIsTotalOrder | handlers/forecast.py:67 | The order on day keys is total and transitive. It states nothing about the bot itself and exists only to meet the preconditions of Sorting.Sort where the day keys are sorted. |
| Forecast.Hourly | handlers/forecast.py:50-55 | For a readable list: the first min(8, len) entries as intervals, in list order. No result means some entry lacks its temperature or condition. |
| Forecast.GroupByDay | handlers/forecast.py:60-64 | The groups exist exactly for the days of the list, and each holds that day's group. The days are remembered once each. There is no result exactly when an entry cannot be read. |
| Forecast.FirstDays | handlers/forecast.py:67 | The days shown are min(5, number of days), strictly ascending, drawn from the list, and earlier than every day not shown. |
| Forecast.DailySummaries | handlers/forecast.py:67-71 | One summary per shown day, in the same order, each that day's minimum, maximum and main condition. |
| Forecast.FormatForecast | handlers/forecast.py:42-84 | It gives the fallback if and only if the reply has no list or an entry cannot be read. Otherwise the city and country default to "Unknown", the hourly part is the first 8 intervals, and the daily part is the first 5 days ascending, each with its own summary. |
| Forecast.AscendingPairwise | handlers/forecast.py:67 | In a strictly ascending list of days, every earlier day is smaller. |
| Forecast.DistinctCardinality | handlers/forecast.py:67 | The remembered days are as many as the distinct days of the list. |
| Forecast.ForecastRequest | handlers/forecast.py:13-26 | There is no request without an API key. A non-empty city name is preferred, otherwise both coordinates are required, otherwise there is no request. The key and "metric" units are always sent. |
| Text.StripIsTrimmedSlice | middlewares/auth.py:17 | `strip()` gives a contiguous slice of the input with no whitespace at either end. It is empty if and only if the input is all whitespace. |
| Text.DigitsValueOfNatToString | middlewares/auth.py:17 | Reading the decimal form of n gives n. |
| Text.NatToStringInjective | middlewares/auth.py:17 | Distinct numbers have distinct decimal forms. |
| Text.LowerIdempotent | handlers/auto_reply.py:13 | Lowercasing an already lowercased text changes nothing. |
| Text.LowerHasNoCapitals | handlers/auto_reply.py:13 | No ASCII capital letter is left after lowercasing. |
| Text.LowerAppend | handlers/auto_reply.py:13 | Lowercasing works character by character, so lowercasing a concatenation lowercases each part. |
| Text.ContainsAt | handlers/auto_reply.py:14 | `k in t` holds if and only if k occurs at some position of t. |
| Text.ParseIntOfDigits | tools/populate_cities.py:40 | `int()` of a digit string with surrounding whitespace reads its decimal value. CPython's 4300-digit limit is not modelled. |
| Text.ParseIntOfIntToString | tools/populate_cities.py:40 | `int()` reads back every integer's decimal form, including negative ones. |
| Text.StrLeIsLexicographic | tools/populate_cities.py:49 | The string order holds if and only if the first string is a prefix of the second or is smaller at the first difference. |
| Text.StrLeTotal | tools/populate_cities.py:49 | Any two strings are ordered one way or the other. |
| Text.StrLeTransitive | tools/populate_cities.py:49 | The string order is transitive. |
| Text.StrLeAntisymmetric | tools/populate_cities.py:49 | Strings ordered both ways are equal. |
| Text.StripLineEnd | handlers/inline.py:14 | Stripping a line read with its "\n" gives the same text as stripping the line without it. |
| Text.StripLineBreak | handlers/inline.py:14 | Stripping a stripped line with its "\n" gives the line back. |
| Lines.ReadLines | handlers/inline.py:14 | Joining the lines `readlines()` returns gives the file back, and no line is empty. |
| Lines.ReadLinesCons | handlers/inline.py:14 | A line ending at the first "\n" is the first line read. |
| Lines.Split | tools/populate_cities.py:35 | `split('\t')` gives at least one piece, and no piece contains a tab. |
| Lines.JoinSplit | tools/populate_cities.py:35 | Joining the pieces with the separator gives the line back. |
| Lines.SplitJoin | tools/populate_cities.py:35 | Splitting fields joined by a separator they do not contain gives the same fields back. |
| Sorting.Sort | tools/populate_cities.py:49 | Sorting keeps the length and is a permutation of its input. |
| Sorting.SortSorted | tools/populate_cities.py:49 | Under a total order the result is sorted. |
| Sorting.SortedPairwise | tools/populate_cities.py:49 | In a sorted list, every earlier element is ordered before every later one. |
| Sorting.SortedUnique | tools/populate_cities.py:49 | For a total, transitive, antisymmetric order, two sorted permutations of each other are equal. |

## Left out

- Network and archive I/O are not modelled. These are the OpenWeatherMap requests in `get_weather` and `get_forecast`, and the GeoNames download and unzip. A lookup is a function parameter. The dump is given as a failed download or as the decoded text's lines.
- `str.splitlines()` in the generator: the model takes the dump as lines. It does not model which characters split lines, or the `\r\n` and `\r` newline translation of text-mode reads in `Lines.ReadLines`.
- PopulateCities.WrittenListIsLoaded: files are modelled as character strings, not bytes. The round trip assumes the bot decodes cities.txt as UTF-8. The generator writes UTF-8 (tools/populate_cities.py:69), but handlers/inline.py:13 opens the file with the locale's default encoding. Under another locale, such as cp1252, a name like "São Paulo, BR" loads garbled, or the import raises UnicodeDecodeError.
- Text.ParseInt: CPython's default limit of 4300 digits for `int()` of a string is not modelled. With a longer digit string, `int()` raises ValueError. At tools/populate_cities.py:40-42 that skips the record. At middlewares/auth.py:17 the `except` at line 18 turns it into the empty allow-list. `ParseInt` and `DigitsValue` accept any length.
- `str.isdigit`, `int()` and `str.lower` are ASCII-only: Unicode digits and non-ASCII case mapping are not modelled.
- `asyncio.gather` in the inline handler is modelled as sequential lookups in suggestion order, which `zip` preserves.
- `format_weather_message`, the temperature and description summary, `.capitalize()` and uuid result ids are left out. A successful lookup is given as a name, a report and a summary, and articles carry no id.
- Inline.LoadCities: a `cities.txt` that exists but cannot be read makes the module import raise. That case is not modelled, and a missing file is modelled as None.
- Forecast.FormatForecast: the message text is not built. `strftime`, the weekday name, `.1f` and the HTML layout are left out, and the digest is returned as a structure. Temperatures are integers because they are only compared. Only a missing `list`, `main.temp` or condition is modelled as raising. A malformed `dt` and other exceptions are not.
- Forecast.ForecastRequest: the HTTP status handling and JSON decoding of `get_forecast` are left out. `cmd_forecast`, which only forwards to it, is not modelled.
- The logger's output and the Python logging configuration are left out. This covers the error and warning messages, the `%(asctime)s` prefix of command-log entries and the timestamps. CommandLogging.CommandLoggingMiddleware.Call takes the formatted duration as a parameter, and the clock is not modelled.
- Poll.HandlePollUpdate: an announcement is recorded as its Yes and No counts. `AnnouncementText` gives the HTML text sent with parse mode HTML, and the emoji are plain characters.
- Inline.InlineWeather: an answer holds structured articles. `Render` gives each one's title, description, message text and parse mode, and the weather text inside comes from the lookup.
- Poll.CmdPollDelete: the platform's poll id is a parameter, and the `logger.info` line is left out.
- Poll.PollRegistry.SavePoll: the JSON encoding of the file is not modelled; the file is modelled as a map value. Races between concurrent callbacks on active_polls.json, and the time between `os.path.exists` and `open`, are left out because the model is sequential.
- PopulateCities.GenerateCityList: only a failing `open` is modelled. A write that fails part-way through the loop, leaving a partial file, is not.
- Log.CmdLog: `asyncio.to_thread` is a plain read here. The read is modelled from `readlines()`'s result, and an existing file that vanishes before the read is an unreadable file. An answer that raises outside the `try` is not modelled.
- AutoReply.AutoReply: `message.reply` is returned as the reply text, without the quoting of the original message.
- A failed registry write does not abort the poll workflow: the error is swallowed at handlers/poll.py:27-28 and 37-38, and the model does the same.
- A command whose handler raises is not logged, because there is no `try`/`finally` at middlewares/command_logging.py:49-61. The model does the same.
- Wiring in bot.py is not part of this model, because aiogram's routing is not visible. Two facts stand out: bot.py:6 imports `InteractionLoggingMiddleware`, which middlewares/command_logging.py does not define, and `poll.router` is never registered (bot.py:23-32).
- The handlers handlers/time.py, handlers/photo.py, handlers/top.py, handlers/help.py, handlers/group.py and handlers/weather.py, and config.py, are not part of this model. They are foreign calls, random choice, subprocesses, static text and configuration loading.

## Findings

| source | as written | input that shows it | evidently intended | confidence | as-written member | corrected member |
|---|---|---|---|---|---|---|
| handlers/log.py:14 | `f.readlines()[-num_lines:]` | `num_lines = 0` on a non-empty file: `[-0:]` is `[0:]` and returns every line | the last `num_lines` lines, so none for 0 (the function's name and its caller's docstring) | not executed; `cmd_log` always passes 30, so the bot itself is not affected | Log.ReadLastLinesAsWritten, Log.ZeroCountReturnsEverything | Log.LastLines, Log.AsWrittenAgreesForPositiveCounts |
