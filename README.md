# Steam charts status bot: fetch, format and rotate

A Dafny model of the logic inside the Discord bot that shows the five most
played Steam games in its status. The bot asks the Steam charts endpoint for
the `response.ranks` array and, when that gives nothing, scrapes the
steamcharts.com top list. It turns at most five records into lines of the form
`#<rank> <name> — <count>`, with counts shortened to `2.50M` or `15.0k`.
It keeps those lines in the module-level `lines` with a cursor `rotateIdx`,
and on every rotate tick it moves the cursor one step with wrap-around. Each
line shown becomes the bot's status and, when a guild id and a prefix are
configured, its nickname `<prefix> • <line cut to 24 characters>`.

Modules, one per part of `index.js`:

- `Text` (text.dfy): the JavaScript conversions the bot relies on. These are
  `String(n)` for a count, unary plus on a digit string, `trim()` and removing
  thousands separators.
- `Players` (players.dfy): `fmtPlayers`.
- `Charts` (charts.dfy): the field fallback chains, the display line and the
  choice between the two sources in `fetchTop5`.
- `Presence` (presence.dfy): the nickname text and what one publish step hands
  to the chat platform.
- `Bot` (bot.dfy): the class `Rotator` holding `lines` and `idx`, with
  `Refresh` and `Rotate`.

The network responses are inputs:

- The primary response is `Option<seq<RankEntry>>`. `None` stands for a failed
  request, an unparseable body or a missing array.
- The fallback response is `Option<seq<Capture>>`, the regex captures in
  document order. `None` stands for a failed request.

An array element that is `null` is `RankEntry.Null`. Reading its `rank` throws
inside the `try`, so the fetch goes on to the fallback. The model keeps this
behaviour (`NullEntryFallsBack`).

`Bot.PlaceholderScenario` and `Bot.WrapScenario` are client methods. They take
the class through the two end-to-end cases: both sources down, and three lines
wrapping from index 2 to 0.

Details of the code that the model keeps:

- The placeholder line is `Unable to load Steam charts`.
- The line list is never empty: the placeholder takes the place of an empty
  result. So `0 <= idx < |lines|` holds from the start.

## Model

| member | source | states |
|---|---|---|
| Text.NatToString | index.js:60 | the decimal text of a count is non-empty, all digits and without a leading zero |
| Text.DigitsValue | index.js:45-47 | unary plus on a digit string: a string whose first digit is not '0' converts to a positive number |
| Text.ParseShow | index.js:45 | converting the printed digits of n back with unary plus gives n |
| Text.ShowParse | index.js:45 | a captured rank without leading zeros prints back as exactly the captured digits |
| Text.StripCommas | index.js:47 | removing separators leaves no ',' and never lengthens; digits and commas become digits only |
| Text.StripGrouped | index.js:47 | stripping a digit string grouped by thousands with ',' restores the digit string |
| Text.GroupedCountValue | index.js:47 | a count printed with thousands separators converts back to the same count |
| Text.TrimStart | index.js:46 | removes exactly the maximal leading run of JavaScript white space |
| Text.TrimEnd | index.js:46 | removes exactly the maximal trailing run of JavaScript white space |
| Text.Trim | index.js:46 | the trimmed name neither starts nor ends with white space |
| Text.TrimSlice | index.js:46 | the trimmed name is a contiguous part of the captured text with only white space cut off either side |
| Text.TrimIdempotent | index.js:46 | trimming twice equals trimming once |
| Players.RoundDiv | index.js:58-59 | the scaled count is within half a unit of n divided by the scale |
| Players.NearestIsUnique | index.js:58-59 | any integer strictly within half a unit is the rounded value, so away from exact halves the rounding is forced |
| Players.Fixed | index.js:58-59 | the toFixed text is a canonical whole part, then '.', then exactly `places` digits |
| Players.FixedReadsBack | index.js:58-59 | the toFixed text splits into whole digits, '.', and exactly `places` digits that together read back as the scaled integer |
| Players.FmtPlayers | index.js:57-61 | ends in 'M' iff n >= 1,000,000 and in 'k' iff 1,000 <= n < 1,000,000; otherwise it is the plain decimal of n; never contains a space |
| Players.FmtMillions | index.js:58 | at or above a million the text is `<whole>.<two digits>M` and that number is within half a hundredth of n / 1,000,000 |
| Players.FmtThousands | index.js:59 | between a thousand and a million the text is `<whole>.<one digit>k` and that number is within half a tenth of n / 1,000 |
| Players.FmtExamples | index.js:57-61 | 2,500,000 shows as 2.50M, 15,000 as 15.0k, 42 as 42 and 123,456 as 123.5k |
| Players.FmtJustUnderMillion | index.js:59 | 999,999 shows as 1000.0k: the rounding can reach 1000 inside the 'k' branch |
| Charts.ShowField | index.js:32 | a rank prints as a non-empty word without spaces: its digits, or "undefined" when missing |
| Charts.ResolveName | index.js:29 | the name is `name` if non-empty, else `app_name` if non-empty, else "App " and the id; it is never empty |
| Charts.ResolveCount | index.js:30 | the count is the current count if non-zero, else the peak if non-zero, else 0; it is 0 exactly when both are falsy |
| Charts.PrimaryRecord | index.js:27-31 | a primary entry keeps its rank as given (missing stays missing), takes a never-empty name from the name chain and its count from the count chain |
| Charts.FallbackRecord | index.js:44-48 | a scraped row gives rank = digits value, name = trimmed text, players = count digits value without commas |
| Charts.FallbackRecordOfListing | index.js:42-48 | a row printed from a rank, a comma-grouped count and a name with no '<' and no white space at either end is read back as that same record; white space inside the name is kept |
| Charts.FallbackRankAsCaptured | index.js:45 | a captured rank without leading zeros is shown exactly as captured |
| Charts.FallbackCountExample | index.js:47 | the count text "1,234,567" with its commas removed converts to 1234567 |
| Charts.FormatLine | index.js:32 | every display line starts with '#' |
| Charts.LineFields | index.js:32 | from a display line, the text between '#' and the first space is the rank, the text after the last space is the formatted count, and the name sits exactly between the space after the rank and the " — " before the count |
| Charts.PrimaryLines | index.js:25-33 | primary lines exist iff the array is non-empty with no null among its first five; they are the first min(5, n) entries formatted in array order |
| Charts.FallbackLines | index.js:42-49 | fallback lines exist iff at least one row matched; they are the first min(5, m) rows formatted in document order |
| Charts.FetchTop5 | index.js:20-55 | always 1 to 5 lines; the result is the lone placeholder exactly when neither source yields data |
| Charts.PrimaryWins | index.js:26-33 | when the primary yields data the result is its first min(5, n) records in order, whatever the fallback would have given |
| Charts.FallbackWhenPrimaryFails | index.js:38-49 | when the primary yields nothing and the fallback matched rows, the result is the first min(5, m) rows in order |
| Charts.NullEntryFallsBack | index.js:27-36 | a null among the first five ranks makes the result the same as with no primary data at all |
| Charts.UndefinedFieldsExample | index.js:28-32 | an entry with no rank, no name, an empty app_name, no id and a zero count gives "#undefined App undefined — 0" |
| Presence.Shorten | index.js:76 | a line of at most 24 characters is kept; a longer one becomes its first 24 characters and '…', so never more than 25 |
| Presence.ShortenIdempotent | index.js:76 | shortening twice equals shortening once |
| Presence.ShortenFixedPoint | index.js:76 | shortening leaves a line as it is iff it has at most 24 characters or is 25 ending in '…' |
| Presence.Nickname | index.js:72-77 | a nickname is produced iff both guild id and prefix are non-empty; it is the prefix, then exactly " • ", then the shortened line, so at most 28 characters longer than the prefix |
| Presence.Publish | index.js:89-90 | the status is the line itself, and the nickname is the nickname text for that same line, set exactly when nickname updates are configured |
| Bot.NextIndex | index.js:98 | one tick moves the cursor to the next index, or to 0 exactly from the last index |
| Bot.AdvanceIsMod | index.js:96-98 | k ticks from index i land on (i + k) mod the number of lines |
| Bot.EveryLineShown | index.js:96-102 | between refreshes every line is shown within as many ticks as there are lines, and that many ticks bring the cursor back |
| Bot.Rotator.Current | index.js:99 | the displayed line is one of the current lines |
| Bot.Rotator.constructor | index.js:15-16 | starts with the single loading line and cursor 0, so the invariant holds from the start |
| Bot.Rotator.Refresh | index.js:86-91 | lines become the fetch result wholesale and the cursor 0; it publishes lines[0]; the invariant holds afterwards |
| Bot.Rotator.Rotate | index.js:96-101 | with no lines nothing changes and nothing is published; otherwise the cursor becomes (old + 1) mod the number of lines and that line is published; lines are untouched and the invariant is kept |

## Left out

- Players.FmtPlayers: an exact half is rounded up. This happens when a count at or above a million ends in 5000, or a count in the thousands ends in 50. `toFixed` rounds the binary double, which at such a half can round either way. The model claims the exact digits only away from halves (`NearestIsUnique`).
- Text.NatToString: counts are unbounded integers. JavaScript numbers lose precision above 2^53 and print in exponent form from 10^21. Neither happens with real player counts.
- Presence.Shorten: lengths and the 24-character cut count Unicode characters. JavaScript counts UTF-16 code units, which differs only for names with characters outside the Basic Multilingual Plane.
- JSON fields of an unexpected type are not modelled: a rank given as a string, a name given as a number. Fields are either absent or of the expected type.
- The regex match over the listing page is not modelled. The captures are inputs, constrained only by what the groups `\d+`, `[^<]+` and `[\d,]+` can match (`WellFormed`).
- The HTTP requests, `r.json()` and `r.text()` are reduced to their results as optional inputs.
- The Discord client is not modelled: login, the `ready` event, guild and member lookup, `setPresence` and `setNickname`. Publishing is the value each step returns.
- Errors thrown by the Discord calls are not modelled. They cannot undo a step, because `lines` and the cursor are already updated when the calls are made. They do cut a step short. A rejected `setPresence` during the first `await refresh()` (index.js:93) ends the ready handler before either `setInterval` is registered (index.js:94, 96), so nothing rotates or refreshes afterwards. A rejected `setPresence` during a rotate tick skips `maybeSetNickname` (index.js:100-101), so the nickname a `Published` value names is then never set.
- The start order is not modelled. In the code the rotate interval is registered only after the first refresh (index.js:93-96), so the loading line is never published. The model allows `Rotate` on the initial state.
- Timers and their interleaving at `await` points are not modelled. The refresh and rotate intervals run on their own schedules, and a rotate tick can fall inside a refresh's network wait. Every `Refresh` and `Rotate` is one atomic step.
- The configuration is not modelled: `dotenv`, the defaults and the `Number(...)` conversion of the interval settings. The guild id and the prefix after its default are constructor parameters.
