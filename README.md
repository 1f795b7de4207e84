# Garoon schedule hoster: the iCalendar serialiser

This project models the part of `index.php` that turns a decoded schedule into
iCalendar text. The schedule is a list of event records. The model covers these
source functions:

- `toICal`: the VCALENDAR wrapper with a fixed VTIMEZONE for Asia/Tokyo. It drops
  empty entries, joins the lines with CRLF and appends a final CRLF.
- `toICalEvents`: one VEVENT block of thirteen entries per event, in input order.
  The blocks carry UID, ORGANIZER, the CREATED, LAST-MODIFIED, DTSTART and DTEND
  time fields, CLASS, SUMMARY, DESCRIPTION, LOCATION and URL.
- `toICalTimeField`: the choice between the UTC `Z` form and the `TZID=` form.
- `field`: the property is omitted for a PHP-empty value, CR and LF are escaped,
  and the line is folded.
- `splitField`: the byte-budget fold. It walks the text by code point and inserts
  `"\n\t"` when a line would pass 72 UTF-8 bytes.
- `generateEventURL` and `uid`: `uid` includes the host extraction done by
  `preg_replace`.
- The check of the record name in `run`.

Modules, in dependency order:

- `Utf8`: UTF-8 byte lengths.
- `Php`: `empty`, `implode`, `array_filter`, `trim`, `str_replace` and integer
  formatting, on strings.
- `PhysicalLines`: the `"\n"`-separated lines of a text and their unfolding.
- `Folding`: `splitField`, written as a loop over a specification function.
- `Fields`: `field` and `toICalTimeField`.
- `Links`: `generateEventURL` and `uid`.
- `Events`: `toICalEvents`, written as a loop over a specification function.
- `Calendar`: `toICal`.
- `NameCheck`: the name pattern.

Strings are sequences of Unicode code points. A JSON null or a missing key in a
string field is modelled as `""`. PHP's `empty`, truthiness, `trim` and
concatenation treat null and `""` alike.

## Model

| member | source | states |
|---|---|---|
| Utf8.Utf8Len | index.php:180 | `strlen` of one code point of `mb_str_split` is between 1 and 4 bytes |
| Utf8.Bytes | index.php:180 | the byte length of a text lies between its code-point count and four times it |
| Php.BoolToString | index.php:141 | a boolean concatenated into a string gives a non-empty string exactly when it is true |
| Php.Empty | index.php:165 | `empty($s)` for a string, and its falsiness in `?:`, `if` and `array_filter`: true exactly for `""` and `"0"` (a predicate, no contract) |
| Php.Join | index.php:117 | `implode($sep, $xs)`: the elements with the separator between neighbours (properties in Php.JoinAppend, Php.JoinConcat and Calendar.JoinTerminated) |
| Php.JoinConcat | index.php:117 | joining a concatenation of two non-empty lists is joining each, with one separator between |
| Php.NonEmpty | index.php:92 | the values of `array_filter($xs)` without a callback, in order (properties in the next three rows) |
| Php.NonEmptySpec | index.php:92 | `array_filter` keeps only non-empty elements, every non-empty value of its input occurs in its output, and the output is no longer than the input |
| Php.NonEmptyConcat | index.php:92 | filtering a concatenation is filtering each part and concatenating, so the kept elements stay in input order |
| Php.NonEmptySingle | index.php:92 | a one-element list is kept when its element is not empty and removed when it is; with Php.NonEmptyConcat this fixes the filter's output element by element |
| Php.NonEmptyKeepsAll | index.php:92 | a list with no empty element passes `array_filter` unchanged |
| Php.Trim | index.php:135 | `trim($s)` with its default character set, as `rtrim(ltrim($s))` (characterised by Php.TrimSpec) |
| Php.TrimSpec | index.php:135 | `trim` returns the slice between the stripped whitespace at both ends, and the slice neither starts nor ends with a stripped character |
| Php.ReplaceChar | index.php:170 | `str_replace` for a one-character search string, scanning left to right (properties in Php.ReplaceCharChars and Php.ReplaceCharConcat) |
| Php.ReplaceCharChars | index.php:170 | every character of the result is an unreplaced character of the input or one of the replacement, and text without the searched character is unchanged |
| Php.ReplaceCharConcat | index.php:170 | replacing in a concatenation replaces in each part |
| Php.NatToStringRoundTrip | index.php:141 | the decimal text of a count is digits only and reads back as that count |
| Folding.Fold | index.php:175-188 | the text `splitField` returns, as the first half of the loop state `Folding.FoldState` after the whole input (the loop's specification) |
| Folding.SplitField | index.php:175-188 | the loop returns `Fold` of the input; its invariant ties the text and the byte counter to the fold of the consumed prefix |
| Folding.FoldCounter | index.php:180-182 | after each code point, the byte counter equals the bytes of the current physical line |
| Folding.FoldBound | index.php:179-186 | when the indent plus any one code point fits the limit, no physical line of the fold is longer than the limit in bytes |
| Folding.FoldContinuation | index.php:181-185 | every physical line after the first is the indent followed by at least one code point |
| Folding.FoldUnfold | index.php:179-186 | for input without LF, deleting each inserted break and the indent after it gives the input back |
| Folding.FoldGreedy | index.php:180-181 | a break is inserted only when needed: the first code point of each continuation line would have taken the previous line past the limit |
| Folding.FoldShort | index.php:179-186 | text that fits in the limit is returned unchanged, with the counter at its byte length |
| Folding.FoldPrefix | index.php:179-186 | folding a prefix of the input gives a prefix of the fold |
| Folding.FoldChars | index.php:183-185 | the fold adds no characters except those of the break and the indent |
| Fields.Escape | index.php:170 | `str_replace(["\r", "\n"], ['\r', '\n'], $s)`: every CR, then every LF, becomes a backslash and a letter (properties in the next three rows) |
| Fields.EscapeNoBreaks | index.php:170 | after escaping, no raw CR or LF is left, and text without them is unchanged |
| Fields.EscapeConcat | index.php:170 | escaping a concatenation escapes each part |
| Fields.EscapeNotInjective | index.php:170 | backslashes are not escaped, so a raw LF and the two characters `\n` escape to the same text |
| Fields.Field | index.php:164-173 | `field($name, $value)`: `""` for an empty value, else the escaped `NAME:VALUE` folded at 72 bytes with a tab indent and a LF break (properties in the next six rows) |
| Fields.FieldOmitted | index.php:164-167 | `field` returns `""` exactly when the value is `""` or `"0"` |
| Fields.FieldUnfold | index.php:169-172 | unfolding a present property gives `NAME:VALUE` with CR and LF escaped |
| Fields.FieldLines | index.php:169-172 | every physical line is at most 72 bytes, continuation lines start with a tab, and there is no raw CR, so the only raw LFs are fold breaks; the physical lines hold no LF and joined with LF give the property back |
| Fields.FieldPrefix | index.php:169-172 | a present property starts with any prefix of `NAME:` that has no CR or LF and fits on one line |
| Fields.FieldShort | index.php:169-172 | a `NAME:VALUE` line without CR or LF that fits in 72 bytes is emitted as it is |
| Fields.ClassPrivate | index.php:132 | the CLASS property is exactly `CLASS:PRIVATE` |
| Fields.TimeField | index.php:153-162 | `toICalTimeField($field, $timeString, $zoneString)` with the `DateTime` conversion as a parameter: the UTC form for the zone `UTC`, else the TZID form in the zone or Asia/Tokyo (properties in Fields.TimeFieldForm) |
| Fields.TimeFieldForm | index.php:153-162 | the result starts with the field name; a colon follows the name exactly for the zone `UTC`, and that form ends in `Z`; an empty zone gives `;TZID=Asia/Tokyo:` and the time converted to Asia/Tokyo |
| Links.EventUrl | index.php:190-195 | `generateEventURL($id, $baseURL)` (properties in Links.EventUrlForm) |
| Links.EventUrlForm | index.php:190-195 | the event URL is `""` exactly when the base URL is empty; otherwise it starts with the base URL and ends with the event id |
| Links.FirstMatch | index.php:199 | the leftmost position at or after i where `https?://[^/]` matches, or none when no position does |
| Links.IndexFrom | index.php:199 | the first position at or after j that holds the character, with none before it; the end of the text when there is none |
| Links.ReplaceHost | index.php:199 | `preg_replace('@https?://([^/]+)/?.*@', '$1', $url)`: each leftmost match, from the scheme to the end of its line, replaced by the host it captured (properties in Links.UidHost and Links.UidWithoutScheme) |
| Links.Uid | index.php:197-202 | `uid($id, $url)` with the server name as a parameter (properties in the next three rows) |
| Links.UidForm | index.php:197-202 | the UID is the id, then `@`, then the server name when no base URL is set |
| Links.UidHost | index.php:198-199 | for an `http(s)://host[/path]` URL on one line, the UID is the id, `@` and the host |
| Links.UidWithoutScheme | index.php:198-199 | a URL that contains no `://` is used whole after the `@` |
| Events.Summary | index.php:133 | the SUMMARY value: the event menu and `: ` before the subject when the menu is not empty (property in Events.BlockSummary) |
| Events.AttendeesLineAsWritten | index.php:139-141 | the attendee line as the source builds it, with the comparison `count > 20` as the overflow count (properties in Events.AttendeesAll and Events.AttendeesCountQuirk) |
| Events.AttendeesLine | index.php:139-141 | the attendee line with the overflow count meant, the number of names left out (properties in Events.AttendeesAll and Events.AttendeesTruncated) |
| Events.Description | index.php:134-142 | the DESCRIPTION value as the source builds it, with the as-written attendee line (properties in Events.DescriptionLayout and Events.DescriptionQuirk) |
| Events.DescriptionIntended | index.php:134-142 | the DESCRIPTION value with the corrected attendee line (properties in Events.DescriptionIntendedLayout) |
| Events.Location | index.php:143-145 | the LOCATION value: `""` without facilities, else the facility names joined with `, ` (property in Events.BlockLocation) |
| Events.Entries | index.php:124-148 | the thirteen-element array literal of one event, each element literal text or a property passed through `field` (properties in the Events.Block rows) |
| Events.EventLines | index.php:120-151 | the blocks of the events, one after another: the loop's specification (properties in Events.EventLinesBlocks) |
| Events.Block | index.php:124-148 | one event's block has exactly thirteen entries |
| Events.RenderAllIndex | index.php:124-148 | entry k of the block is entry k of the array literal passed through `field` or kept as text |
| Events.ToICalEvents | index.php:120-151 | the `array_merge` loop returns the blocks of the events, one after another |
| Events.EventLinesBlocks | index.php:123-149 | the events' lines are thirteen per event, and entries 13k to 13k+12 are the block of event k, in input order |
| Events.BlockFrame | index.php:125-147 | each block opens with `BEGIN:VEVENT` and closes with `END:VEVENT` |
| Events.BlockUid | index.php:126 | the UID property is always present |
| Events.BlockOrganizer | index.php:127 | ORGANIZER is omitted exactly when the creator code is empty; otherwise it starts with `ORGANIZER;CN=` |
| Events.BlockStamps | index.php:128-129 | CREATED and LAST-MODIFIED are in the UTC `Z` form of the creation and update times |
| Events.BlockStart | index.php:130 | DTSTART is the time field of the start time in the start's zone |
| Events.BlockEnd | index.php:131 | DTEND is the time field of the end time in the end's zone |
| Events.BlockClass | index.php:132 | the eighth entry is `CLASS:PRIVATE` |
| Events.BlockSummary | index.php:133 | SUMMARY is omitted exactly when both the event menu and the subject are empty; otherwise it starts with `SUMMARY:` |
| Events.BlockDescription | index.php:134-142 | the DESCRIPTION property is always present |
| Events.DescriptionLayout | index.php:134-142 | the description is the trimmed notes and a LF unless they are empty, then `- - -`, the Created-by line, the Updated-by line and the attendee line as written, separated by LF |
| Events.DescriptionIntendedLayout | index.php:134-142 | the intended description has the same layout with the corrected attendee line |
| Events.DescriptionQuirk | index.php:141 | the description as written equals the intended one exactly when there are at most 21 attendees |
| Events.BlockLocation | index.php:143-145 | LOCATION is omitted exactly when there is no facility, or the only one has an empty name; otherwise it starts with `LOCATION:` |
| Events.BlockUrl | index.php:146 | URL is omitted exactly when no base URL is set; otherwise it starts with `URL:` |
| Events.AttendeesAll | index.php:139-141 | up to twenty attendees are all listed, joined with `, `, with no overflow note, and the line as written equals the corrected one |
| Events.AttendeesTruncated | index.php:139-141 | with more than twenty attendees, the first twenty are listed and the note gives the number left out (corrected count) |
| Events.AttendeesCountQuirk | index.php:141 | the attendee line as written equals the corrected one exactly when there are at most 21 attendees; with more than twenty it always says `...more 1 attendees` |
| Events.OverflowCount | index.php:141 | writing `1` in place of the overflow count is right only when the count is one |
| Calendar.CalendarLines | index.php:92-116 | `array_filter(array_merge($header, toICalEvents(...), ['END:VCALENDAR']))`, with a missing event list read as no events (properties in the next rows) |
| Calendar.ToICal | index.php:91-118 | `toICal($json, $baseURL)`: the calendar lines joined with CRLF and one more CRLF (properties in the next rows) |
| Calendar.CalendarLinesLayout | index.php:92-116 | the calendar's lines are the seventeen header lines, the non-empty event lines and `END:VCALENDAR`: the filter never removes a header or footer line |
| Calendar.ToICalLayout | index.php:117 | the text is every calendar line followed by CRLF, with the header first and `END:VCALENDAR` and CRLF last |
| Calendar.JoinTerminated | index.php:117 | joining with CRLF and appending one CRLF ends every line with CRLF |
| Calendar.EmptyCalendar | index.php:112-117 | `$json['events'] ?: []`: a missing event list gives the same text as an empty one; without events the text is the header and `END:VCALENDAR`, each line ended by CRLF |
| Calendar.CalendarNoBlankLines | index.php:92 | no line of the calendar is empty or `0` |
| Calendar.CountNonEmpty | index.php:92 | dropping empty entries does not change how often a non-empty line occurs |
| Calendar.BlockMarkers | index.php:124-148 | every block holds `BEGIN:VEVENT` once and `END:VEVENT` once |
| Calendar.VEventCount | index.php:91-118 | the calendar has as many `BEGIN:VEVENT` lines, and as many `END:VEVENT` lines, as there are events |
| NameCheck.NameAcceptedAsWritten | index.php:18-22 | the name is taken as written: not `""` and matching the one-character pattern |
| NameCheck.NameAccepted | index.php:18-22 | the name is taken as intended: not `""` and made of `[a-z0-9-]` characters |
| NameCheck.NameCheckQuirk | index.php:18-22 | as written, the check accepts exactly the names of one character from `[a-z0-9-]` |
| NameCheck.NameCheckCounterexample | index.php:22 | `team-standup` is a name the intended check accepts and the check as written refuses |
| NameCheck.NameAcceptedStaysInDirectory | index.php:46 | a name the intended check accepts has no `/` and no `.`, so the file `dir/name.json` lies directly inside the data directory |

## Left out

- HTTP handling in `run` (index.php:5-89) is not modelled, except for the name check. That covers `$_GET`, `$_SERVER['REQUEST_METHOD']`, status codes, headers, `die` and `exit`. It is I/O.
- File access (`file_exists`, `file_get_contents`, `file_put_contents`) is not modelled. It is I/O.
- `openssl_encrypt` and `openssl_decrypt` are not modelled. They are foreign cryptographic calls.
- `json_decode` is not modelled. Events arrive as records. A JSON value of the wrong type, such as a number or an array where a string belongs, is not modelled.
- The attendee and facility lists are modelled as their `name` fields, which is all that `array_map` takes from them.
- Only string fields read a null or missing value as `""`. A missing or null `attendees` list makes `count` and `array_slice` fail at index.php:141; the model always has a list, so that failure is not modelled. A missing `facilities` list is `empty` and gives no LOCATION, as the empty list does.
- `DateTime` and `DateTimeZone` conversion is left out. The `Ymd\THis` text of a time in a zone is the parameter `Site.localTime`.
- Exceptions from an invalid time or zone are not modelled.
- In the TZID form, the zone is written as it was given. The model does not model `DateTimeZone::getName` or its fallback.
- `$_SERVER['SERVER_NAME']` is the parameter `Site.serverName`.
- `preg_replace` is modelled for its one pattern only, not as a regular-expression engine.
- `mb_str_split` is modelled on code points. Invalid UTF-8 input is not modelled.
- `mb_internal_encoding` is configuration and is not modelled.
- Fields.TimeFieldForm: for a zone that is set and not `UTC`, it states only the field name and that no colon follows it directly. It does not state the zone text.
- Links.EventUrlForm: states the link's start and end, not the fixed `/schedule/view?event=` between them.
- Links.UidHost: covers only a URL that is a scheme, a host and an optional path on one line. Other URLs, with several matches or with a LF, are described only by `ReplaceHost`'s definition.
- `index.php` has none of the following, so the model has none of them either:
  - VALARM blocks;
  - skip keywords;
  - `isStartOnly`;
  - DTSTAMP;
  - a `bdate` URL suffix;
  - a `grn.ev.` UID prefix;
  - an attendee cap that can be configured: the cap is fixed at 20.
  - an encrypted store with owner checks.

## Findings

| source | as written | input that shows it | evidently intended | confidence | as-written member | corrected member |
|---|---|---|---|---|---|---|
| index.php:141 | the overflow count is `(count($ev['attendees']) > $maxAttendees)`, a boolean that becomes `"1"` | 25 attendees: the line ends `, ...more 1 attendees` where 5 were left out | the number of names left out, `count - 20` | high; not executed | Events.AttendeesLineAsWritten, shown by Events.AttendeesCountQuirk | Events.AttendeesLine, proved by Events.AttendeesTruncated, in Events.DescriptionIntended (Events.DescriptionQuirk); the renderer keeps the line as written |
| index.php:22 | the pattern `/\A[a-z0-9\-]\z/` has no quantifier, so it matches one character only | the name `team-standup` is refused | `/\A[a-z0-9\-]+\z/` | high; not executed | NameCheck.NameAcceptedAsWritten, shown by NameCheck.NameCheckCounterexample | NameCheck.NameAccepted, proved by NameCheck.NameAcceptedStaysInDirectory |
