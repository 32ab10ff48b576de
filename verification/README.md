# ZKTeco attendance gateway — a Dafny model

The gateway takes attendance punches from ZKTeco clocks and delivers them to a
cloud API. It works in four stages:

1. **The push server** (`handle_client` in ft-zktco.py and FT-ZK.py) answers the
   clocks' HTTP polls. A clock's first poll on each port gets one
   `DATA QUERY ATTLOG` command, numbered by a shared counter that starts at 1000.
   Uploads are cut out of the raw request and queued.
2. **The log writer** (`write_to_file`) turns each queued upload into JSON entries
   in attlog.json. Each entry is stamped with the device serial and a
   millisecond log stamp, and an entry that is already there is not added
   again. `clean_attlog_file` drops entries older than one month.
3. **The loaders** copy attlog.json into the `attendance` table of SQLite:
   - `process_attlog_file` skips punches already in the table;
   - `Dbcon` keeps a cursor `Rec Count` in Settings.json instead.
4. **The posters** send each row that has no `RESPONSE` yet to the API and
   store the receipt:
   - `post_records` does this in one pass;
   - `PostScript` remembers the last row it stored in `last_processed_id`.

Two helpers sit beside these stages:
- `AttLogParser` reduces attlog.json lines to unique (zkid, timestamp, attype)
  keys in sanatise.json;
- logger_setup.py drops a log message that repeats the previous one and
  empties server.log when it reaches 1 GiB.

The model is split into modules:

| module | file | models |
|---|---|---|
| `Text` | text.dfy | the Python `str` operations the core relies on: `split()`, `strip()`, `splitlines()`, `find`, slicing, `int()`, `str(int)`, UTF-8 length, `upper()` |
| `Stamp` | stamp.dfy | `strptime`/`strftime` of `%Y-%m-%d %H:%M:%S`, the millisecond log stamp, one day and one month back |
| `Protocol` | protocol.dfy | `extract_attlog`, `extract_sn`, `split_attlog_records`, `parse_log_entry` |
| `Gateway` | gateway.dfy | `handle_client` and the per-port "command sent" flags, as the class `Gateway` over a pure `Serve` |
| `Journal` | journal.dfy | `write_to_file` and `clean_attlog_file` |
| `Store` | store.dfy | the `attendance` table (class `Table`), `process_attlog_file` and `post_records` of ft-zktco.py |
| `Cursor` | cursor.dfy | `Dbcon.process_attlog_file` (class `Dbcon`) |
| `Poster` | poster.dfy | `PostScript` (class `PostScript`) |
| `LineDedup` | attlog_parser.dfy | `AttLogParser` (class `AttLogParser`) |
| `LogSetup` | logger.dfy | `DeduplicationFilter` and the log-size cap |

The pattern is the same throughout:
- Each loop that changes state is a method.
- That method's postcondition ties the new state to a specification function of
  the old state: a fold over the input, written from its end.
- The properties the code promises are proved as lemmas about that function.

ft-zktco.py and FT-ZK.py share their protocol, writer, loader and poster code,
and the two copies behave identically (FT-ZK.py builds the `col` keys of
`parse_log_entry` in a loop where ft-zktco.py uses expressions). One model
serves both, and the table cites ft-zktco.py. The
copies in FT-ZK.py are `parse_log_entry` (lines 107-119), `write_to_file`
(lines 121-152), `handle_client` (lines 154-274), `process_attlog_file`
(lines 350-388) and `post_records` (lines 406-474).

## Model

| member | source | states |
|---|---|---|
| `Protocol.ExtractAttlog` | ft-zktco.py:209-219 | a payload is found only when the request has a `Content-Length:` header; a non-empty payload has no surrounding whitespace |
| `Protocol.ExtractAttlogWellFormed` | ft-zktco.py:209-219 | when the header line holds a valid integer `n`, the payload is the first `n` characters after that line, stripped |
| `Protocol.ExtractAttlogNeedsHeader` | ft-zktco.py:210-211 | without `Content-Length:` there is no payload |
| `Protocol.ExtractAttlogBadLength` | ft-zktco.py:214-217 | a header value that `int()` rejects gives no payload |
| `Protocol.ExtractSn` | ft-zktco.py:221-223 | there is no serial iff no `SN=` is followed by a serial character; otherwise the serial is the longest non-empty run of characters other than `&` and whitespace after the first such `SN=` |
| `Protocol.SplitAttlogRecords` | ft-zktco.py:225-226 | every record is stripped, non-empty and free of line breaks |
| `Protocol.SplitAttlogRecordsSingle` | ft-zktco.py:225-226 | a trimmed line without line breaks splits into itself |
| `Protocol.NonBlankStrippedShape` | ft-zktco.py:226 | the records of any lines are stripped and non-empty, and free of line breaks when the lines are |
| `Protocol.NonBlankStrippedMembers` | ft-zktco.py:226 | a string is a record iff it is non-empty and is the stripped form of one of the lines |
| `Protocol.SplitAttlogRecordsLines` | ft-zktco.py:225-226 | the records of a payload are the stripped non-blank lines of the stripped payload, in line order (the records of the first k lines come before those of the rest, for every k), and a string is a record iff it is such a line |
| `Protocol.ParseLogEntry` | ft-zktco.py:228-236 | a line with fewer than five whitespace tokens gives no entry; otherwise the entry is built from the tokens |
| `Protocol.EntryOf` | ft-zktco.py:230-236 | the entry's keys are exactly ZKID, timestamp, inorout, attype and `col1..colk` for the k extra tokens; timestamp is tokens 1 and 2 joined by a space |
| `Protocol.AttlogLineRoundTrip` | ft-zktco.py:228-236 | a tab-separated line of at least five non-blank fields parses back to the entry of those fields |
| `Protocol.SplitJoin` | ft-zktco.py:229 | `split()` recovers the tokens joined with a whitespace separator |
| `Protocol.ColKeyInjective` | ft-zktco.py:235 | distinct extra tokens get distinct `col` keys |
| `Protocol.ColumnsAt` | ft-zktco.py:235 | the key `col<i>` maps to the i-th extra token, counting from 1 |
| `Protocol.ColumnsKeys` | ft-zktco.py:235 | the `col` keys are exactly `col1` to `col<n>` for n extra tokens |
| `Text.Split` | ft-zktco.py:229 | `split()` gives non-empty tokens without whitespace |
| `Text.SplitOnJoin` | attlog_parser.py:66 | `split(sep)` loses nothing: joining the pieces with `sep` gives the line back |
| `Text.SplitLines` | ft-zktco.py:226 | `splitlines()` gives no lines for an empty string and lines without line boundaries otherwise |
| `Text.SplitLinesSingle` | ft-zktco.py:226 | a non-empty string without line boundaries is one line |
| `Text.StripShape` | ft-zktco.py:219 | `strip()` returns the piece between the leading and trailing whitespace, and that piece has no whitespace at its ends |
| `Text.StripIdentity` | ft-zktco.py:226 | a string without whitespace at its ends is left alone by `strip()` |
| `Text.Find` | ft-zktco.py:210-213 | `find` from a start index gives the first occurrence at or after the clamped start, or -1 when there is none |
| `Text.FindAt` | ft-zktco.py:210-213 | `find` returns the index of the first occurrence past the start |
| `Text.IntRoundTrip` | Dbcon.py:98-99 | `int(str(n)) == n` for every integer |
| `Text.ParseIntOfDigits` | ft-zktco.py:215 | `int()` reads a run of digits with an optional minus sign as its decimal value |
| `Text.NatToStringInjective` | Dbcon.py:98-99 | distinct numbers print differently |
| `Text.Utf8LengthConcat` | ft-zktco.py:299-301 | the UTF-8 length of a concatenation is the sum of the lengths |
| `Text.Utf8LengthAscii` | ft-zktco.py:299-301 | an ASCII body is as many bytes long as it has characters |
| `Text.Utf8LengthExact` | ft-zktco.py:299-301 | a body whose byte length equals its character count is ASCII |
| `Text.Slice` | Dbcon.py:50 | a slice is never longer than the sequence |
| `Text.SliceFrom` | Dbcon.py:50 | a slice from an index inside the sequence is the piece from that index, at most `j - i` long |
| `Gateway.RequestLine` | ft-zktco.py:267-276 | a request is answered only if it is non-empty and its first line has at least two tokens, which are the method and the target |
| `Gateway.RouteOf` | ft-zktco.py:282-347 | each route is characterised both ways by the method (compared case-insensitively), the path and the first `table`, `options` and `SN` query values (`""` for a missing key): a poll is a GET of `/iclock/getrequest` and carries whether `INFO` was queried; an upload is a POST of `/iclock/cdata` whose `table` is `ATTLOG` in any case; the options reply is a GET of `/iclock/cdata` with `options=all`, and it carries the `SN` value; a crash is a POST of `/iclock/cdata` whose `table` value list is empty, or a GET of `/iclock/cdata` whose `options` value list is empty or, with `options=all`, whose `SN` value list is; everything else falls back |
| `Gateway.Answer` | ft-zktco.py:282-347 | every routed reply announces the UTF-8 length of its body; a queued packet has a non-empty payload and serial; a command goes to an unmarked port and advances the counter by one while marking it; nothing else changes the state |
| `Gateway.PollAnswer` | ft-zktco.py:282-305 | a poll reply queues no packet; a command goes to an unmarked port, which it marks, and moves the counter by one; `OK` and a closed connection leave the state alone |
| `Gateway.ServeOfRoute` | ft-zktco.py:264-282 | a request whose first line routes is answered as that route prescribes |
| `Gateway.AnswerKeepsState` | ft-zktco.py:307-347 | an upload, options query or fallback leaves the counter and the flags unchanged |
| `Gateway.DeclaredLengthOfHeader` | ft-zktco.py:300-301 | the `Content-Length` in a reply header reads back as the length it was built with |
| `Gateway.OptionsBody` | ft-zktco.py:325-332 | the options reply begins with `GET OPTION FROM:` and the queried serial |
| `Gateway.Serve` | ft-zktco.py:264-350 | every reply announces the UTF-8 length of its body; a queued packet has a non-empty payload and serial; a `DATA QUERY` command goes only to a port not yet served and advances the counter by one while marking that port; any other outcome leaves the poll state unchanged |
| `Gateway.PollIssuesCommand` | ft-zktco.py:282-305 | the first poll without `INFO` on a port gets `C:<counter>:DATA QUERY ATTLOG` for yesterday to today, and the counter moves on |
| `Gateway.PollAnswersOk` | ft-zktco.py:287-298 | a poll with `INFO`, or a repeated poll on the port, gets `OK` and changes nothing |
| `Gateway.UploadQueuesPacket` | ft-zktco.py:307-322 | an upload is answered `OK`; a packet is queued exactly when a non-empty payload and a serial were found, and it holds them; the poll state is unchanged |
| `Gateway.ShortRequestCloses` | ft-zktco.py:268-275 | an empty request, or one whose first line has fewer than two tokens, is closed unanswered |
| `Gateway.FallbackAnswersOk` | ft-zktco.py:340-347 | any other request gets `OK` |
| `Gateway.OptionsAnswer` | ft-zktco.py:324-339 | an options query gets the options body for the queried serial |
| `Gateway.ContentLengthIsBodyLength` | ft-zktco.py:299-301 | the header of every reply declares exactly the body's UTF-8 length |
| `Gateway.CounterCountsCommands` | ft-zktco.py:293-296 | over any run of requests, the counter grows by exactly the number of commands sent |
| `Gateway.ServeCounter` | ft-zktco.py:293-296 | one connection moves the counter by one exactly when it is answered with a command |
| `Gateway.ServeKeepsFlags` | ft-zktco.py:289-298 | a marked port stays marked after any connection |
| `Gateway.ServeCommandPort` | ft-zktco.py:289-298 | a command is sent only to a port that was unmarked, and marks it |
| `Gateway.OthersAreNotCommands` | ft-zktco.py:313-345 | `OK` and the options reply are never taken for a command |
| `Gateway.RunKeepsFlags` | ft-zktco.py:289-298 | once a port is marked it stays marked, and it is sent no further command |
| `Gateway.OneCommandPerPort` | ft-zktco.py:289-298 | between two resets, each port receives at most one `DATA QUERY` command |
| `Gateway.Gateway.constructor` | ft-zktco.py:34-37 | the counter starts at 1000 and no port is marked |
| `Gateway.Gateway.ResetCycle` | ft-zktco.py:369-374 | the listed ports are unmarked, other ports and the counter are untouched |
| `Gateway.Gateway.HandleClient` | ft-zktco.py:264-350 | the outcome and the new counter and flags are those of `Serve` on the old state |
| `Gateway.Gateway.AnswerPoll` | ft-zktco.py:282-305 | the poll reply and the new counter and flags are those of `PollAnswer` on the old state |
| `Journal.Tagged` | ft-zktco.py:257-258 | a tagged entry keeps every parsed key and adds `SN` and `log_timestamp` |
| `Journal.Offer` | ft-zktco.py:255-258 | a line offers one entry exactly when `parse_log_entry` accepts it |
| `Journal.OfferIncluded` | ft-zktco.py:254-259 | what any single line offers is among the packet's candidates |
| `Journal.AppendNew` | ft-zktco.py:254-259 | the loop over the records leaves exactly the merge of the loaded list with the candidates of the parsed lines |
| `Journal.Merge` | ft-zktco.py:259 | appending keeps the old entries in order and adds at most one entry per offered record |
| `Journal.MergeMembers` | ft-zktco.py:259 | an entry ends up in the file iff it was there or was offered |
| `Journal.WriteToFile` | ft-zktco.py:238-262 | the written list is the merge of the loaded list with the packet's tagged entries |
| `Journal.UnreadableFileReplaced` | ft-zktco.py:245-252 | a file that is missing, undecodable or not a list is overwritten by the new entries alone, without duplicates, each offered entry present and nothing else |
| `Journal.MergeNoDuplicates` | ft-zktco.py:259 | a file without duplicates stays without duplicates |
| `Journal.MergeIdempotent` | ft-zktco.py:259 | writing the same entries twice adds nothing the second time |
| `Journal.MergeNothingNew` | ft-zktco.py:259 | entries that are all present already change nothing |
| `Journal.CandidateOfLine` | ft-zktco.py:254-259 | every line that parses contributes its tagged entry |
| `Journal.CandidatesTagged` | ft-zktco.py:257-258 | every written entry carries the packet's serial, a log stamp and a ZKID |
| `Journal.OffersTagged` | ft-zktco.py:257-258 | every candidate of lines whose entries have a ZKID carries the serial, a log stamp and the ZKID |
| `Journal.NoOffers` | ft-zktco.py:255-256 | lines of which none parses offer nothing |
| `Journal.CandidatesOfUnparsed` | ft-zktco.py:255-256 | lines that do not parse contribute nothing |
| `Journal.ResentPunchAppended` | ft-zktco.py:258-259 | a punch uploaded again under a new log stamp is appended again, so the duplicate check never catches a resend |
| `Journal.MonthBefore` | ft-zktco.py:184 | one month back is a valid, strictly earlier instant at the same time of day, on a day no later than today's; it does not exist only in January of year 1, where `datetime` raises |
| `Journal.EarlierMonth` | ft-zktco.py:184 | an instant in a later month is strictly later |
| `Journal.Retain` | ft-zktco.py:186-190 | the kept records are exactly the records whose stamp reads at or after the threshold |
| `Journal.RetainMembers` | ft-zktco.py:186-190 | a record is kept iff it was in the file and its stamp reads at or after the threshold |
| `Journal.RetainIdempotent` | ft-zktco.py:186-190 | cleaning twice keeps what cleaning once keeps |
| `Journal.RetainConcat` | ft-zktco.py:186-190 | the filter works record by record, so it distributes over concatenation |
| `Journal.RetainAllKept` | ft-zktco.py:186-190 | a file of recent records is written back unchanged |
| `Journal.Sweep` | ft-zktco.py:172-195 | a file is rewritten only if it exists; it is rewritten with the kept records; when nothing is written from an existing file, some record's malformed stamp raised |
| `Journal.CleanAttlogFile` | ft-zktco.py:172-195 | the method writes exactly what `Sweep` prescribes |
| `Journal.StampedRecordKept` | ft-zktco.py:188-190 | an entry stamped by the writer at or after the threshold survives cleaning and never raises |
| `Journal.SpoiledSweep` | ft-zktco.py:188 | a record whose stamp cannot be parsed makes the whole cleaning fail |
| `Stamp.ParseStamp` | Dbcon.py:82 | an accepted stamp is exactly 19 characters and names a valid calendar instant |
| `Stamp.StampRoundTrip` | Dbcon.py:82 | formatting then parsing with the same non-digit separator gives the instant back for four-digit years |
| `Stamp.ReformatChangesOnlySeparators` | Dbcon.py:82 | re-formatting a parsed stamp with another separator changes only the two date separators |
| `Stamp.LogStampRoundTrip` | ft-zktco.py:200-203 | reading back the writer's log stamp gives the clock truncated to milliseconds |
| `Stamp.ReadLogStamp` | ft-zktco.py:187-189 | a missing or empty stamp, or one without `:`, is not read; a stamp that is read is a valid instant on a whole millisecond |
| `Stamp.ReadParts` | ft-zktco.py:188-189 | a log stamp reads iff its date part parses and its millisecond part is an integer from 0 to 999, and what it reads is valid on a whole millisecond |
| `Stamp.WithMillis` | ft-zktco.py:188 | setting the microseconds from a millisecond count keeps the instant valid and on a whole millisecond |
| `Stamp.FormatStampFields` | Dbcon.py:82 | the formatted stamp has the shape `%Y?%m?%d %H:%M:%S` and each two-digit field holds the instant's field |
| `Stamp.PreviousDayInverse` | ft-zktco.py:286 | yesterday's next day is today |
| `Stamp.PreviousDay` | ft-zktco.py:286 | yesterday is a valid date |
| `Stamp.PreviousDayEarlier` | ft-zktco.py:286 | yesterday is strictly earlier than today |
| `Stamp.NextDay` | ft-zktco.py:286 | the day after a valid day other than 31 December 9999 is valid |
| `Stamp.Pad3Value` | ft-zktco.py:202-203 | the three-digit millisecond field reads back as its value |
| `Store.Table.Insert` | ft-zktco.py:73-98 | an INSERT appends one row with the next id and keeps ids increasing |
| `Store.Table.Update` | ft-zktco.py:491-495 | an UPDATE by id changes only that row's cells and keeps every id |
| `Store.SetWhereId` | ft-zktco.py:491-495 | only the row with the given id changes, and only in the set columns |
| `Store.InsertedCells` | ft-zktco.py:412-428 | an inserted row holds the entry's ZKID and timestamp and has no RESPONSE |
| `Store.Load` | ft-zktco.py:398-432 | loading only appends, with consecutive ids from the next free id |
| `Store.LoadNeverDuplicates` | ft-zktco.py:394-396 | no two appended rows, and no appended row and an earlier row, share a (ZKID, Timestamp) key |
| `Store.LoadCovers` | ft-zktco.py:406-429 | every record with a ZKID and a timestamp is in the table afterwards |
| `Store.LoadFrom` | ft-zktco.py:406-429 | every appended row holds the inserted cells of a record of the file that has a ZKID and a timestamp |
| `Store.LoadIdempotent` | ft-zktco.py:394-429 | loading the same file again adds no row |
| `Store.LoadKeepsIds` | ft-zktco.py:73-98 | loading keeps every id below the next free id |
| `Store.LoadNothingNew` | ft-zktco.py:394-429 | a file whose every loadable record is already present adds no row and keeps the next id |
| `Store.RestampedPunchLoadsOnce` | ft-zktco.py:394-429 | a new punch that the writer appended twice under two log stamps adds a single row |
| `Store.ProcessAttlogFile` | ft-zktco.py:398-432 | a decodable list is loaded as `Load` prescribes; anything else leaves the table unchanged |
| `Store.Rewrite` | ft-zktco.py:464-470 | a value changes only if it is a text in `%Y-%m-%d %H:%M:%S` form, and then it becomes the same instant in `%Y/%m/%d %H:%M:%S` form |
| `Store.RewriteOnlySeparators` | ft-zktco.py:464-470 | for four-digit years the rewrite replaces just the two date separators |
| `Store.Payload` | ft-zktco.py:462-470 | the posted keys are the row's columns minus the excluded ones, each rewritten |
| `Store.PostRecords` | ft-zktco.py:450-518 | the table and the posted payloads are those of the specification pass over the rows; `Store.PostRowOutcome` and `Store.SentMembers` say what that pass does to each row |
| `Store.HaltedStaysHalted` | ft-zktco.py:485-487 | once the pass crashes on a reply it posts and stores nothing more |
| `Store.PostStep` | ft-zktco.py:457-518 | one row keeps every id; a crashed pass or a row that already has a RESPONSE changes nothing; otherwise the row's payload is posted, an accepted reply stores its receipt (RESPONSE, KEY and FTID from its status, key and id) in that row, any reply that is not accepted leaves the table alone, and the pass crashes exactly on a fatal reply |
| `Store.PostOne` | ft-zktco.py:457-518 | one iteration of the loop leaves the table, the payloads and the crash flag as `PostStep` prescribes |
| `Store.PostPass` | ft-zktco.py:450-518 | the pass keeps the table's length and posts at most one payload per row |
| `Store.PassIds` | ft-zktco.py:491-495 | the pass keeps every row's id |
| `Store.RowOutcomeAll` | ft-zktco.py:457-512 | after the first n rows of the pass, row k holds its old cells plus its receipt if k < n, the pass had not crashed before it, it had no RESPONSE and its reply was accepted, and holds exactly its old cells otherwise |
| `Store.PostRowOutcome` | ft-zktco.py:457-512 | both directions: a row reached before any crash, without a RESPONSE, whose reply is accepted gets exactly its receipt added; every other row is unchanged |
| `Store.SentMembers` | ft-zktco.py:457-478 | a payload is posted by the first n rows iff it is the payload of one of them reached before any crash and without a RESPONSE |
| `Store.SentGrows` | ft-zktco.py:457-478 | the payloads of a shorter pass are a prefix of those of a longer one, so they are posted in row order |
| `Store.ReceiptOnce` | ft-zktco.py:457-461 | a row's cells are untouched until the pass reaches it |
| `Store.PayloadsExclude` | ft-zktco.py:462-463 | no payload carries an id, FTID, RESPONSE, KEY, col or log_timestamp field |
| `Cursor.EntryCells` | Dbcon.py:78-94 | an entry is inserted iff it has the six required keys and its timestamp parses as `%Y/%m/%d %H:%M:%S`; it is stored re-formatted with dashes |
| `Cursor.ConvertedOf` | Dbcon.py:78-94 | every convertible entry whose INSERT succeeds is in the batch, whatever happens to the others |
| `Cursor.ConvertedFrom` | Dbcon.py:78-94 | every inserted row is the cells of an entry of the batch that converts and whose INSERT succeeds |
| `Cursor.ConvertedPrefix` | Dbcon.py:78-94 | the rows of the first entries of a batch come first, in entry order |
| `Cursor.ConvertedNone` | Dbcon.py:78-94 | a batch of which no entry converts inserts nothing |
| `Cursor.Converted` | Dbcon.py:78-94 | a batch inserts at most one row per entry |
| `Cursor.Appended` | Dbcon.py:87-94 | the inserted rows follow the old ones with consecutive ids |
| `Cursor.NewEntries` | Dbcon.py:50 | the new entries are the log from the cursor on; a negative cursor counts from the end, and one below minus the length starts at the beginning |
| `Cursor.CursorAdvance` | Dbcon.py:46-50 | the cursor never moves back and never past the log, and from a non-negative cursor it lands at the end |
| `Cursor.SavedCursorReadsBack` | Dbcon.py:98-99 | the cursor saved as a string reads back as the same integer |
| `Cursor.StoredTimestamp` | Dbcon.py:82 | the stored timestamp differs from the logged one only in its date separators |
| `Cursor.InsertBatch` | Dbcon.py:78-94 | the loop appends exactly the converted entries whose INSERT succeeds |
| `Cursor.InsertEntry` | Dbcon.py:78-94 | one iteration appends the entry's row exactly when it converts and its INSERT succeeds |
| `Cursor.Dbcon.constructor` | Dbcon.py:28-32 | the cursor is the saved Rec Count |
| `Cursor.Dbcon.ProcessAttlogFile` | Dbcon.py:34-105 | an unreadable or empty log, a cursor at the end, or a failed connect, CREATE or commit changes neither the table nor the cursor; otherwise the batch is appended, and the cursor moves past all new entries, skipped ones included, and is saved |
| `Poster.Fetch` | Post.py:30-41 | the fetched rows are exactly the rows past the mark that have no RESPONSE |
| `Poster.FetchIncreasing` | Post.py:34 | the fetched rows come in increasing id order |
| `Poster.React` | Post.py:63-93 | a reply is stored exactly when it is a 200 whose first element has status, key and id; any other 200 crashes the loop; everything else is ignored |
| `Poster.Step` | Post.py:49-93 | one fetched row is posted and only that row can change; a stored reply sets exactly its receipt in the row with that id, an ignored reply or a crashed pass changes neither the table nor the mark, and the pass crashes exactly on a crashing reply; as written a stored reply moves the mark to the row's id, corrected only when no earlier row of the pass was left without a RESPONSE and this one now has one |
| `Poster.AsWrittenStrandsFailedRow` | Post.py:89 | as written, a failed post followed by a stored one moves the mark past the failed row, which is never fetched again |
| `Poster.CorrectedKeepsCovered` | Post.py:89 | with the corrected mark, every row at or below the mark has a RESPONSE after a pass, and the mark never moves back |
| `Poster.CorrectedStepKeeps` | Post.py:49-93 | one fetched row of the corrected pass keeps the answered prefix covered, the mark between the old mark and the ids reached, and untouched the rows not yet reached |
| `Poster.PassInvariantHolds` | Post.py:49-93 | the corrected pass keeps that invariant over any prefix of the fetched rows |
| `Poster.HaltedRunStops` | Post.py:75-85 | once the pass has crashed the remaining rows change nothing |
| `Poster.RunKeepsRow` | Post.py:49-93 | a row that none of the posted records has the id of is left alone |
| `Poster.RunStoresReceipt` | Post.py:49-93 | after the pass a fetched row holds exactly its receipt added when its reply was stored before any crash, and its old cells otherwise |
| `Poster.PostScript.constructor` | Post.py:23-28 | `last_processed_id` starts at 0 |
| `Poster.PostScript.FetchNewRecords` | Post.py:30-41 | the rows past the mark without RESPONSE, or none after a database error |
| `Poster.PostScript.PostAndUpdateRecords` | Post.py:43-95 | one pass over the fetched rows leaves the table, the posted payloads and the mark as the corrected specification pass does |
| `Poster.PostRecord` | Post.py:49-93 | one iteration leaves the table, the payloads, the mark and the flags as the corrected `Step` prescribes |
| `Poster.PostFetched` | Post.py:43-95 | the loop over the fetched rows ends in the corrected specification pass; `Poster.RunStoresReceipt` says what that pass does to each row |
| `LineDedup.LineKey` | attlog_parser.py:64-73 | a line is skipped iff it lacks `attlog` or a second tab field; a key has field 1 as timestamp, a non-blank zkid, and no attype exactly when there are two fields |
| `LineDedup.LineKeyOfFields` | attlog_parser.py:64-73 | a line of three tab-separated fields that mentions `attlog` yields the key of those fields |
| `LineDedup.KeyOfFields` | attlog_parser.py:66-73 | fewer than two tab fields is skipped; a key has field 1 as timestamp, a non-blank zkid without whitespace, and an attype exactly when there is a third field |
| `LineDedup.KeyOfFieldsWords` | attlog_parser.py:69-71 | a key raises iff there are at least two fields and field 0, or field 2 when present, is blank; otherwise zkid is the first word of field 0 and attype the first word of field 2, or null without one |
| `LineDedup.LineKeyWords` | attlog_parser.py:64-71 | the same for a whole line: raising iff it mentions `attlog` with a blank first word in field 0 or 2, and zkid and attype are the first words of the tab fields 0 and 2 |
| `LineDedup.SplitOnThree` | attlog_parser.py:66 | three fields without tabs joined by tabs split back into those fields |
| `LineDedup.ScanSeen` | attlog_parser.py:73-80 | the known keys afterwards are the old ones plus the emitted ones, and no emitted key was known before |
| `LineDedup.ScanDistinct` | attlog_parser.py:73-80 | no key is emitted twice |
| `LineDedup.ScanCovers` | attlog_parser.py:64-80 | after a scan that does not raise, every key in the text is known |
| `LineDedup.ScanAgain` | attlog_parser.py:60-84 | parsing the same text again emits nothing |
| `LineDedup.ScanNothingNew` | attlog_parser.py:64-80 | text whose keys are all known and that raises nothing emits nothing |
| `LineDedup.ScanFailedStays` | attlog_parser.py:69-71 | a line that raises ends the scan |
| `LineDedup.AttLogParser.constructor` | attlog_parser.py:9-25 | the known keys are those of sanatise.json, or none without it; the position starts at 0 |
| `LineDedup.AttLogParser.ParseAndWrite` | attlog_parser.py:60-95 | the known keys become those of the scan; the new keys are appended to sanatise.json in order unless a line raised |
| `LineDedup.AttLogParser.ScanText` | attlog_parser.py:61-80 | the loop emits exactly the scan's new keys and keeps sanatise.json untouched |
| `LineDedup.AttLogParser.ScanLine` | attlog_parser.py:64-80 | one line advances the scan as the specification prescribes, keeps sanatise.json and the position, and only adds known keys |
| `LineDedup.AttLogParser.ProcessExistingAttlog` | attlog_parser.py:36-45 | a missing attlog.json changes nothing; otherwise its whole text is parsed |
| `LineDedup.AttLogParser.CheckForNewContent` | attlog_parser.py:47-58 | the position moves to the end of the file and never back; only text past the old position is parsed |
| `LogSetup.SizeAfterSetup` | logger_setup.py:24-26 | a missing log stays missing; the log is emptied exactly when it has reached 1 GiB, so afterwards it is below the cap |
| `LogSetup.NoAdjacentRepeats` | logger_setup.py:13-18 | the messages that pass never hold the same message twice in a row |
| `LogSetup.SameMessages` | logger_setup.py:13-18 | every distinct message offered still passes at least once |
| `LogSetup.FirstPasses` | logger_setup.py:11-18 | the first message always passes |
| `LogSetup.NonAdjacentRepeatPasses` | logger_setup.py:13-18 | every message that differs from the one before it passes, right after what passed before it |
| `LogSetup.PassedPrefix` | logger_setup.py:13-18 | what passes from the first messages is a prefix of what passes from all of them |
| `LogSetup.FilterEach` | logger_setup.py:9-18 | feeding the messages one by one through a fresh filter lets through exactly `Passed` of them and leaves the last message as `last_log`, so the lemmas about `Passed` are about the filter |
| `LogSetup.DeduplicationFilter.constructor` | logger_setup.py:9-11 | no message has been seen |
| `LogSetup.DeduplicationFilter.Filter` | logger_setup.py:13-18 | a message passes iff it differs from the last one, and it becomes the last one |

## Left out

- Sockets, threads, the packet queue, locks, `sleep` and the endless polling loops are not modelled. Each handler, writer pass, loader pass and poster pass is one call, and a run is a sequence of calls.
- `urlparse`/`parse_qs` is a function parameter of `Gateway.Serve`. The clock, the `Date` header and the UTC+2 "today" are fields of the request.
- `recv` decoding with `errors='ignore'` and failures of `sendall` are not modelled; the request is a string and a reply is always delivered.
- `Text.IsDigit` and `Text.Upper` are ASCII only; Python's `int()`, `isdigit` and `upper()` also accept other Unicode digits and letters.
- `Stamp.ParseStamp` accepts only zero-padded two-digit fields and exactly one space between date and time; `strptime` also accepts one-digit fields, and the space in its format matches any run of whitespace. So `Store.Rewrite`, `Store.Payload` and `Cursor.EntryCells` leave alone a stamp such as `2024-01-01  08:00:00` (two spaces) that Python would re-format.
- JSON values are strings: entries are `map<string, string>`, so numbers, nulls and nested values in attlog.json are not modelled.
- SQLite column affinity (`InorOut INTEGER`) is not modelled: every value is stored as written.
- A `SELECT` without `ORDER BY` is taken to return rows in id order.
- An exception that kills a thread is modelled as the pass stopping (`halted`, `failed`) or, when nothing had changed yet, as nothing changing.
- `Cursor.Dbcon.ProcessAttlogFile`: a missing attlog.json makes `os.path.getsize` raise. It is modelled as nothing changing, like the empty file.
- `Cursor.Dbcon.ProcessAttlogFile`: a JSON object instead of a list would be sliced as a dict and raise; it is modelled as nothing changing.
- `Cursor.Dbcon.constructor` requires a Settings.json value that `int()` accepts. The source raises otherwise.
- `Poster.PostScript.PostAndUpdateRecords`: a failing UPDATE (`sqlite3.Error`) is not modelled separately from an ignored reply.
- `Store.PostStep`: a failing UPDATE (`sqlite3.Error`) in `post_records` leaves the row unchanged and the pass goes on; the model has no such fault, so it always stores the receipt of an accepted reply.
- A 200 reply whose body is not JSON makes `response.json()` raise `JSONDecodeError`, which `requests` 2.27 and later make a `RequestException`; both posters catch it and leave the row alone, so it is the `Failed` exchange. With older `requests` it would escape and stop the loop; that is not modelled. An exchange whose `first` is `None` is a JSON body without an element 0 (an empty list or an object), on which `[0]` raises and stops the loop.
- `Poster.PostScript.PostAndUpdateRecords` follows the corrected mark (see Findings); `Poster.Step` keeps the mark as written for the counterexample.
- `LineDedup.AttLogParser.CheckForNewContent` counts characters, where `seek`/`tell` use byte offsets. A file that shrinks below the position is read from the old position, which gives nothing.
- `LineDedup.AttLogParser.constructor` takes sanatise.json as already-decoded keys; a malformed file, which makes `json.load` or the key lookups raise, is not modelled.
- The staff and device tables (`refresh_staff_table`, `refresh_devices_table`), `log_posting_json_sql`, TcpServer.py, Cmd.py, Main.py and test.py are not part of this model.

## Findings

| source | as written | input that shows it | evidently intended | confidence | as-written member | corrected member |
|---|---|---|---|---|---|---|
| Post.py:89 | `last_processed_id` moves to the id of every stored row, also past earlier rows whose post failed, and the next fetch asks only for `id > last_processed_id` | rows 1 and 2 without RESPONSE; the post of row 1 fails and the post of row 2 is stored: the mark becomes 2 and row 1 is never fetched again while the script runs | the mark covers only rows that all have a RESPONSE, so a failed row is retried | not executed | `Poster.AsWrittenStrandsFailedRow` | `Poster.CorrectedKeepsCovered` |
