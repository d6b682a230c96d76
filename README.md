# CSV upload: a Dafny model

This project models the core of a small Express service. The service reads a CSV file of
users and stores the valid rows in a PostgreSQL table `public.users`. It then reports the age
distribution of the table. There are two core files:

- `src/utils/csvParser.js` holds the CSV line tokenizer `splitCsvLine` and the dotted-path
  writer `setNested`. It also holds the two drivers built on them:
  - `parseCsvToJson` works on a whole text;
  - `streamParseCsv` is an async generator over the lines of a file.
- `src/controllers/csvController.js` holds the `uploadCsv` handler. It pushes the yielded
  users into batches of 500 and writes each batch with one multi-row parameterised INSERT.
  After the last batch it reads every age back, counts the ages in four groups and answers
  with the count written and the percentage of each group.

The model follows the code module by module:

| module | file | models |
|---|---|---|
| `Wrappers` | wrappers.dfy | `Option` and `Result` |
| `Strings` | strings.dfy | the JavaScript `trim`, `split` with one separator, `join`, `parseInt(_, 10)` and the decimal printing of template literals |
| `Tokenizer` | tokenizer.dfy | `splitCsvLine`: the character loop as a method, proved equal to a scan function |
| `Nested` | nested.dfy | `setNested` over a tree of string-keyed objects |
| `Rows` | rows.dfy | the per-row work: the `headers.forEach` fill, quote stripping, destructuring, name and age checks, the normalised user |
| `Drivers` | drivers.dfy | `streamParseCsv` and `parseCsvToJson` |
| `Sql` | sql.dfy | the statement and parameter list `insertBatch` builds |
| `Store` | store.dfy | the users table behind the pool, as a class |
| `Loader` | loader.dfy | the batch accumulator: `insertBatch`, the loop body and the final flush, as a class |
| `Ages` | ages.dfy | the age groups and percentages |
| `Upload` | upload.dfy | `uploadCsv` end to end, and the choice of its response |

The loops in the source are methods with loop invariants. The one exception is the path walk
of `setNested`, which is modelled on values by the recursive `Nested.SetPath` (see "Left out").
Each loop method is proved equal to a function, and the lemmas are stated over those functions. State that the source changes in
place is held in classes:
- `Store.Database` holds the table and the list of statements sent;
- `Loader.BatchLoader` holds `batch`, `insertedCount` and `parsedAny`.

Each statement's outcome comes from the outside world. `Database` takes a function from the
statement's position in the run to success or failure, plus a flag saying whether the age
query succeeds. The file read is given as its list of lines plus a flag for a read error that
ends the stream.

The model keeps these behaviours of the code as written:
- The header line is the literal first line of the file, even when it is blank. A blank
  header line gives no usable headers, so nothing is yielded (`Drivers.BlankHeaderYieldsNothing`).
- A header path that runs through a non-empty string throws, because it assigns a property on
  a string primitive in strict module code. It does not overwrite. This holds when the path
  segments name own properties; segments naming inherited ones are listed under "Left out". Inside the stream the
  throw ends the whole stream with a failure.
- A name made of white space passes the name check and is stored as the empty name
  (`Rows.BlankNameAccepted`).
- No count of inserted rows is reported when the upload fails.

## Model

| member | source | states |
|---|---|---|
| Strings.Trim | src/utils/csvParser.js:33 | `String.prototype.trim`: the leading and the trailing run of JavaScript white space and line terminators removed; its meaning is stated by TrimStartShape, TrimEndShape and TrimEnds |
| Strings.ParseInt | src/utils/csvParser.js:87 | `parseInt(_, 10)`: leading white space, an optional sign and the longest run of decimal digits, or NaN when there is no digit; its meaning is stated by DigitRun, ParseIntDecimal, ParseIntNegated and Rows.NoNumber |
| Strings.TrimStartShape | src/utils/csvParser.js:33 | trimming the start removes exactly the leading run of white space and leaves a string that does not start with white space |
| Strings.TrimEndShape | src/utils/csvParser.js:33 | trimming the end removes exactly the trailing run of white space and leaves a string that does not end with white space |
| Strings.TrimEnds | src/utils/csvParser.js:33 | a trimmed string is empty or starts and ends with a character that is not white space |
| Strings.TrimIdempotent | src/utils/csvParser.js:61 | trimming twice is trimming once |
| Strings.TrimAppendSpace | src/utils/csvParser.js:131 | white space added at the end of a line disappears under trim |
| Strings.TrimStartOfSpace | src/utils/csvParser.js:65-66 | a line of white space trims to the empty string, so it is skipped |
| Strings.TrimStartAppend | src/utils/csvParser.js:33 | trimming the start of s + v only affects s when s is not all white space |
| Strings.TrimEndAppendSpace | src/utils/csvParser.js:33 | trimming the end of s plus white space gives the trimmed end of s |
| Strings.TrimOfTrimmedStart | src/utils/csvParser.js:58 | a string with no leading white space is its trimmed form followed by white space only |
| Strings.Split | src/utils/csvParser.js:41 | `split` with one separator gives at least one piece and no piece holds the separator |
| Strings.JoinSplit | src/utils/csvParser.js:41 | joining the pieces of a split with the separator gives the string back |
| Strings.SplitPrefix | src/utils/csvParser.js:41 | a separator-free prefix joins the first piece of the split of the rest |
| Strings.SplitJoin | src/utils/csvParser.js:41 | splitting a join of separator-free pieces gives the pieces back |
| Strings.DigitRun | src/utils/csvParser.js:87 | the digit run parseInt reads is the longest prefix of decimal digits |
| Strings.DecimalString | src/controllers/csvController.js:34 | the numeral printed for a placeholder number is non-empty and all digits |
| Strings.DecimalValue | src/controllers/csvController.js:34 | the printed numeral has the value of the number |
| Strings.ParseIntDecimal | src/utils/csvParser.js:87 | parseInt reads back exactly the number a template literal printed |
| Strings.ParseIntNegated | src/utils/csvParser.js:94 | a minus sign before a numeral gives the negative number, which the age check then rejects |
| Tokenizer.Scan | src/utils/csvParser.js:13-30 | the state of the character loop after a stretch of input: the fields pushed, the current field and the quoting flag; stated step by step by ScanToggle, ScanPair, ScanChar and ScanComma |
| Tokenizer.RawFields | src/utils/csvParser.js:8-32 | the fields of a line before trimming: the pushed fields and the last current field; stated by QuotedRoundTrip, PlainRoundTrip and FieldCount |
| Tokenizer.SplitFields | src/utils/csvParser.js:8-34 | splitCsvLine as a function: the raw fields, each trimmed; stated by FieldsAreTrimmed and TrimAllAt |
| Tokenizer.TrimAll | src/utils/csvParser.js:33 | trimming every field keeps the number of fields |
| Tokenizer.SplitCsvLine | src/utils/csvParser.js:8-34 | the character loop returns exactly the fields of the scan: a quote toggles quoting, a doubled quote inside quotes is one quote, an unquoted comma ends a field, and every field is trimmed |
| Tokenizer.FieldsAreTrimmed | src/utils/csvParser.js:32-33 | there is always at least one field, and every field is already trimmed |
| Tokenizer.TrimAllAt | src/utils/csvParser.js:33 | field k of the result is field k of the scan, trimmed |
| Tokenizer.ScanCountsSeparators | src/utils/csvParser.js:24-26 | the scan pushes one field per comma met outside quotes |
| Tokenizer.FieldCount | src/utils/csvParser.js:24-32 | a line has one more field than it has commas outside quotes |
| Tokenizer.ScanConcat | src/utils/csvParser.js:13-30 | scanning s + t is scanning t after s, unless a quote pair straddles the cut |
| Tokenizer.ScanPlain | src/utils/csvParser.js:27-28 | a stretch without quotes or commas is appended to the current field |
| Tokenizer.ScanJoinedPlain | src/utils/csvParser.js:24-28 | comma-joined plain fields are scanned into exactly those fields |
| Tokenizer.PlainRoundTrip | src/utils/csvParser.js:8-34 | fields without quotes or commas, joined with commas, split back into the same fields, trimmed |
| Tokenizer.EscapeConcat | src/utils/csvParser.js:18-20 | doubling quotes distributes over concatenation |
| Tokenizer.EscapeNoQuote | src/utils/csvParser.js:18-20 | a field without quotes needs no escaping |
| Tokenizer.QuoteAll | src/utils/csvParser.js:16-23 | quoting every field keeps the number of fields |
| Tokenizer.ScanToggle | src/utils/csvParser.js:21-22 | a quote not followed by a second quote inside quotes toggles the quoting |
| Tokenizer.ScanPair | src/utils/csvParser.js:18-20 | inside quotes, a doubled quote adds one quote and skips the second |
| Tokenizer.ScanChar | src/utils/csvParser.js:27-28 | any other character, or a comma inside quotes, is appended to the field |
| Tokenizer.ScanComma | src/utils/csvParser.js:24-26 | a comma outside quotes pushes the current field and starts an empty one |
| Tokenizer.ScanEscaped | src/utils/csvParser.js:16-23 | inside quotes, an escaped field and its closing quote add exactly the field |
| Tokenizer.ScanQuoted | src/utils/csvParser.js:16-23 | a quoted field followed by a non-quote becomes exactly the field |
| Tokenizer.ScanJoinedQuoted | src/utils/csvParser.js:13-30 | a line of quoted, escaped fields is scanned into exactly those fields |
| Tokenizer.QuotedRoundTrip | src/utils/csvParser.js:8-34 | any fields written as an RFC 4180 line with every field quoted split back into the same fields, trimmed, including commas and quotes inside them |
| Tokenizer.TrailingSpaceIgnored | src/utils/csvParser.js:32-33 | white space after the last character of a line does not change its fields |
| Tokenizer.TrimAllLast | src/utils/csvParser.js:33 | two last fields with the same trimmed form give the same trimmed fields |
| Tokenizer.TrimAllAppend | src/utils/csvParser.js:33 | trimming the fields commutes with appending a field |
| Tokenizer.TrimAllOfTrimmed | src/utils/csvParser.js:61 | fields that are already trimmed pass through the second trim unchanged |
| Tokenizer.QuotedThenPlain | src/utils/csvParser.js:6 | the shape of splitCsvLine's doc-comment example: a quoted field holding a comma, then a plain field, gives two fields |
| Tokenizer.PlainExample | src/utils/csvParser.js:8-34 | "A,B,C" splits into "A", "B" and "C" |
| Nested.SetNested | src/utils/csvParser.js:40-41 | setNested: the path split at dots, then written by SetPath |
| Nested.SetPath | src/utils/csvParser.js:42-49 | the walk down the keys, replacing an absent or falsy slot by {}, failing on a non-empty string, and the assignment of the last key; stated by SetPathTop, SetPathStores, SetPathFrame and SetPathFails |
| Nested.SetPathTop | src/utils/csvParser.js:40-50 | a successful walk adds only the first key at the top level and keeps every other top-level key |
| Nested.SetPathStores | src/utils/csvParser.js:49 | after a successful set, the path leads to the value assigned |
| Nested.SetPathFrame | src/utils/csvParser.js:44-49 | every path that diverges from the one set keeps its old value |
| Nested.GetEmpty | src/utils/csvParser.js:42 | a fresh object holds no path |
| Nested.SetPathFails | src/utils/csvParser.js:44-46 | the set fails exactly when a proper prefix of the path leads to a non-empty string; absent and empty slots are replaced by fresh objects |
| Nested.AddressExample | src/utils/csvParser.js:38 | setting "address.line1" to "abc" on an empty object gives { address: { line1: "abc" } } |
| Rows.StripQuotes | src/utils/csvParser.js:75-77 | the quote removal: `slice(1, -1)` on a value that starts and ends with a quote; stated by StripQuotesOnePair and StripQuotesUnwrapped |
| Rows.Fill | src/utils/csvParser.js:71-80 | the object after the first k iterations of the forEach, or failure once a setNested threw; stated by FillKeeps, FillAgree, FillStaysFailed and FillPadsMissing |
| Rows.Normalize | src/utils/csvParser.js:82-104 | the destructuring, the name and age checks and the user built; stated by NormalizeSpec |
| Rows.ParseLine | src/utils/csvParser.js:64-104 | what one data line amounts to: blank, rejected with its reason, accepted with its user, or broken by a throw; stated by Drivers.ParseRow, UnnamedLine and SampleRow |
| Rows.StripQuotesOnePair | src/utils/csvParser.js:75-77 | a value wrapped in quotes loses exactly that one pair |
| Rows.StripQuotesUnwrapped | src/utils/csvParser.js:75-77 | a value that is not wrapped in quotes is kept as it is |
| Rows.CellValue | src/utils/csvParser.js:72-77 | the cell under header j is the value at position j, or "" past the end, with one pair of enclosing quotes removed |
| Rows.FillUnnamed | src/utils/csvParser.js:144-153 | when no header's path starts at "name", the object built has no "name" key |
| Rows.UnnamedLine | src/utils/csvParser.js:138-165 | when no header's path starts at "name", no line is accepted, and a rejected line is rejected for its missing name |
| Rows.BuildRecord | src/utils/csvParser.js:71-80 | the forEach over the headers builds exactly the object of the fill, or fails when a setNested throws |
| Rows.FillStaysFailed | src/utils/csvParser.js:71-80 | once a setNested has thrown, the row stays failed |
| Rows.FillKeeps | src/utils/csvParser.js:71-80 | header j's path holds the unquoted value at position j when no later header overlaps it |
| Rows.FillAgree | src/utils/csvParser.js:71-80 | the object built reads the values only at the header positions: rows that agree there give the same object |
| Rows.FillIgnoresExtra | src/utils/csvParser.js:72 | values beyond the headers are ignored |
| Rows.FillPadsMissing | src/utils/csvParser.js:72 | missing values behave as empty strings |
| Rows.NormalizeSpec | src/utils/csvParser.js:82-104 | a row is kept exactly when a name part is non-empty and the age parses into 1..120; a missing name is reported as such; the kept user has the trimmed joined name, the parsed age, the address or {}, and every other top-level key |
| Rows.NoNumber | src/utils/csvParser.js:87 | a text starting with neither white space, a sign nor a digit parses to NaN |
| Rows.AgeMustBeText | src/utils/csvParser.js:87-97 | a missing age or an age that is an object is invalid |
| Rows.AgeBoundaries | src/utils/csvParser.js:87-97 | an age written as a numeral n passes exactly when 1 <= n <= 120 |
| Rows.AgeNotPositive | src/utils/csvParser.js:94-97 | an age written with a minus sign before a numeral never passes |
| Rows.BlankNameAccepted | src/utils/csvParser.js:89-100 | a first name of one space passes the name check and is stored as the empty name |
| Rows.SampleRow | src/utils/csvParser.js:64-104 | a line under the headers name.firstName, name.lastName, age, address.city becomes the expected user |
| Drivers.Headers | src/utils/csvParser.js:131-133 | the headers of the stream: the fields of the trimmed first line, trimmed again; stated by HeadersTrimmedOnce |
| Drivers.RowsOf | src/utils/csvParser.js:138-178 | the data lines folded in order: accepted users are yielded and the first broken row fails the stream; stated by RowsAppend, RowsStopsAtFailure, BlankLineIgnored, RowsBound and RowsValid |
| Drivers.Stream | src/utils/csvParser.js:116-179 | streamParseCsv over the lines read: the first line gives the headers and the rest are folded; stated by StreamParseCsv, StreamBound and BlankHeaderYieldsNothing |
| Drivers.ParseDocument | src/utils/csvParser.js:56-108 | parseCsvToJson as a function: [] below two lines, else the users of the data lines or the error a broken row throws; stated by ParseCsvToJson, DocumentStopsAtFailure and DocumentAgreesWithStream |
| Drivers.HeadersTrimmedOnce | src/utils/csvParser.js:131-133 | the second trim of the headers changes nothing |
| Drivers.StreamParseCsv | src/utils/csvParser.js:116-179 | the loop over the lines yields exactly the records of the stream fold and reports whether it failed |
| Drivers.ParseRow | src/utils/csvParser.js:138-173 | one line gives exactly the verdict of the row function: blank, rejected, accepted or broken |
| Drivers.RowsAppend | src/utils/csvParser.js:130-174 | reading a + b is reading a then b, stopping at the first failure |
| Drivers.RowsStopsAtFailure | src/utils/csvParser.js:175-178 | after a failing line, the later lines change nothing |
| Drivers.BlankLineIgnored | src/utils/csvParser.js:139 | a blank line anywhere changes nothing |
| Drivers.RowsBound | src/utils/csvParser.js:168-173 | at most one record per line |
| Drivers.RowsValid | src/utils/csvParser.js:163-165 | every yielded record has an age in 1..120 |
| Drivers.StreamBound | src/utils/csvParser.js:132-136 | the header line yields no record |
| Drivers.BlankHeaderYieldsNothing | src/utils/csvParser.js:131-136 | a blank first line gives no usable header and nothing is yielded |
| Drivers.BlankHeaderRows | src/utils/csvParser.js:138-161 | under the single header "" no row has a name and none throws: nothing is yielded and the stream does not fail |
| Drivers.UnnamedRows | src/utils/csvParser.js:138-178 | when no header's path starts at "name", no line is ever yielded, whatever the lines |
| Drivers.SplitLines | src/utils/csvParser.js:58 | splitting on line breaks gives at least one line |
| Drivers.SplitLinesJoin | src/utils/csvParser.js:58 | the lines hold no line feed; the pieces between line feeds join back into the text, and each line is its piece less the one carriage return that stood before a line feed |
| Drivers.ParseCsvToJson | src/utils/csvParser.js:56-108 | the loop returns exactly the result of the document function: [] below two lines, the records of the data lines, or the error a broken row throws |
| Drivers.DocumentStopsAtFailure | src/utils/csvParser.js:79 | the first throwing row decides the result |
| Drivers.DocumentIsStream | src/utils/csvParser.js:64-105 | over the same data lines, parseCsvToJson's loop and the stream's loop give the same records and fail together |
| Drivers.DocumentAgreesWithStream | src/utils/csvParser.js:56-108 | parseCsvToJson of a text equals the stream over the lines of the trimmed text: the same records, and a throw exactly when the stream fails |
| Sql.Params | src/controllers/csvController.js:35 | the parameter list has four entries per user |
| Sql.ParamsAppend | src/controllers/csvController.js:32-36 | one more user adds its four columns at the end |
| Sql.ParamsBinding | src/controllers/csvController.js:32-36 | parameter 4i + c is column c of user i |
| Sql.DecodeParams | src/controllers/csvController.js:32-40 | reading the parameters back four at a time gives the batch, in order |
| Sql.Group | src/controllers/csvController.js:33-34 | the placeholder group of user idx, naming parameters 4 idx + 1 to 4 idx + 4 as the template literal prints them; GroupsAt puts it at position idx of the VALUES list |
| Sql.Groups | src/controllers/csvController.js:34 | there is one placeholder group per user |
| Sql.GroupsAt | src/controllers/csvController.js:32-34 | group i names the placeholders 4i+1 to 4i+4 |
| Sql.Statement | src/controllers/csvController.js:38 | an INSERT binds four parameters per row |
| Sql.Statements | src/controllers/csvController.js:54 | one statement per batch |
| Sql.StatementsAppend | src/controllers/csvController.js:54 | the statements of a + b are those of a then those of b |
| Sql.BuildInsert | src/controllers/csvController.js:27-38 | an empty batch gives no statement; otherwise the loop gives the statement of the batch and its SQL text |
| Store.AgesOf | src/controllers/csvController.js:84 | the ages column has one entry per row, the age of that row |
| Store.AgesAppend | src/controllers/csvController.js:84 | the ages of a + b are those of a then those of b |
| Store.Database.constructor | src/controllers/csvController.js:8 | a table with its initial rows, no statement sent yet, and the given outcomes |
| Store.Database.Insert | src/controllers/csvController.js:39-44 | the statement is recorded; on success exactly the decoded rows are appended, on failure nothing is |
| Store.Database.SelectAges | src/controllers/csvController.js:83-84 | the ages of every row of the table, or nothing when the query fails |
| Loader.FlattenAppend | src/controllers/csvController.js:50-57 | laying out a + b is laying out a then b |
| Loader.FlattenChunks | src/controllers/csvController.js:50-72 | the batches laid end to end give the users back, in order |
| Loader.ChunkCount | src/controllers/csvController.js:22 | n users make ceil(n / 500) batches |
| Loader.ChunkSizes | src/controllers/csvController.js:53 | each batch holds 1 to 500 users and all but the last hold exactly 500 |
| Loader.ChunkStart | src/controllers/csvController.js:53-56 | batch m exists only when 500m < n, and it is users 500m up to 500(m + 1) or the end |
| Loader.FlattenChunksPrefix | src/controllers/csvController.js:53-56 | the first m batches, when more follow, are the first 500m users |
| Loader.ChunksAppend | src/controllers/csvController.js:53-56 | after a whole number of batches the batches of the rest follow unchanged |
| Loader.BatchLoader.constructor | src/controllers/csvController.js:22-48 | an empty batch, a zero count and nothing parsed yet |
| Loader.BatchLoader.InsertBatch | src/controllers/csvController.js:27-45 | an empty batch sends nothing; otherwise one statement for the batch is sent, and on success the batch is stored |
| Loader.BatchLoader.Push | src/controllers/csvController.js:50-57 | the user joins the batch; a batch reaching 500 is sent, and only on success is it emptied and counted |
| Loader.BatchLoader.FlushRest | src/controllers/csvController.js:64-72 | a non-empty remainder is sent once, and counted only on success |
| Ages.BucketOf | src/controllers/csvController.js:86-89 | an age is in exactly one group: below 20, 20 to 40, above 40 up to 60, above 60 |
| Ages.CountIn | src/controllers/csvController.js:85-90 | a group never counts more ages than there are |
| Ages.CountsCoverAll | src/controllers/csvController.js:85-90 | the four counts add up to the number of ages |
| Ages.CountAppend | src/controllers/csvController.js:85-90 | counts of a + b are the counts of a plus those of b |
| Ages.CountBuckets | src/controllers/csvController.js:81-90 | the counting loop gives each group its count |
| Ages.Share | src/controllers/csvController.js:93 | a group's count as a percentage of the total, 0 without ages; stated by ShareBounds and SharesSum |
| Ages.Distribution | src/controllers/csvController.js:81-94 | the percentage of each age group; stated by DistributionTotals and SampleDistribution |
| Ages.ShareBounds | src/controllers/csvController.js:93 | a share lies between 0 and 100 |
| Ages.SharesSum | src/controllers/csvController.js:91-94 | the four shares add up to 100 |
| Ages.ToPercentages | src/controllers/csvController.js:92-94 | the rewrite loop turns each count into its share, 0 when there are no ages |
| Ages.AgeDistribution | src/controllers/csvController.js:82-98 | the distribution of the ages, or N/A in every group when the query failed |
| Ages.DistributionTotals | src/controllers/csvController.js:91-94 | with ages the percentages add up to 100; without, every group shows 0 |
| Ages.SampleDistribution | src/controllers/csvController.js:86-94 | 10, 20, 40, 41, 70 count 1, 2, 1, 1 and give 20, 40, 20 and 20 percent |
| Upload.Committed | src/controllers/csvController.js:50-72 | the number of batches written before the first failing INSERT is at most the number of batches |
| Upload.CommittedAppend | src/controllers/csvController.js:50-72 | the batches of b are reached only when every batch of a was written |
| Upload.AllCommitted | src/controllers/csvController.js:50-72 | when every INSERT succeeds, every batch is written |
| Upload.StopsAt | src/controllers/csvController.js:54 | writing stops at the first INSERT that fails |
| Upload.PushOne | src/controllers/csvController.js:50-57 | one iteration keeps the loop state: the table holds the written full batches, the statements sent are theirs, and the batch holds the rest |
| Upload.PushAll | src/controllers/csvController.js:49-62 | the loop writes the full batches up to the first failing INSERT and stops there; the table, the statements sent and the loader's state say exactly that |
| Upload.PushLast | src/controllers/csvController.js:50-57 | the user that fills the batch sends it: on success the loop state moves to the next batch, on failure the table and the statements sent are those of the first failing batch |
| Upload.Verdict | src/controllers/csvController.js:59-128 | the response once the stream and the INSERTs are done: 500 for a failing INSERT (the final-batch message only for the partial last batch), 500 for a failed stream, 400 for no user, else 200; stated by UploadDoneIff and FailureResponses |
| Upload.Finished | src/controllers/csvController.js:64-76 | the residual flush agrees with the batch-level account: an empty remainder sends nothing, a written one completes the table to every user, a refused one answers 500 "final batch" |
| Upload.Finish | src/controllers/csvController.js:64-128 | after a normal stream: the remainder is flushed, and the answer is 500 on its failure, 400 for no user, else 200 with the count and the distribution of the table |
| Upload.UploadCsv | src/controllers/csvController.js:12-128 | no path gives 400 and no write; otherwise the table grows by the batches written before the first failing INSERT, the statements sent are theirs plus the failing one, and the response is the verdict on the stream and the INSERTs |
| Upload.WrittenIsPrefix | src/controllers/csvController.js:50-72 | what an upload writes is always a prefix of the yielded users: 500m of them after a failure at batch m, the full batches after a stream failure, all of them otherwise |
| Upload.UploadDoneIff | src/controllers/csvController.js:74-128 | the answer is 200 exactly when the stream ended normally, yielded a user and every INSERT succeeded; then every user is reported and stored, in order, with ceil(n / 500) INSERTs |
| Upload.FailureResponses | src/controllers/csvController.js:59-76 | a stream or read failure is always 500 "CSV parsing or reading failed"; "final batch" is exactly a failing INSERT of the partial last batch; 400 "No valid records" is exactly a normal stream with no user, and then nothing is sent |

## Left out

- File I/O: `fs.createReadStream` and `readline` are replaced by the list of lines read and a flag for a read error that ends the stream. The open failure of lines 118-124 is the same 500 answer as a read error.
- Lone carriage returns: readline also breaks lines at a bare `\r`. The model takes the lines as given.
- Asynchrony: the source pulls one user at a time from the generator and may send an INSERT before the next line is read. When an INSERT inside the loop fails, the generator is closed and no further line is read. The model instead computes the whole stream first (`Upload.UploadCsv` calls `Drivers.StreamParseCsv` before `Upload.PushAll`) and then runs the batch loop over the users it yielded. This gives the same table, statements and response, because reading has no effect on the database, and the users the loop consumes are the same prefix in both orders. `Upload.Attempted` and `Upload.Committed` only look at the batches up to the first failing INSERT, so lines the source would never have read change nothing. What the model does not capture is the interleaving in time, and that no line past a failing INSERT is read. Interleaving with other requests is left out as well.
- The connection pool and `src/config/db.js`, including table creation, are not part of this model. The table is the `Database` class, and each statement's success is an input.
- The Express app and routes: the handler takes the file path directly instead of reading `process.env.CSV_FILE_PATH`. An unset variable is the empty path.
- Console logging, warnings and the ASCII table of lines 100-116 are left out: they only print.
- Ages.ToPercentages: the percentages are exact reals. `toFixed(2)`'s rounding to a two-decimal string is left out, so a share is a real and not a string.
- The outer catch of lines 130-133 is not modelled: no modelled step throws out of the handler.
- The SQL text is built by `Sql.BuildInsert` and described by `Sql.Text`. The table model reads the rows from the parameter list, not from the text.
- Store.Database.Insert: PostgreSQL's type checks on the parameters are reduced to "the parameters decode four at a time". Constraint violations are part of the success input.
- Strings: a Dafny `char` is a Unicode scalar value, while JavaScript indexes strings by UTF-16 code units, so a character outside the Basic Multilingual Plane counts once here and twice in the source. No modelled step can tell the difference: the tokenizer, `split('.')`, the quote test before `slice(1, -1)` and `parseInt` only compare characters against ASCII ones, and the white space that `trim` removes holds no surrogate. Unicode normalisation is left out.
- Strings.ParseInt: exact integers. Precision loss of `parseInt` above 2^53 is left out; such ages are rejected either way.
- Nested.SetPath: the mutation of one fresh object is modelled on values, as a map from own keys to values. This loses no aliasing as long as every path segment names an own property or an absent one. A path segment naming an inherited property of `Object.prototype`, `String.prototype` or `Function.prototype` (`toString`, `valueOf`, `at`, `length`, `__proto__`, `constructor` and the like) is left out. `!curr[key]` sees such a property, so the source walks into the shared built-in instead of creating `{}`: header `a.toString.b` writes `b` onto `Object.prototype.toString` and leaves `a` as `{}`, and header `name.at.x` over a string name does not throw. The model treats every such segment as an ordinary absent key. Property order is left out too.
- Rows.Normalize: the order of the keys in `additional_info` is left out; maps are unordered.
