# Lead intake and migrations: a verified model

The site takes quote requests from a web form, stores each as a lead, mails the sales team and
answers with a reference. A small runner keeps its PostgreSQL schema up to date. This project
models the parts of that program where many steps, many requests or many characters interact, and
proves what they promise.

* **Lead intake.** `Intake` is a step machine: any number of handlers pass the gate, count recent
  leads of their address, insert, send, record an event and respond, in any interleaving. Each
  store call is one atomic step. `RateLimit` proves the sliding-window bound and that it is exact,
  `Conservation` and `Identity` prove that leads, sends, events and success responses correspond,
  and `Quotes` runs one request as the source does, over the mutable `Memory.MemoryStore`, and
  proves that this is a run of the machine.
* **Mail provider.** `Brevo` is the bounded retry loop against an arbitrary server, with its clock
  and deadline and with the wrap-around of 64-bit durations. `Mails` joins it to lead intake.
* **Migrations.** `Migration` is the runner as a crash-prone step machine with contending runs and
  commits that take effect but report an error and processes that are killed. `MigrationRuns` proves prefix safety, resume and
  truthful reports, `MigrationFiles` the choice and order of files, and `Migrate` the source's
  loop over a mutable database, tied both to the machine and to a statement of its exact result.
* **Phone numbers.** `Extension` is the lazy regular expression and a scanner for it, `Phone` the
  normaliser with its exact image, `PhonePattern` the browser's pattern as a second acceptor.
* **Texts.** `Render` and `Names` (header texts and the prospect's name), `Utf8` (byte truncation),
  `DotEnv` (the environment file) and `Reference` (printed references).

Every in-place loop is a method proved equal to a short specification function; the lemmas are
about that function. A schedule is an arbitrary sequence of labels, and a label that does not fit
the current state changes nothing, so a statement about `Exec(INIT, ls)` for all `ls` is a statement
about every reachable state.

Random ids, random references, clocks, servers, database failures and I/O failures are parameters
of labels or methods and range over all values. Ids of stored leads are fresh, as 128 random bits
are taken to be; references are not assumed to be. All handlers and the store read one monotone
clock. Times and durations are in nanoseconds. Texts are strings of Unicode characters, except in
`Utf8` and `Reference`, which work on bytes.

## What turned out to be false

* The configured hourly limit holds for leads admitted by a count, in every schedule, if and only if
  no two handlers of one address are between count and insert at once (`RateLimit.ExactBound`); it
  holds for all stored leads if and only if, besides, no count fails (`RateLimit.ExactTotal`).
* The pattern on the phone field is meant to let through whatever the server accepts. It counts at
  most 20 characters and the server does not count. `PhonePattern.MatchedIff` gives the exact
  condition for every plain ASCII input: the text between "+" and the extension's keyword must fit
  into 20 characters once the pattern has taken its final dots, and the white space before them,
  into the ten characters it allows the keyword; without an extension, final digits after dots can
  pass for one. Without dots only the length counts (`MatchedIffShort`, with the refused family
  `DashesRefused`).
* A retry respects the server's Retry-After header in every send if and only if the header names
  no date and at most 9 223 372 035 seconds (`Brevo.HeaderRespectedIff`). Above, the source's durations
  wrap around; numbers beyond 64 bits and dates are not read at all, and the retry comes after
  500 ms. Within a given send budget the headers whose wait the source cannot afford do no harm
  either: `Brevo.RespectedWithinIff` gives the exact condition for every budget.
* No mail is accepted twice in any send if and only if the server cannot mean accepted by 429 nor by
  503 (`Brevo.NeverTwiceIff`).
* The From name shows the prospect's name and address in full if and only if the name has at most 80
  characters and both fit into 200 together (`Render.FromNameWhole`); the comment on `BuildMessage`
  promises both.
* The lists that the migration runs return are together the recorded versions if and only if no
  commit took effect while reporting an error and no run was killed, or is still under way, after it
  had applied a file (`MigrationRuns.ReportsIffTruthful`, with a run of each kind in
  `Migrate.LyingCommit` and `Migrate.KilledRun`).
* A printed line of the environment file is read back if and only if its key and value are
  well-formed and the line is shorter than 65 536 bytes, a limit of the scanner that the comment on
  `LoadDotEnv` does not mention (`DotEnv.SurvivesIff`, `DotEnv.LongLineLost`).

## Model

| member | source | states |
|---|---|---|
| RateLimit.WindowBound | internal/handlers/quote.go:132-155 | In every run in which at most k handlers of an address are between count and insert at once, no one-hour window, wherever it ends, holds more than limit - 1 + k leads of that address admitted by a count. |
| RateLimit.RunLimited | internal/handlers/quote.go:132-155 | The inductive form: at any moment, leads of the window plus pending handlers of the address stay within the bound, in every reachable state. |
| RateLimit.TotalBound | internal/handlers/quote.go:137-139 | All stored leads of a window exceed that bound by no more than the leads let through because their own count failed. |
| RateLimit.Burst | internal/handlers/quote.go:132-155 | For every limit and k there is a schedule with at most k pending handlers that stores limit - 1 + k leads at one instant. |
| RateLimit.ExactBound | internal/handlers/quote.go:132-155 | A bound on leads admitted by a count is kept by all such schedules if and only if it is at least limit - 1 + k; the limit itself if and only if k is 1. |
| RateLimit.ExactTotal | internal/handlers/quote.go:132-155 | A bound on all stored leads of an hour is kept by all schedules with at most k pending handlers and at most f leads let through by a failed count if and only if it is at least limit - 1 + k + f; the limit itself if and only if k is 1 and f is 0. |
| Quotes.CountDecides | internal/handlers/quote.go:132-146 | In any state: a handler that counts is answered 429 exactly when the store then holds at least limit leads of its own address, created less than an hour before it entered; leads of other addresses and older ones do not matter. |
| Conservation.RunBalanced | internal/handlers/quote.go:149-236 | In every reachable state leads, sends, events, success responses and handlers in flight balance, store failures included. |
| Conservation.QuietRunConserves | internal/handlers/quote.go:149-236 | With nobody between insert and response: leads, sends, events and success responses are equally many over a store that does not fail, and differ by exactly what a failing store lost otherwise. |
| Conservation.RunGated | internal/handlers/quote.go:93-123 | In every reachable state only same-origin, readable, valid submissions that avoid the honeypot are being counted, stored, sent or told a reference. |
| Conservation.GateDecides | internal/handlers/quote.go:93-123 | Which submissions are refused, with which status, in both directions: cross-origin 403, too large 413, unreadable 400, honeypot 200 without reference, invalid 422. |
| Identity.RunSound | internal/handlers/quote.go:149-236 | In every reachable state ids and references of leads are distinct, every send belongs to one stored lead and no lead has two, every event reports its lead's send and says "failed" exactly when that failed, and every success response carries a stored reference that no other response carries. |
| Identity.RunAppends | internal/db/memory.go:28-62 | Leads, sends and events only ever grow at the end. |
| Mails.MailsWithinLeads | internal/handlers/quote.go:149-200 | In every run whose sends go through Brevo's retry loop to an honest server, the server accepts no more mails than there are stored leads. |
| Mails.EventTells | internal/handlers/quote.go:200-235 | In every run whose sends go to a server that takes a mail exactly when it answers 2xx, every event belongs to exactly one send; a "sent" event's lead has exactly one mail taken by the server, a "failed" one at most one. |
| Memory.MemoryStore.CreateQuoteRequest | internal/db/memory.go:28-41 | A taken reference is refused and changes nothing; otherwise exactly one row is appended, with the id returned. |
| Memory.MemoryStore.CountQuoteRequestsSince | internal/db/memory.go:44-54 | The result is the number of rows of the address created strictly after the given time. |
| Memory.MemoryStore.RecordEmailEvent | internal/db/memory.go:57-62 | The event is appended and nothing else changes. |
| Quotes.SaveQuote | internal/handlers/quote.go:173-190 | Success exactly when the deciding attempt drew a free reference and its call went through; then one row is appended whose reference is the caller's. A failure leaves the store unchanged unless the answer to an insert was lost. A duplicate error only after three taken references. |
| Quotes.SaveIsRun | internal/handlers/quote.go:173-190 | The step machine's save attempts lead to the state that SaveQuote's contract describes. |
| Quotes.TakenAttempts | internal/handlers/quote.go:176-188 | In the step machine each taken reference costs one attempt and changes nothing else. |
| Quotes.DeniedIff | internal/handlers/quote.go:132-147 | A good submission is answered 429 exactly when the limit is on and the store holds at least limit leads of the same address younger than an hour; a failing count denies nobody. |
| Quotes.Admit | internal/handlers/quote.go:93-147 | Gate and rate limit answer in the source's order, a failing count lets the request through, and this is a run of the step machine from the store as it is. |
| Quotes.NotifySales | internal/handlers/quote.go:192-236 | Exactly one event follows the send, "sent" with its message id or "failed" with its error, unless the event is lost; the request succeeds either way. |
| Quotes.HandleQuote | internal/handlers/quote.go:86-169 | The response and the store afterwards are determined: denied and unchanged, or decided by the first attempt that did not draw a taken reference; and the whole call is a run of the step machine with the same store and response. |
| Brevo.SendLoop | internal/email/brevo.go:150-176 | The loop makes exactly the posts, at exactly the times, and returns exactly the result of the recursive description of a send, for any number of attempts. |
| Brevo.SendCourse | internal/email/brevo.go:150-176 | If no header is out of range the course of a send is determined, from the replies, the clock and the deadline alone: a post answered 429 or 503 is followed by another, exactly as late as asked, if and only if attempts remain, the context lives, and the delay and one second fit the deadline. |
| Brevo.ResultRepeats | internal/email/brevo.go:205-230 | The result is the last answer: 2xx with its message id, an error status as it came, no answer as a transport error. |
| Brevo.PrintedDelay | internal/email/brevo.go:225-228 | Every number in decimal is read back as itself up to 2^63 - 1, and not read above. |
| Brevo.RetriesWithinIff | internal/email/brevo.go:160-167 | A retry is made within a budget if and only if the wait fits it and so does one second more, or that sum overflows 64 bits. |
| Brevo.OnlyRefusalsRetried | internal/email/brevo.go:150-176 | For any server: at least one and at most N posts, every post but the last was answered 429 or 503, and the result is that of the last. |
| Brevo.AtMostOneAcceptance | internal/email/brevo.go:92-96 | With a server for which 429 and 503 mean not accepted, one send is accepted at most once. |
| Brevo.NeverTwiceIff | internal/email/brevo.go:92-96 | For any set of statuses with which the server may take a mail: no send with any number of attempts, deadline and behaviour is accepted twice if and only if neither 429 nor 503 is among them. |
| Brevo.DishonestServerTakesTwo | internal/email/brevo.go:92-96 | With either of the two statuses, two acceptances are possible for every N of at least 2. |
| Brevo.ResultTells | internal/email/brevo.go:150-230 | With a server that takes a mail exactly when it answers 2xx: success means taken once, an error status not taken, and only a lost answer leaves it open. |
| Brevo.RetriesInTime | internal/email/brevo.go:151-175 | If every header names no date and at most 9 223 372 035 seconds, every retry of every send starts no earlier than asked, or after 500 ms if nothing was asked, and with an exact timer leaves a second of the budget. |
| Brevo.HeaderRespectedIff | internal/email/brevo.go:160-228 | For every header text, read as delay-seconds of any size or as a date: all retries of all sends to a server that answers with it are in time if and only if it names no date and at most 9 223 372 035 seconds. |
| Brevo.RespectedWithinIff | internal/email/brevo.go:160-228 | For every header text and send budget of at most 2^63 - 1 ns, with a context that ends at the deadline: all retries are in time if and only if the header is in that range or an immediate answer with it leads to no retry. |
| Brevo.BrokenWithin | internal/email/brevo.go:160-228 | Every header out of that range whose wait fits the budget has a send with two posts whose retry comes earlier than asked or leaves less than a second. |
| Migration.RunOnce | internal/db/postgres.go:137-194 | In every state of concurrent, failing and crashing runs, whatever files each sees: the SQL that has taken effect is that of the recorded versions in their order, no version twice, and only the lock's holder is inside. |
| MigrationRuns.RunPrefix | internal/db/postgres.go:154-194 | If all runs see the same files, the recorded versions are always a prefix of the sorted list and the schema is the fold of exactly that prefix. |
| MigrationRuns.SuccessCompletes | internal/db/postgres.go:163-194 | One successful run after any failed ones leaves the database of one undisturbed run. |
| MigrationRuns.CompleteIsFinal | internal/db/postgres.go:169-171 | After a success no further step of any run changes the database or adds to an applied list. |
| MigrationRuns.ReportsIffTruthful | internal/db/postgres.go:189-194 | The lists returned, in the order of the lock, are together the recorded versions if and only if no commit lied and every run that has not returned has applied nothing. |
| Migrate.Migrate | internal/db/postgres.go:137-195 | The run stops at the first file with a fault that matters; it reports the unrecorded files before it, adds those and possibly the one whose commit lied, and is a run of the step machine; the lock stays with the session exactly when the unlock fails, and the end of the session is then its unlock. |
| Migrate.LyingCommit | internal/db/postgres.go:189-192 | For every file there is a run whose commit takes effect, reports an error and leaves the file out of every returned list. |
| Migrate.KilledRun | internal/db/postgres.go:189-194 | For every file there is a run that is killed after a truthful commit, so that the version is recorded and never returned. |
| Migrate.ApplyFiles | internal/db/postgres.go:162-194 | The same for the loop with the lock held. |
| Migrate.ApplyFile | internal/db/postgres.go:163-192 | SQL and version enter the database together or not at all, and a recorded file is left alone. |
| Migrate.Pass | internal/db/postgres.go:163-192 | For each of the faults, the step machine's labels for one pass of the loop lead to the state that ApplyFile's contract describes. |
| Migrate.ListFiles | internal/db/postgres.go:150-164 | The loop over the directory collects exactly the SQL files, sorted, without suffix. |
| MigrationFiles.FilesCanonical | internal/db/postgres.go:154-160 | The list does not depend on the order in which the directory is read. |
| MigrationFiles.FilesDistinct | internal/db/postgres.go:154-164 | No version comes twice. |
| MigrationFiles.OrderedUnique | internal/db/postgres.go:160 | A sorted list is determined by its elements, so any sorting routine gives this one. |
| MigrationFiles.SortOrdered | internal/db/postgres.go:160 | Sorting yields an ordered permutation. |
| MigrationFiles.LessIff | internal/db/postgres.go:160 | The order is lexical: at the first difference one name ends or has the smaller character. |
| MigrationFiles.FilesAre | internal/db/postgres.go:155-164 | A version is listed if and only if the directory holds a plain file of that name with .sql behind it. |
| MigrationFiles.FilesInOrder | internal/db/postgres.go:160-164 | Of two listed versions the one whose file name is lexically smaller comes first. |
| Extension.CutUnique | internal/phone/phone.go:28 | However the pattern cuts an input, keyword and extension digits are the same. |
| Extension.KeywordIff | internal/phone/phone.go:28 | A keyword is, in any mixture of case, one of extension, ext., ext and x. |
| Extension.FindIsLazyMatch | internal/phone/phone.go:28 | The scanner finds the cut with the shortest newline-free prefix exactly when there is one, as the lazy group does. |
| Extension.FoundNoLater | internal/phone/phone.go:43-46 | Wherever the pattern can be cut, the match found has the same digits and differs by white space only. |
| Phone.NormalizeLoop | internal/phone/phone.go:37-93 | The rune loop with its reassigned variables meets the specification, errors included. |
| Phone.NormalizeParts | internal/phone/phone.go:43-92 | For any dialable number part, white space and any spelling of an extension, the result is a function of the leading "+", the digits and the extension. |
| Phone.NationalNumbers | internal/phone/phone.go:63-82 | Ten digits without "+" give the result of the same text after "+1", and eleven with a leading 1 that of the same text after "+". |
| Phone.RefusedIff | internal/phone/phone.go:39-86 | For every input and every error: that error is returned if and only if the input is blank, its number part has another character than the listed ones, or its digits have the stated length, first digit or North American area code and exchange. |
| Phone.FillerInvariance | internal/phone/phone.go:48-60 | Inserting or deleting a space, parenthesis, dash or dot after the first character of the number part leaves the result as it was, whatever white space and extension follow. |
| Phone.AcceptedParts | internal/phone/phone.go:43-92 | Every accepted input, once trimmed, is a number part, white space and an optional extension as the two statements above ask for them, and trimming does not change the result; so they cover all accepted inputs. |
| Phone.NormalFixed | internal/phone/phone.go:62-92 | Every well-formed number normalises to itself. |
| Phone.NormalizeImage | internal/phone/phone.go:62-99 | A text is an output if and only if it is "+", digits as E.164 (section 6) and the North American plan have them, and optionally " ext. " with 1 to 6 digits. |
| Phone.NormalizeIdempotent | internal/phone/phone.go:37-93 | Normalising an output changes nothing. |
| PhonePattern.MatchedIff | internal/phone/phone.go:12-14 | For every plain trimmed ASCII input that the server accepts, dots included: the browser's pattern matches if and only if the input meets a condition on lengths and final dots that can be computed from it. |
| PhonePattern.AcceptedIsMatched | internal/phone/phone.go:12-14 | At most 20 characters in the number part after the "+" suffice. |
| PhonePattern.MatchedIffShort | internal/phone/phone.go:12-14 | For number parts without a dot that length is also necessary. |
| PhonePattern.GroupMatches | internal/phone/phone.go:14 | The ends that the pattern's number run can have before its optional group form one interval, from what is left after dots and white space go to the group up to the whole text before the word. |
| PhonePattern.DigitsMatchIff | internal/phone/phone.go:14 | Digits alone match if and only if they are 7 to 20. |
| PhonePattern.WordMatchIff | internal/phone/phone.go:14 | Digits, letters and digits match if and only if there are at most 10 letters and at most 6 final digits. |
| PhonePattern.OutputIsMatched | internal/phone/phone.go:12-14 | Every normalised output matches the pattern. |
| PhonePattern.DashesRefused | internal/phone/phone.go:12-14 | The whole family of dashed numbers of more than 20 characters is accepted by the server and refused by the pattern. |
| PhonePattern.AcceptedNeedNotMatch | internal/phone/phone_test.go:49-51 | So acceptance by the server does not imply a match, contrary to the comment there. |
| Render.HeaderSafeLoop | internal/email/render.go:103-124 | The single pass equals: words joined by single spaces, cut to max characters, trailing space removed. |
| Render.HeaderSafeImage | internal/email/render.go:99-124 | A text is an output if and only if it has at most max characters, no control character, and only single inner plain spaces as white space. |
| Render.HeaderSafeIdempotent | internal/email/render.go:103-124 | Applying it twice with one max is applying it once. |
| Render.NoControlCharacters | internal/email/render.go:101-113 | No control character, hence no CR or LF (section 2.2 of RFC 5322), reaches a header. |
| Render.OnlyPlainSpaces | internal/email/render.go:106-123 | The only white space in a header is a plain space between two other characters. |
| Render.KeepsCompactPrefix | internal/email/render.go:103-124 | A clean beginning that fits is kept whole, whatever follows. |
| Render.SubjectKeepsReference | internal/email/render.go:93-99 | The reference stands whole in every subject line, whatever the visitor typed. |
| Render.SubjectWhole | internal/email/render.go:93-99 | Reference, origin, destination and company stand in the subject in this order, whole if and only if all of it has at most 200 characters. |
| Render.FromNameWhole | internal/email/render.go:66-71 | For every typed name that is not blank and address without white space: the From name is "Name (address)" with the whole typed name, white space collapsed, if and only if the name has at most 80 characters and the text at most 200. |
| Names.NameSurvives | internal/handlers/quote.go:286-288 | Collapsing, cutting at the first space, rejoining, trimming and making header-safe gives the same display name as making the typed name header-safe, for every input. |
| Names.CollapseKeeps | internal/handlers/quote.go:345 | Collapsing keeps every visible character in its place and leaves single plain spaces between. |
| Names.WordsOfCollapsed | internal/handlers/quote.go:345 | Collapsing white space does not change which words headerSafe finds. |
| Strings.TrimSpaceParts | internal/email/render.go:123 | Trimming removes white space at both ends and nothing else. |
| Strings.WordsSplit | internal/email/render.go:106-121 | A separator cuts a text into independently found words; with WordsOfOne this determines the words of every text. |
| Strings.WordsOfOne | internal/email/render.go:106-121 | A run without separators is one word. |
| Utf8.TruncateBytes | internal/handlers/quote.go:347-356 | Short inputs are returned; otherwise the result is the longest valid prefix within max bytes. |
| Utf8.ValidIff | internal/handlers/quote.go:352 | A byte string counts as valid if and only if it is the UTF-8 encoding of some text. |
| Utf8.BoundaryNear | internal/handlers/quote.go:352-354 | Valid UTF-8 (section 4 of RFC 3629) has a character boundary within the three bytes before any cut. |
| Utf8.ValidRest | internal/handlers/quote.go:352-354 | A valid prefix of a valid string ends at a character boundary: the rest is valid too. |
| Utf8.TruncationKeepsCharacters | internal/handlers/quote.go:347-356 | Of a valid input only whole characters are dropped, and at most three bytes beyond those over the limit. |
| DotEnv.Environment.LoadDotEnv | internal/config/dotenv.go:16-56 | The scanner loop leaves the environment and the error that the specification gives for every file, long lines and I/O errors included. |
| DotEnv.SkippedLineMovesOnly | internal/config/dotenv.go:28-32 | Putting a blank line or a comment anywhere into a file changes nothing but the line numbers reported after it. |
| DotEnv.SkippedLine | internal/config/dotenv.go:29-32 | Blank lines and lines whose first visible character is "#" are skipped. |
| DotEnv.NeedsEquals | internal/config/dotenv.go:33-37 | Any other line is an error if and only if it has no "=". |
| DotEnv.CommentDropped | internal/config/dotenv.go:43-48 | A bare value is what stands before the first " #". |
| DotEnv.FinalLineEnd | internal/config/dotenv.go:27-29 | The line end after the last line may be missing. |
| DotEnv.FileErrors | internal/config/dotenv.go:17-26 | A missing file is no error and sets nothing; a file that cannot be opened or read to its end is reported. |
| DotEnv.ByteLengthIs | internal/config/dotenv.go:27 | The length that limits a line is that of its UTF-8 encoding. |
| DotEnv.RunMeaning | internal/config/dotenv.go:27-55 | A load stops at the first line that has no "=" or is the first assignment of an unset key the system refuses, with that line's number; the lines before it take effect: what was set stays, an unset key gets its first listed value, no other key appears. |
| DotEnv.NeverOverrides | internal/config/dotenv.go:12-15 | Whatever the file holds and however the load ends, a set variable keeps its value. |
| DotEnv.RoundTrip | internal/config/dotenv.go:26-54 | A file of printed K="v" lines loads without error, and each unset key gets its first listed value exactly. |
| DotEnv.SurvivesIff | internal/config/dotenv.go:26-54 | A printed assignment is read back if and only if key, value and line length meet a condition checked on the text alone. |
| DotEnv.LongLineLost | internal/config/dotenv.go:26-55 | Every well-formed assignment whose line has 65 536 bytes or more is not set, and the load says so. |
| DotEnv.DecoratedLine | internal/config/dotenv.go:29-43 | Indentation, "export ", and space around key and value do not change what a quoted line assigns. |
| DotEnv.QuotesProtect | internal/config/dotenv.go:40-43 | A matching pair of quotes protects everything between them, " #" and further quotes included. |
| DotEnv.BareSurvives | internal/config/dotenv.go:40-48 | A value without quotes around it on the page is read as written if and only if it is trimmed, holds no " #" and is not itself in quotes. |
| Reference.NewReference | internal/db/store.go:57-69 | The loop prints the prefix in upper case, the date and the code. |
| Reference.Decodable | internal/db/store.go:57-69 | Equal references have equal upper-case prefix, date and code. |
| Reference.DateDecodable | internal/db/store.go:63 | Equal printed dates have equal two-digit year, month and day. |
| Reference.DateInOrder | internal/db/store.go:63 | The six digits are the decimal digits of year, month and day in this order. |
| Reference.Readable | internal/db/store.go:53-54 | A code consists of digits and capital letters without 0, O, 1 and I. |
| Reference.UpperCase | internal/db/store.go:61 | The prefix loses its small ASCII letters to capitals and keeps the rest. |
| Reference.CodesUnbiased | internal/db/store.go:53-67 | Each code of n symbols is yielded by exactly 8^n of the 256^n buffers of n bytes, and a text that is no such code by none. |
| Reference.SourcesAre | internal/db/store.go:65-67 | The set of buffers counted for a code holds exactly those that yield it. |
| Reference.SourcesSize | internal/db/store.go:65-67 | That set has 8^n members for every code of n symbols. |

## Left out

- HTTP serving, routing, middleware, content security policy, static files, templates and pages: a request is reduced to what the gate asks of it and a response to status and reference.
- Checking of weight, e-mail, service and origin, the client's address and its hash: inputs of the gate. The accepted weight may be NaN in the source, so no range is claimed for it; leads carry no weight here.
- net/mail, MIME, quoted-printable, JSON, HMAC and the regular expression engine: library code. The two phone patterns are written out as relations.
- The log and SES providers, the provider's name in events, the provider registry and the rest of the configuration.
- The text of error messages, and the provider's error body.
- PostgreSQL beyond transaction atomicity, the version table and the session lock. Migration files are taken to contain no transaction control, and a file's SQL is identified by its version. An unlock that fails is a session that ends.
- Migrate.Migrate: requires that a directory lists no name twice; a process that is killed returns nothing and is a run of the step machine only.
- Intake: store failures beyond MemoryStore are a refused call and an insert whose answer is lost; a call has no duration of its own.
- Quotes.HandleQuote: one request alone on the store; several at once are runs of the step machine.
- Randomness itself: ids, reference draws and buffers are parameters.
- The moment that an HTTP date names: a parameter of the claims about Retry-After.
- Real time: one monotone clock; a timer may fire late, and the lateness is part of the claim.
- Reference.NewReference: takes the date in UTC as three numbers, and unicode.ToUpper beyond ASCII as a parameter.
- PhonePattern.MatchedIff: plain ASCII only, because a browser's white space is not Go's.
- Byte strings that are not UTF-8: outside Utf8 a text is a string of characters, as a Go range loop yields them.
- DotEnv: setting a variable follows the rules of Unix systems; a line's length is that of its UTF-8 form.
