# GSM-Market server, modelled in Dafny

GSM-Market is a second-hand marketplace for the students of one school. It is an Express server over
MySQL, with socket.io for live chat. Users sign up with a school address and confirm it with a
mailed code. They post listings, mark favorites, chat with sellers and file reports. An
administrator reviews the reports and can remove users and listings.

This project models the server's request handlers and the rules under them. The MySQL tables are in-memory
sequences held by one `Store.Database` object, with each AUTO_INCREMENT counter beside its table.
Every handler becomes one of two things:

- a method that changes exactly the tables its `modifies` clause names, or
- a function of the tables.

Each one answers `Done(value)` or `Fail(status, message)` with the status code and message the
server sends.

A few things the server calls are outside the model and become parameters:

- the clock: `now`, in milliseconds;
- the token verifier;
- bcrypt's hash and compare;
- the random verification code;
- the result of sending mail;
- database errors, as a `fails` flag where they matter.

The modules follow the source files:

| module | file | what it holds |
|---|---|---|
| `Text`, `Rows` | shared | JavaScript string built-ins (`trim`, `toLowerCase`, `indexOf`, `replace`, `split`, `parseInt`, `String(n)`). SQL `WHERE`, `ORDER BY`, `LIMIT/OFFSET` and `Math.ceil` paging. |
| `Store` | shared | The row datatypes, the `Database` class and the handler answer type. |
| `ProfanityFilter` | src/utils/profanityFilter.js | Text normalisation, the word match and message validation. |
| `Students`, `Accounts` | src/controllers/authController.js | The school address pattern and student-number arithmetic. Registration, the e-mail code and login. |
| `Gates` | src/middleware/auth.js, src/routes/reports.js, src/routes/admin.js | The three token gates and the administrator checks. |
| `Upload` | src/utils/upload.js | The image filter, the stored file name and the size limit. |
| `SqlRunner` | run-sql.js | Splitting a SQL file into statements and the loop that runs them. |
| `Events`, `Chat`, `Sockets` | src/controllers/chatController.js, src/app.js | Conversations and messages over REST. The socket registry, its rooms and the events each handler emits. |
| `Products`, `ProductViews` | src/controllers/productController.js | Listing, creating, updating and deleting products. The in-memory view counter of the product page. |
| `Favorites`, `Reports`, `Users`, `Admin` | the four remaining controllers | The favorites set. Report filing and review. The caller's own products, nickname, avatar and account deletion. The administrator's lists and deletions. |

## Model

| member | source | states |
|---|---|---|
| Text.Trim | src/controllers/chatController.js:334 | `trim` gives the contiguous slice left once the white space at both ends is removed. Everything cut off is white space, and the result neither starts nor ends with white space. |
| Text.TrimEmptyIffBlank | src/utils/profanityFilter.js:124 | `trim()` is empty exactly when every character is white space. |
| Text.Lower | src/utils/profanityFilter.js:56 | `toLowerCase` maps each character on its own: upper-case ASCII letters become lower case and everything else stays. |
| Text.Without | src/utils/profanityFilter.js:59-62 | A global `replace(class, '')` keeps only characters outside the class, all taken from the input, and keeps every character outside the class. A one-character text is dropped or kept whole. A string without such characters is unchanged. |
| Text.WithoutAppend | src/utils/profanityFilter.js:59-62 | The replace works character by character: on a joined text it is the joined results, so with the one-character case every character outside the class is kept in order. |
| Text.IndexOf | src/utils/profanityFilter.js:94 | `indexOf` gives the first position where the pattern occurs, or reports that it occurs nowhere. |
| Text.IncludesIff | src/utils/profanityFilter.js:94 | `includes` holds exactly when the pattern occurs at some position. |
| Text.ReplaceFirst | src/routes/reports.js:15 | `replace(pat, rep)` with a string pattern replaces only the first occurrence. A string without the pattern is returned unchanged. |
| Text.ReplaceFirstOfPrefixed | src/routes/admin.js:16 | Removing `pat` from `pat + t` gives `t` back. |
| Text.Split | run-sql.js:34 | `split(sep)` gives at least one piece, and no piece holds the separator. |
| Text.SplitJoin | run-sql.js:33-34 | Joining the pieces of `split` with the separator gives the text back. |
| Text.NatString | src/app.js:96 | `String(n)` of a natural number is a non-empty string of digits with no leading zero. |
| Text.ParseDecimalString | src/controllers/productController.js:7-8 | `parseInt`, with or without radix 10, reads back exactly the integer that `String(n)` wrote. |
| Rows.Filter | src/controllers/productController.js:29-46 | `WHERE p` keeps exactly the rows satisfying `p`: every kept row is in the table and satisfies `p`, every such row is kept, and a table whose rows all satisfy `p` comes back whole. Order and multiplicity are stated by the three lemmas below. |
| Rows.FilterAppend | src/controllers/productController.js:29-46 | `WHERE` over a table split in two is the two filtered halves in the same order, so table order is kept. |
| Rows.FilterOne | src/controllers/productController.js:29-46 | A single row is kept exactly when it satisfies `p`. |
| Rows.FilterMultiset | src/controllers/productController.js:29-46 | Each selected row occurs as often in the result as in the table, and an unselected one not at all. |
| Rows.First | src/controllers/authController.js:94-99 | `WHERE p` read as its first row: a row of the table satisfying `p`, or none exactly when no row satisfies it. |
| Rows.SortBy | src/controllers/productController.js:49-55 | `ORDER BY key` gives a permutation of the rows with a non-decreasing key. |
| Rows.Page | src/controllers/productController.js:58 | `LIMIT l OFFSET o` gives the rows from position `o` on, at most `l` of them, or none past the end. |
| Rows.CeilDiv | src/controllers/productController.js:96 | `Math.ceil(total / limit)` is the least page count whose pages hold `total` rows. |
| Rows.PagesCoverAll | src/controllers/productController.js:96 | The page at offset `(page - 1) * limit` is non-empty exactly for the pages 1 to `totalPages`. |
| Rows.PageOffsetValue | src/controllers/productController.js:9 | The offset reached by stepping `limit` rows per page is `(page - 1) * limit`. |
| Store.Database.UserById | src/routes/reports.js:38-43 | `SELECT … FROM users WHERE id = ?` finds a row with that id, or there is none. |
| Store.Database.ProductById | src/controllers/productController.js:318-325 | `SELECT * FROM products WHERE id = ?` finds a row with that id, or there is none. |
| ProfanityFilter.CollapseRuns | src/utils/profanityFilter.js:65 | The `(.)\1{2,}` rewrite never lengthens the text, and every output character comes from the input. Its full effect on every run is CollapseByRuns. |
| ProfanityFilter.Runs | src/utils/profanityFilter.js:65 | Text cut into maximal runs: none exactly for empty text, the first run starts with the first character, no run is empty and neighbouring runs have different characters. |
| ProfanityFilter.RunsExpand | src/utils/profanityFilter.js:65 | Spelling the runs out again gives back the text. |
| ProfanityFilter.UncappedRun | src/utils/profanityFilter.js:65 | Where the pattern does not match at a run, because it is shorter than three or its character is a line terminator, the rewrite copies the run unchanged. |
| ProfanityFilter.CollapseByRuns | src/utils/profanityFilter.js:65 | The rewrite is the run-wise replacement over the whole text: every run of three or more copies of a character other than a line terminator becomes exactly two copies, and every other run is kept whole, in order. With RunsExpand, the rewrite only shortens runs. |
| ProfanityFilter.CollapseShape | src/utils/profanityFilter.js:65 | On text without line terminators, the rewrite keeps the first character, leaves a leading run of two or more as exactly two, and its whole result has no character three times in a row. |
| ProfanityFilter.CollapseFixed | src/utils/profanityFilter.js:65 | Text with no run of three equal characters is left unchanged by the rewrite. |
| ProfanityFilter.LowerFixed | src/utils/profanityFilter.js:56 | Lower-casing leaves text without upper-case ASCII letters unchanged. |
| ProfanityFilter.NormalizeIsNormal | src/utils/profanityFilter.js:53-76 | normalizeText's output has no upper-case ASCII letter, no white space, none of the 32 punctuation characters, and no character three times in a row. |
| ProfanityFilter.NormalizeIdempotent | src/utils/profanityFilter.js:56-65 | normalizeText applied to its own output changes nothing. |
| ProfanityFilter.AnyWordIn | src/utils/profanityFilter.js:90-97 | The loop over the word list succeeds exactly when some normalised word occurs in the normalised text. |
| ProfanityFilter.ContainsProfanity | src/utils/profanityFilter.js:84-112 | False for missing or empty text. Otherwise true exactly when some normalised list word occurs in the normalised text or in the normalised text with the specials stripped first. |
| ProfanityFilter.StrippedPassRedundant | src/utils/profanityFilter.js:101-102 | Stripping the special characters before normalising yields the same normalised text as normalising alone. |
| ProfanityFilter.ContainsProfanityFirstPass | src/utils/profanityFilter.js:84-112 | containsProfanity on non-empty text is exactly the first loop, so the second loop never decides anything. |
| ProfanityFilter.ValidateMessage | src/utils/profanityFilter.js:119-136 | The verdicts in order, each an if-and-only-if: a missing or empty message; a blank one; a profane one; otherwise valid. Valid means the message is not blank and matches no word. |
| Students.ValidateEmail | src/controllers/authController.js:7-10 | `/^s\d{5}@gsm\.hs\.kr$/i` accepts exactly the 16-character addresses that lower-case to `s` + five digits + the domain. |
| Students.StudentEmailValid | src/controllers/authController.js:9 | Every `s` + five digits + domain address passes, in either letter case. |
| Students.AdminEmailInvalid | src/controllers/authController.js:9 | The administrator's address `admin@gsm.hs.kr` does not pass. |
| Students.FirstMatch | src/controllers/authController.js:26-28 | `/s(\d+)/i` matches at the leftmost `s` or `S` followed by a digit, or nowhere. |
| Students.StudentDigits | src/controllers/authController.js:26-31 | The greedy `(\d+)` group is the whole non-empty digit run after the matched `s`. |
| Students.GradeOf | src/controllers/authController.js:35-40 | Entry years 23, 24 and 25 give grades 3, 2 and 1, and every other year gives none. |
| Students.Placement | src/controllers/authController.js:42-60 | Numbers 1 to 72 give class `(n-1)/18+1` and seat `(n-1)%18+1`, and every other number gives none. |
| Students.CalculateStudentInfo | src/controllers/authController.js:23-72 | Null exactly when one of three things holds: there is no match; the year is outside 23 to 25; or the rest is missing or outside 1 to 72. Otherwise the student number is `s` + the digits, the grade is `26 - year` and `(class-1)*18 + seat` equals the rest. |
| Students.ValidEmailStudentNumber | src/controllers/authController.js:26-31 | For a valid address the match is at position 0 and the digits are the five digits of the address. |
| Students.ValidEmailInfo | src/controllers/authController.js:23-67 | For a valid address the result is arithmetic on its five digits: the year from the first two, class and seat from the last three. |
| Students.ExampleStudent | src/controllers/authController.js:22 | An address with digits `25047` gives grade 1, class 3 and seat 11. |
| Accounts.StudentIsNotAdmin | src/controllers/authController.js:329 | No address that passes validateEmail equals the administrator's, in any letter case. |
| Accounts.StoredPassword | src/controllers/authController.js:111 | Every address that reaches the insert has its password hashed. |
| Accounts.Register | src/controllers/authController.js:75-227 | The failures, each an if-and-only-if and in order: bad format, a missing field, a password under 6 characters, an address already taken. Any failure changes nothing. A valid, complete request for a free address succeeds. On success the unverified non-admin user, with computed student info, and a code expiring 300000 ms later are appended, whether or not the mail was sent. Unique addresses and ids are preserved. |
| Accounts.LatestExpiry | src/controllers/authController.js:239-242 | `ORDER BY expires_at DESC LIMIT 1` over the matching codes gives the greatest expiry among them, or none. |
| Accounts.CheckCode | src/controllers/authController.js:234-253 | The answer is 400 for a missing field and 400 when no code matches. It succeeds exactly when some matching code has not expired. |
| Accounts.MarkVerified | src/controllers/authController.js:256-259 | Exactly the rows with that address become verified. |
| Accounts.DropCodes | src/controllers/authController.js:262-265 | Exactly the codes of other addresses remain, in table order and with their multiplicities: the result is `WHERE email <> ?` over the codes. |
| Accounts.VerifyEmail | src/controllers/authController.js:230-272 | The answer is CheckCode's. On success the account is verified and all its codes are deleted. On failure nothing changes. |
| Accounts.FreshCodeVerifies | src/controllers/authController.js:251-253 | A stored code verifies its address at any time up to its expiry, inclusive. |
| Accounts.Login | src/controllers/authController.js:275-397 | 400 for missing fields. 401 for an unknown address. 401 "verify first" exactly for an unverified non-admin account, before any password check. 500 exactly when bcrypt throws on a verified non-admin account. 401 "bad credentials" exactly when the password check runs and rejects the password. Success exactly when the password is accepted, with a token for the user's id. |
| Accounts.RegisteredMustVerify | src/controllers/authController.js:339-342 | A registered, unverified student gets 401 "verify first" whatever the password. |
| Accounts.Resend | src/controllers/authController.js:400-449 | 400 for a bad address, 404 for an unknown one and 400 for a verified one, each changing nothing. Otherwise a new code is appended and the old ones are kept. A failed send is a 500 exactly outside development mode, and every other request for an unverified account succeeds with the send result. |
| Gates.BearerToken | src/middleware/auth.js:6-11 | A token is taken exactly when the header starts with `Bearer `; it is the rest of the header. |
| Gates.Authenticate | src/middleware/auth.js:3-22 | 401 exactly without a `Bearer ` header. 401 for a falsy verification, 500 when the verifier throws, otherwise the claimed id. |
| Gates.StrippedToken | src/routes/reports.js:15 | `authorization?.replace('Bearer ', '')` cuts out the first `Bearer ` wherever it is, keeps a header without one whole, and gives nothing for a missing header. |
| Gates.ReportsAuthenticate | src/routes/reports.js:13-31 | Passes exactly for a non-empty stripped token whose claims carry a truthy id, and answers with that id. Every failure is the same 401. |
| Gates.CheckAdmin | src/routes/reports.js:34-52 | Passes exactly when the caller's first row has a non-zero `is_admin`, otherwise 403. |
| Gates.ReportsGate | src/routes/reports.js:55-61 | Filing needs only authentication. Listing and reviewing also need the administrator check. |
| Gates.AdminGate | src/routes/admin.js:14-43 | 401 for a missing token, a falsy verification or a falsy id. 500 when the verifier throws. Otherwise the administrator check. |
| Gates.AdminGatesAgree | src/routes/admin.js:14-46 | The admin router and the reports router's admin routes let exactly the same callers through, with the same answer. They differ only on a verifier exception. |
| Gates.TokenRulesAgree | src/routes/reports.js:15 | For a `Bearer <token>` header, both extraction rules give the same token. |
| Gates.StrictImpliesLoose | src/middleware/auth.js:6-19 | Whoever passes auth.js with a non-empty token and a truthy id passes the reports gate with the same id. |
| Gates.BareTokenOnlyLoose | src/routes/reports.js:15-16 | A bare token without the scheme reaches the verifier under the reports gate but is refused by auth.js. |
| Upload.BaseName | src/utils/upload.js:33 | `path.basename` has no slash. |
| Upload.ExtName | src/utils/upload.js:33 | `path.extname` is empty or a dot followed by text without a dot or slash. |
| Upload.FileFilter | src/utils/upload.js:26-41 | A file passes exactly when its lower-cased extension and its mimetype both mention jpeg, jpg, png, gif or webp. Otherwise the error is "images only". |
| Upload.StemPlain | src/utils/upload.js:21 | The `Date.now()-random` stem has no dot and no slash. |
| Upload.ExtNameOfPlainStem | src/utils/upload.js:22 | A plain stem plus an extension has exactly that extension. |
| Upload.StoredNameKeepsExtension | src/utils/upload.js:20-23 | The stored name has the original file's extension. |
| Upload.UpperCaseExtensionPasses | src/utils/upload.js:32-36 | `photo.JPG` sent as `image/jpeg` passes. |
| Upload.DotFileRefused | src/utils/upload.js:33 | `.png` has no extension, so it is refused whatever its mimetype. |
| Upload.Accept | src/utils/upload.js:43-47 | A file is stored exactly when it passes the filter and is at most 5 MiB, under a name that keeps its extension. Otherwise the error names the failing check. |
| SqlRunner.TrimAll | run-sql.js:35 | Each piece is trimmed. |
| SqlRunner.Statements | run-sql.js:33-36 | Every statement is non-empty, holds no `;`, does not start with `--` and has no white space at its ends. |
| SqlRunner.SplitAt | run-sql.js:34 | Splitting `a;b` gives `a` followed by the pieces of `b`. |
| SqlRunner.StatementsOfPieceAndRest | run-sql.js:33-36 | A file gives its first piece's statement, if the piece is kept, followed by the statements of the rest. |
| SqlRunner.CommentSurvivesTrim | run-sql.js:36 | A piece starting with `--` is not kept after trimming. |
| SqlRunner.CommentedPieceDropped | run-sql.js:36 | A piece starting with `--` is dropped whole, even when SQL follows on a later line. |
| SqlRunner.RouteOf | run-sql.js:45-49 | A statement goes through `query` exactly when it mentions PREPARE, EXECUTE or DEALLOCATE. |
| SqlRunner.RunFrom | run-sql.js:41-59 | The run completes exactly when every error is ignorable. Otherwise it aborts at the first error that is not ignorable. |
| SqlRunner.RunStatements | run-sql.js:41-59 | The loop's outcome is RunFrom's. It sends the statements in order, each by its route, up to and including the one that aborts, and nothing after it. |
| Events.RoomName | src/app.js:96 | Personal rooms are named `user_<id>` and conversation rooms `conversation_<id>`. |
| Events.IdTextInjective | src/app.js:102 | Different ids, `undefined` included, give different texts. |
| Events.RoomNameInjective | src/app.js:96-108 | Different rooms have different names. |
| Events.MessageEmissions | src/controllers/chatController.js:384-396 | After a stored message: `new_message` to the conversation room, then `conversation_updated` to the buyer's and to the seller's personal rooms. |
| Chat.Counterpart | src/controllers/chatController.js:36-44 | The seller for the buyer, the buyer for anyone else. A participant's counterpart is a participant. |
| Chat.ParticipantConversation | src/controllers/chatController.js:284-287 | Finds a conversation with that id in which the user takes part, or there is none. |
| Chat.FindByTriple | src/controllers/chatController.js:96-99 | Finds a conversation with that product, buyer and seller, or there is none. |
| Chat.MessagesOf | src/controllers/chatController.js:302-312 | The conversation's messages, as a permutation of the filtered rows, ascending by `created_at`. |
| Chat.MarkRead | src/controllers/chatController.js:315-318 | Exactly the messages of the conversation that are from others and unread get `is_read` set. Every other message and field is unchanged. |
| Chat.MarkReadClears | src/controllers/chatController.js:315-318 | After marking, the unread count is 0, and marking again changes nothing. |
| Chat.MarkReadKeepsOthers | src/controllers/chatController.js:315-318 | Messages of other conversations, and the reader's own messages, are untouched. |
| Chat.LastMessage | src/controllers/chatController.js:45-46 | A message of the conversation with the greatest `created_at`, or none exactly when the conversation has no message. |
| Chat.MyConversations | src/controllers/chatController.js:48-53 | Exactly the user's joined conversations, each from the table with the user as a participant and its product and both users present, with the multiplicities of the filtered table, by `updated_at` descending. |
| Chat.ListConversations | src/controllers/chatController.js:6-70 | A caller with an id always succeeds, with one row per listed conversation, in order, each with its counterpart, last message and unread count. A missing id gives 500. |
| Chat.GetConversation | src/controllers/chatController.js:163-275 | A caller with an id gets either the conversation or 403. 403 exactly when no joined conversation with that id has the caller as a participant. Otherwise that conversation, joined, with its product row and the counterpart's user row. |
| Chat.GetOrCreateConversation | src/controllers/chatController.js:73-160 | 404 for an unknown product and 400 for its owner, changing nothing; a missing caller id gives 500. Any other caller succeeds. An existing (product, caller, owner) conversation comes back with its messages and nothing changes. Otherwise exactly one conversation is appended, with the caller as buyer, the owner as seller and no messages. One conversation per triple is preserved. |
| Chat.GetMessages | src/controllers/chatController.js:278-325 | 403 for a non-participant, changing nothing. Otherwise the conversation's messages as they were before, after which MarkRead is applied. |
| Chat.Touch | src/controllers/chatController.js:355-358 | Only the conversation with that id gets the new `updated_at`. |
| Chat.TouchKeepsValid | src/controllers/chatController.js:355-358 | Bumping keeps one conversation per triple and all ids below the counter. |
| Chat.PersistMessage | src/controllers/chatController.js:349-358 | One unread message with the next id is appended, and the conversation is bumped. |
| Chat.SendMessage | src/controllers/chatController.js:328-403 | 400 for blank content, checked before the 403 for a non-participant; neither changes anything. Non-blank content that is not text, or a missing caller id, gives 500. A participant sending non-blank text succeeds: the trimmed content is stored with the caller as sender, the conversation is bumped and the three emissions follow. |
| Chat.SentByParticipant | src/controllers/chatController.js:339-352 | A message is stored only in a conversation the sender takes part in. |
| Sockets.Handshake | src/app.js:76-89 | A missing or empty token is refused. Otherwise the connection is accepted exactly when the verifier returns claims, and is bound to their possibly missing id. |
| Sockets.Registry.constructor | src/app.js:74 | The map starts empty. |
| Sockets.Registry.Connect | src/app.js:91-96 | A refused socket leaves everything as it was. An accepted one is bound to its user, registered in `userSockets` over any earlier socket of that user, and joins `user_<id>` only. |
| Sockets.Registry.Disconnect | src/app.js:257-260 | The socket's binding and rooms go away, and the user's `userSockets` entry is deleted even if it names a newer socket. |
| Sockets.Registry.Join | src/app.js:101-104 | Exactly `conversation_<id>` is added to the socket's rooms. |
| Sockets.Registry.Leave | src/app.js:107-110 | Exactly `conversation_<id>` is removed from the socket's rooms. |
| Sockets.Registry.Recipients | src/app.js:240-254 | An emission reaches exactly the sockets in its room, minus the excluded one. |
| Sockets.Registry.Typing | src/app.js:240-254 | One `user_typing` or `user_stopped_typing` event goes to the conversation room, never to the sender. Nothing is stored. |
| Sockets.PersonalRoomReachesAll | src/app.js:96 | Every connected socket of a user receives what goes to that user's room. |
| Sockets.ParticipantsNotified | src/app.js:189-197 | Each participant's connected socket receives `conversation_updated`. |
| Sockets.SendMessage | src/app.js:113-205 | Content that is not a string fails the send. Otherwise the ack errors in order: no content, no user, then a conversation the user is not in; a missing conversation id fails the send. Each leaves the tables and the emissions empty. A participant sending non-blank text gets a successful ack: the message is stored as over REST, the three emissions follow and the ack carries the message. |
| Sockets.MarkMessagesRead | src/app.js:208-237 | Nothing happens without ids or for a non-participant. Otherwise MarkRead is applied and `messages_read` goes only to the counterpart's room. |
| Products.NumberOr | src/controllers/productController.js:7-8 | `parseInt(x) \|\| fallback`: NaN and 0 give the fallback. |
| Products.NumberOrReadsBack | src/controllers/productController.js:7-8 | A non-zero number written by the client is read back as itself. |
| Products.CategoryFilter | src/controllers/productController.js:30-33 | The category filter is on exactly when the parameter is not blank. |
| Products.StatusFilter | src/controllers/productController.js:36-39 | The status filter is on exactly for SELLING and SOLD. |
| Products.OrderOf | src/controllers/productController.js:49-55 | `price_asc` and `price_desc` sort by price, and anything else sorts newest first. |
| Products.Ordered | src/controllers/productController.js:29-55 | The products passing the filters, each from the table, with the multiplicities of the filtered table, in the requested order. |
| Products.Listing | src/controllers/productController.js:58-63 | The page of Ordered at offset `(page - 1) * limit`: at most `limit` rows, each passing the filters, in order. |
| Products.ListingCoversPages | src/controllers/productController.js:90-97 | The page is non-empty exactly for pages 1 to `totalPages`. |
| Products.GetProducts | src/controllers/productController.js:4-107 | 500 exactly for a page or limit below 1. Otherwise the page of the ordered rows, with `total` counting the same filter and `totalPages` as `ceil(total/limit)`. |
| Products.PriceFromText | src/controllers/productController.js:222-235 | After removing commas, trimming and `parseInt(…, 10)`: NaN or a negative value gives 400 "bad price", above 2147483647 gives 400, otherwise the number. |
| Products.CommasIgnored | src/controllers/productController.js:222 | `a,b` is read as `ab`. |
| Products.PriceReadsBack | src/controllers/productController.js:222-235 | Every price from 0 to 2147483647 is read back exactly, whether sent as text or as a number. |
| Products.CategoryOrOther | src/controllers/productController.js:218-219 | A category in the list is kept, and anything else becomes `기타`. |
| Products.CreateChecks | src/controllers/productController.js:191-296 | The first failing check decides the answer: title, price, description (400), user (401), image (400), the price's value (400), then a seller without an account row (400). When every check passes, the answer is the accepted price, between 0 and 2147483647. |
| Products.CreateProduct | src/controllers/productController.js:171-307 | A failure of CreateChecks answers with its status and message and changes nothing. Otherwise one SELLING row is appended with trimmed text, the category from CategoryOrOther and zero views. |
| Products.NumberOf | src/controllers/productController.js:340 | `Number(s)` of a text is a number exactly when the trimmed text is empty or a signed run of decimal digits. A blank text is 0. |
| Products.NumberOfPadded | src/controllers/productController.js:340 | `Number` of the decimal text of any integer, with white space on either side, is that integer. |
| Products.ParseIntAgreesWithNumber | src/controllers/productController.js:340-345 | Wherever `Number(s)` is a number and the text is not blank, `parseInt(s)` is the same number; on a blank text `parseInt` is NaN. |
| Text.TrimPadded | src/controllers/productController.js:340 | `trim` removes exactly the white space around a text that neither starts nor ends with white space. |
| Products.UpdatePrice | src/controllers/productController.js:339-345 | An absent price leaves the column. NaN or a negative value gives 400. A blank text passes the check but cannot be stored (500), and so does a value above 2147483647, which the INT column refuses. Otherwise the value is stored, and it is both `parseInt`'s and `Number`'s reading of the text, between 0 and 2147483647. |
| Products.CollectChanges | src/controllers/productController.js:331-368 | Only truthy or valid fields are collected; an unknown category or status is dropped silently; nothing to change gives 400. |
| Products.Apply | src/controllers/productController.js:372-375 | Each supplied column takes its new value, and every other column keeps its old one. |
| Products.UpdateRows | src/controllers/productController.js:372-375 | Only rows with that id change. |
| Products.UpdateProduct | src/controllers/productController.js:310-393 | 404 for an unknown id, then 403 for a non-owner, then CollectChanges' error (including the 500 for a price the INT column refuses), each changing nothing. Otherwise the changes are applied to that id. |
| Products.UpdateKeepsBlankTitle | src/controllers/productController.js:335-338 | A white-space title that creation refuses is stored unchanged by an update. |
| Products.DeleteRows | src/controllers/productController.js:415 | Exactly the rows with other ids remain, in table order and with their multiplicities: `WHERE id <> ?` over the table. |
| Products.DeleteProduct | src/controllers/productController.js:396-422 | 404 for an unknown id and 403 for a non-owner, changing nothing. The owner of an existing product succeeds. On success the rows with that id are deleted and nothing else changes. |
| ProductViews.Visitor | src/controllers/productController.js:120 | `userId \|\| req.ip \|\| 'anonymous'`, never empty. |
| ProductViews.KeysSeparateUsers | src/controllers/productController.js:120 | Two different signed-in users get different keys for one product. |
| ProductViews.KeysSeparateProducts | src/controllers/productController.js:120 | One visitor gets different keys for different products. |
| ProductViews.Recent | src/controllers/productController.js:133-140 | Exactly the entries no older than the cutoff, with their times. |
| ProductViews.RepeatWithinWindowNotCounted | src/controllers/productController.js:121-131 | After a counted view, the same key within the hour is not counted. |
| ProductViews.PruneKeepsRecentOnly | src/controllers/productController.js:133-140 | After pruning, no entry is older than a day and every younger one is kept. |
| ProductViews.AddView | src/controllers/productController.js:126-129 | Only rows with that id gain one view. |
| ProductViews.FirstAfterView | src/controllers/productController.js:143-157 | The row read after counting is the same row with one view more. |
| ProductViews.ViewTracker.constructor | src/controllers/productController.js:111 | The map starts empty. |
| ProductViews.ViewTracker.Prune | src/controllers/productController.js:135-139 | The deleting loop over the entries leaves exactly the entries no older than the cutoff. |
| ProductViews.ViewTracker.RecordView | src/controllers/productController.js:118-141 | A view is counted exactly when more than 3600000 ms have passed since the key's last counted view. A counted view sets the key to now, prunes over 10000 entries and adds one view; otherwise nothing changes. |
| ProductViews.GetProduct | src/controllers/productController.js:113-168 | The view is counted before the lookup. The tracker map becomes the after-view map exactly when the view is counted, and the table gains one view exactly then. 404 exactly for an unknown id. Otherwise the row, one view higher when counted. |
| Favorites.RemovePair | src/controllers/favoriteController.js:31-34 | The pair set loses exactly that pair. |
| Favorites.Toggled | src/controllers/favoriteController.js:29-43 | A present pair is removed and an absent pair is added. |
| Favorites.ToggleTwiceRestores | src/controllers/favoriteController.js:29-43 | Toggling twice gives back the pair set. |
| Favorites.ToggleKeepsOtherPairs | src/controllers/favoriteController.js:29-43 | Other pairs keep their membership. |
| Favorites.ToggleFavorite | src/controllers/favoriteController.js:4-48 | 401 without a user and 404 for an unknown product, changing nothing. Otherwise the pair is toggled; the flag equals the new membership and the message matches it. |
| Favorites.FavoriteStatus | src/controllers/favoriteController.js:51-70 | True exactly with a truthy user whose (user, product) row exists. |
| Favorites.StatusAfterToggle | src/controllers/favoriteController.js:56-65 | The status after a toggle is the negation of the status before. |
| Favorites.ShownFavorites | src/controllers/favoriteController.js:77-89 | Exactly the caller's favorites whose product and seller rows exist, each from the table, with the multiplicities of the filtered table, newest favorite first. |
| Favorites.FavoriteProducts | src/controllers/favoriteController.js:73-96 | 500 exactly without a user id. Otherwise one row per shown favorite of the caller, in the same order: the i-th row carries the i-th favorite's time and the product row it names, so each row is a product the caller marked, newest favorite first. |
| Reports.CreateReport | src/controllers/reportController.js:4-55 | 400 for a missing field, then for an unknown type, then for a PENDING duplicate by the same reporter, each changing nothing. Otherwise one PENDING row is appended, with no description when none is given. |
| Reports.FiledReportBlocksRepeat | src/controllers/reportController.js:21-28 | A filed report blocks the same report until it is reviewed. |
| Reports.ReviewedReportDoesNotBlock | src/controllers/reportController.js:21-28 | A report that is not PENDING does not block. |
| Reports.Reviewed | src/controllers/reportController.js:130-140 | PENDING clears the reviewer and the review time. Any other status sets them to the admin and now. Every other column is kept. |
| Reports.ReviewRows | src/controllers/reportController.js:130-140 | Only rows with that id change. |
| Reports.UpdateReportStatus | src/controllers/reportController.js:111-149 | 400 for an invalid status, even for an unknown id, then 404, each changing nothing. Otherwise ReviewRows. |
| Reports.ReopenedReportBlocks | src/controllers/reportController.js:130-134 | Reopening a report makes it block its reporter again. |
| Reports.AllReports | src/controllers/reportController.js:58-108 | Exactly the reports passing both filters, each from the table, with the multiplicities of the filtered table, newest first. |
| Users.MyPage | src/controllers/userController.js:56-67 | The page at offset `(page - 1) * limit` of MyOrdered: at most `limit` of the caller's joined products, newest first. |
| Users.MyOrdered | src/controllers/userController.js:56-67 | The caller's products whose account row exists, with the multiplicities of the filtered table, newest first. |
| Users.MyProducts | src/controllers/userController.js:41-94 | 401 without a truthy id; 500 exactly for page or limit below 1. Otherwise the page, with `total` counting all the caller's products without the join, and `ceil(total/limit)` pages. |
| Users.JoinAgreesWithCount | src/controllers/userController.js:56-75 | While the account row exists, the joined rows are exactly the counted ones. |
| Users.SetNickname | src/controllers/userController.js:111-114 | Only the caller's row takes the nickname. |
| Users.UpdateNickname | src/controllers/userController.js:97-130 | 400 when the trimmed nickname has fewer than 2 characters and 400 when it has more than 20, changing nothing. Otherwise the trimmed nickname, 2 to 20 characters, is stored and read back. |
| Users.AvatarUrl | src/controllers/userController.js:147-164 | 400 for no file, 400 for a type outside the four, 400 for a size outside 0.1 to 5 MiB. Otherwise `/uploads/<filename>`. |
| Users.AvatarSizeBounds | src/controllers/userController.js:159-162 | 104858 and 5242880 bytes pass, and 104857 and 5242881 do not. |
| Users.SetAvatar | src/controllers/userController.js:201-204 | Only the caller's row takes the address. |
| Users.UploadAvatar | src/controllers/userController.js:133-230 | The checks' error changes nothing. Otherwise the caller's avatar is set and its address returned. |
| Users.DeleteAccount | src/controllers/userController.js:233-380 | 400 without a password, then 404, then 500 when bcrypt's compare throws (a missing caller id also gives 500), then 401 for a wrong password, then 500 exactly when the transaction fails or the address is still found afterwards. Each failure changes nothing. A right password with a transaction that goes through succeeds. On success the codes, favorites, messages of the user's conversations, those conversations, products and the account row are deleted, each table filtered by its own condition. |
| Users.RemoveAccount | src/controllers/userController.js:266-309 | The six deletes of the transaction: each table becomes the old table filtered by its own condition on the user. |
| Users.NothingLeftBehind | src/controllers/userController.js:266-348 | After deletion, no row, code, favorite, product or conversation of the user is left. Every remaining message lies in a conversation without the user. |
| Admin.DropTrailingZero | src/controllers/adminController.js:39 | `replace(/\s*0\s*$/, '')` cuts at the leftmost position where the pattern matches, or leaves the text whole when it matches nowhere. |
| Admin.CleanNickname | src/controllers/adminController.js:37-40 | An empty nickname stays empty. Any other is trimmed after the cut. |
| Admin.KeptWithoutZero | src/controllers/adminController.js:39 | Without a `0` as the last non-blank character the pattern matches nowhere and the text is left whole. |
| Admin.CleanDropsOneZero | src/controllers/adminController.js:39 | A nickname with `0` appended comes back as the trimmed original. |
| Admin.CleanKeepsEarlierZero | src/controllers/adminController.js:39 | Only one `0` goes: `x00` becomes `x0`. |
| Admin.CleanWithoutZero | src/controllers/adminController.js:39 | A nickname whose last non-blank character is not `0` is only trimmed. |
| Admin.AllUsers | src/controllers/adminController.js:27-47 | The cleaned rows of every account, each once with its multiplicity, without the password column, newest first. |
| Admin.AllUsersListsEveryAccount | src/controllers/adminController.js:29-42 | Each row is a cleaned account, and each account has a cleaned row. |
| Admin.AllProducts | src/controllers/adminController.js:4-24 | A permutation of the products, newest first. |
| Admin.SkipSqlSpace | src/controllers/adminController.js:75 | MySQL's reading of the id text skips the leading white space and only that. |
| Admin.WholeValue | src/controllers/adminController.js:75 | A number with no negative power of ten, and the number 0, is a whole number. |
| Admin.SqlReadsDecimal | src/controllers/adminController.js:75 | MySQL reads the decimal text of every integer back as that integer. |
| Admin.PlainIdsAgree | src/controllers/adminController.js:70-75 | On the decimal text of an integer, the guard's `parseInt` and the DELETE's conversion read the same id. |
| Admin.DeleteUser | src/controllers/adminController.js:64-82 | 400 exactly when `parseInt(id)` is the admin's own id, changing nothing. Any other id succeeds, deleting exactly the rows whose id is the number MySQL reads from the text, with the others kept in order. |
| Admin.SelfDeleteBypass | src/controllers/adminController.js:70-75 | `120e-1` is 120 to `parseInt` but 12 to MySQL: administrator 12 passes the guard and the row is deleted. |
| Admin.DeleteUserChecked | src/controllers/adminController.js:64-82 | The corrected handler: 400 exactly when MySQL's reading of the id is the admin's own id. Otherwise as DeleteUser, and every row of the administrator is still there afterwards. |
| Admin.AdminSurvivesDeleteUser | src/controllers/adminController.js:69-75 | Under the corrected guard the administrator's row survives every deletion it lets through. |
| Admin.AdminSurvivesPlainId | src/controllers/adminController.js:69-75 | Under the guard as written, the administrator's row survives every deletion by the decimal text of an integer. |
| Admin.DeleteProduct | src/controllers/adminController.js:50-61 | The rows with that id are deleted, with no existence or ownership check. |

## Left out

- Text.Lower: `toLowerCase` is modelled for ASCII letters only. Other scripts pass through unchanged.
- String lengths count code points. JavaScript counts UTF-16 units, so the two differ for characters outside the Basic Multilingual Plane. This matters for the nickname length and `password.length`.
- ProfanityFilter.CollapseRuns and ProfanityFilter.CollapseByRuns: the pattern `/(.)\1{2,}/g` has no `u` flag, so JavaScript compares UTF-16 units. Three identical characters outside the Basic Multilingual Plane are kept there, but the model cuts them to two.
- SQL string comparison is exact. MySQL's default collation ignores case and trailing spaces.
- `LIKE '%k%'` is modelled as a substring test. `%` and `_` inside the keyword are not treated as wildcards.
- Rows with equal sort keys can come back in any order. For the sorted lists the model promises the sorted order and the same rows with the same multiplicities as the filtered table, not the order of ties.
- `DATETIME` columns are whole-second times in MySQL but milliseconds here.
- Products.NumberOf: only the decimal-integer forms of `Number()` are modelled. Decimals, exponents, `0x` and `Infinity` are treated as NaN here.
- Products.UpdatePrice: a price given as a non-integer JSON value is not modelled. An update price of 12.5 passes the check and is stored as 12. A null price passes `isNaN` and binds `parseInt(null)`, which is NaN. Booleans are not modelled either.
- Values above 2^53 lose precision in JavaScript. The model does not capture this.
- Display columns computed by joins are not modelled. These are `seller_nickname`, `seller_email` (getAllProducts), `is_mine`, `favorite_count`, `chat_count`, `is_deleted_user`, the sender nickname and the `student_number` columns.
- The schema probes through INFORMATION_SCHEMA are not modelled. Every optional column is assumed present: `is_admin`, the student columns, `avatar_url` and `view_count`.
- Route parameters such as product, conversation and report ids are taken as already-parsed integers. The exception is the admin deleteUser id, which keeps its text.
- Admin.SqlIdValue: MySQL converts the id text to a DOUBLE. The model reads it exactly as a decimal number, so rounding of long mantissas and overflow of huge exponents are not modelled. A text with trailing junk is read up to the junk, as MySQL does outside strict mode; a strict server may answer 500 instead.
- Body fields are modelled as absent or strings, with three exceptions. The chat `content` may also be a non-string value. The product `price` may also be an integer number; null, fractions and booleans are not modelled. The report `targetId` is an optional integer.
- Foreign-key cascades run when a user or product row is deleted by the admin routes, deleteProduct or deleteAccount. Those cascades are not modelled; only the rows the handler deletes itself are removed. For deleteAccount this leaves other users' favorites of the deleted user's products in place.
- Products.CreateProduct: the multer error handler in front of POST /products is not modelled. It turns upload errors into 400s. Database error codes other than the missing seller row are not modelled either.
- ProductViews.GetProduct: the route is not authenticated, so `req.userId` is always missing there. The key is built from the address, or `anonymous`.
- The `ip` is a parameter.
- uploadAvatar is not mounted in src/routes/users.js. It is modelled as a handler.
- The deletion of the previous avatar file, a filesystem side effect, is not modelled.
- Mail delivery, bcrypt, JWT signing and verification, and random code generation are outside the model. They appear as parameters.
- Concurrency is not modelled: handlers interleaving at `await`, and the transaction isolation of register and deleteAccount. Each handler runs atomically.
- CORS, the health route and the Express and socket.io plumbing are not modelled.
- getMyInfo is not modelled. It is outside the listed operations: one row read by id.
- `process.exit` in run-sql.js is the `Aborted` result. The database connection is not modelled.

## Findings

| source | as written | input that shows it | evidently intended | confidence | as-written member | corrected member |
|---|---|---|---|---|---|---|
| src/controllers/adminController.js:70-75 | The self-delete guard compares `parseInt(id)` with the administrator's id, but `DELETE FROM users WHERE id = ?` is given the raw text, which MySQL reads as a number of its own. | Administrator 12 sends id `120e-1` (or `1.2e1`): `parseInt` reads 120, MySQL reads 12. | An administrator can never delete their own account. | not executed | Admin.SelfDeleteBypass | Admin.DeleteUserChecked |
