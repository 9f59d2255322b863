# FotaSecure, modelled in Dafny

FotaSecure is a firmware-over-the-air management service. Operators log
in, register devices under a device group, upload firmware images for a
target group (the server stores the blob and records its SHA-256 digest and
an HMAC-SHA256 under a master key), and trigger update jobs. A trigger sizes
the job by the devices in the firmware's target group, stores it with the
input's status (`pending` by default), and then a scheduled body walks it
through `in_progress`, one step per device, and `completed`, broadcasting
each step to the WebSocket subscribers on `/ws/updates`. Any job can be
"rolled back", which creates a new job from the old one's parameters. Every mutating route writes
an audit entry. In the browser, the firmware upload page checks the chosen
file's size and extension, and the device list shows an online/offline
badge. The browser's crypto helpers (AES-GCM encryption with the tag split
off, the SHA-256 fingerprint in hex, the byte string for base64) are
modelled too, but the upload page never calls them: it uploads the plain
file.

The model has one module per part of the system:

- `Basics`: optional values, bytes, replies with status codes, and decimal numerals.
- `Tables`: tables as maps from ids to rows, `ORDER BY ... DESC` as PostgreSQL evaluates it (NULLs first), `LIMIT`, and `count(*)`.
- `Schema`: the five record types, their insert inputs and the column defaults.
- `Storage`: the class `DatabaseStorage`, whose methods insert, update and list rows in place, with a ghost log of the writes issued to the job table.
- `Progression`: the writes and broadcasts that the scheduled body of a trigger issues, and what they guarantee.
- `Routes`: the class `Server`, holding the route handlers, the blob store (a map from path to bytes) and the subscriber set of the broadcaster.
- `Auth`: the token extraction, authentication and role gate of the middleware.
- `HexEncoding`: lowercase hex encoding and its inverse.
- `ClientCrypto`: the browser's encryption helpers, which no page calls.
- `FileSelection`: the upload widget's checks and its component state, as a class.
- `DeviceStatus`: the last-seen badge.

SHA-256, HMAC-SHA256, AES-GCM, bcrypt, JWT signing and verification, the
random source and the clock are parameters: functions a `Server` is built
with, or arguments of the functions that use them.

Behaviours of the code that the model keeps as written:

- The scheduled body stores progress 100 at every device step. It broadcasts the rounded percentage `round(100 * i / n)` (`Progression.StepCounters`, `Progression.ProgressionEventOrder`). A job with no devices ends `completed` with stored progress 0 (`Routes.Server.TriggerAndRun`).
- A status write checks nothing about the current status, so a `completed`, `failed` or `cancelled` job can be overwritten (`Storage.TerminalStatusOverwritten`).
- Rollback copies the original job's firmware id unchanged. The new job stays `pending`, because nothing schedules it.
- Registration stores whatever role the request names, and an admin passes every role gate (`Auth.SelfChosenAdminPassesEveryGate`). No route in `server/routes.ts` applies the role gate, though: the routes are guarded by `authenticateToken` alone, so in this program the role gate guards nothing.
- The token is the second space-separated word of the `Authorization` header. The first word is not checked to be `Bearer`, later words are ignored, and two spaces in a row leave an empty second word, hence no token and a 401 (`Auth.SchemeNotChecked`).
- The blob name is `<milliseconds>-<original name>`. Two uploads of the same name in the same millisecond therefore write the same path, and the later bytes replace the earlier ones, leaving the earlier record with a digest that no longer matches its blob (`Routes.Server.UploadTwiceSameMillisecond`). No other pair of uploads collides (`Routes.UploadFilenameInjective`), and an upload to a fresh path keeps every record's digest true (`Routes.FreshPathKeepsDigests`).
- The job insert input may set `status`. Only the counters, ids and timestamps are out of its reach.
- The widget lowers the file name but not the `accept` filter. A filter with a capital letter after its first dot refuses every file (`FileSelection.CapitalFilterRefusesAll`).
- The extension test does not require the dot, so "firmwarebin" passes ".bin" (`FileSelection.DefaultChecks`).

## Model

| member | source | states |
|---|---|---|
| Basics.DecimalRoundTrip | server/routes.ts:142 | the decimal numeral of a millisecond count reads back as that number |
| Routes.UploadFilenameInjective | server/routes.ts:142 | equal blob names come from the same millisecond and the same original name |
| Tables.SortDesc | server/storage.ts:73 | `ORDER BY ... DESC`: the result is a permutation of the rows, in descending key order with NULL keys first |
| Tables.Take | server/storage.ts:182 | `LIMIT n`: a prefix of the ordered rows of exactly `n` rows when there are more, and all of them otherwise |
| Tables.Rows | server/storage.ts:73 | reading a table out lists every key exactly once and each row under its key |
| Tables.ListingCount | server/routes.ts:267 | counting a predicate over any listing of a table equals the `count(*)` of the rows that satisfy it |
| Tables.ListingRows | server/storage.ts:125-131 | a listing has as many entries as the table has rows, and holds exactly the table's rows |
| Tables.CountPermutation | server/routes.ts:267 | the `filter(...).length` of rows depends only on which rows there are, not on their order |
| Tables.CountRows | server/storage.ts:191-213 | `count(*) ... WHERE p`: the number of rows of the table satisfying `p` |
| Tables.Find | server/storage.ts:56-59 | a lookup by column finds a matching row whenever one exists, and none otherwise |
| Schema.NewUser | shared/schema.ts:7-13 | a stored user has the given id, username and (hashed) password; the role defaults to operator when the input omits it |
| Schema.NewDevice | shared/schema.ts:15-24 | a registered device keeps its identifier and group and has never been seen (`lastSeenAt` cannot be set by the input) |
| Schema.NewFirmware | shared/schema.ts:26-40 | the uploader, storage path, digest and HMAC are the server's values, not the input's; firmware is active when the input omits the flag and takes the input's flag otherwise |
| Schema.NewUpdateJob | shared/schema.ts:42-55 | a new job starts with progress and both device counters 0 whatever the input; status defaults to pending, strategy to sequential, total devices to 0 |
| Schema.NewAuditLog | shared/schema.ts:57-65 | an audit entry records the given user, action, target and details under a fresh id |
| Storage.ApplyWrite | server/storage.ts:150-167 | an update touches only the row with the given id and only the columns it sets (progress and counters, or status), plus `updatedAt`; an unknown id changes nothing |
| Storage.ApplyWritesSnoc | server/storage.ts:150-167 | applying one more write to the job table acts on the table the earlier writes left |
| Storage.TerminalStatusOverwritten | server/storage.ts:162-167 | a completed, failed or cancelled job's status is replaced by any later status write |
| Storage.SuccessRateTenths | server/storage.ts:215-221 | the success rate is 0 with no finished job, otherwise the completed share of finished jobs rounded half up to tenths of a percent, never above 100.0 |
| Storage.DatabaseStorage.constructor | server/storage.ts:226 | the storage starts with all tables empty and keeps its invariant: rows keyed by their own fresh ids, usernames and device identifiers unique |
| Storage.DatabaseStorage.GetUser | server/storage.ts:51-54 | the user with that id, or nothing when there is none |
| Storage.DatabaseStorage.GetUserByUsername | server/storage.ts:56-59 | the unique user with that username, or nothing exactly when the name is free |
| Storage.DatabaseStorage.CreateUser | server/storage.ts:61-70 | a free username adds exactly one user under a fresh id; a taken one is refused by the unique column and changes nothing |
| Storage.DatabaseStorage.GetDevices | server/storage.ts:72-74 | every device once, most recently seen first and never-seen devices first of all |
| Storage.DatabaseStorage.GetDevice | server/storage.ts:76-79 | the device with that id, or nothing when there is none |
| Storage.DatabaseStorage.GetDeviceByIdentifier | server/storage.ts:81-84 | the unique device with that identifier, or nothing exactly when the identifier is free |
| Storage.DatabaseStorage.CreateDevice | server/storage.ts:86-92 | a free identifier adds exactly one device under a fresh id; a taken one is refused by the unique column and changes nothing |
| Storage.DatabaseStorage.UpdateDeviceLastSeen | server/storage.ts:94-99 | only `lastSeenAt` of the matching device changes, to now; every other row is unchanged |
| Storage.DatabaseStorage.UpdateDeviceFirmware | server/storage.ts:101-106 | only `currentFirmwareId` of the matching device changes; every other row is unchanged |
| Storage.DatabaseStorage.GetFirmware | server/storage.ts:108-110 | every firmware record once, newest first |
| Storage.DatabaseStorage.GetFirmwareById | server/storage.ts:112-115 | the firmware with that id, or nothing when there is none |
| Storage.DatabaseStorage.CreateFirmware | server/storage.ts:117-123 | exactly one firmware record is added under a fresh id, carrying the server-computed path, digest and HMAC |
| Storage.DatabaseStorage.GetFirmwareByDeviceGroup | server/storage.ts:125-131 | exactly the firmware records targeting that group, each once, newest first |
| Storage.DatabaseStorage.GetUpdateJobs | server/storage.ts:133-135 | every update job once, newest first |
| Storage.DatabaseStorage.GetUpdateJob | server/storage.ts:137-140 | the job with that id, or nothing when there is none |
| Storage.DatabaseStorage.CreateUpdateJob | server/storage.ts:142-148 | exactly one job is added under a fresh id, with the schema defaults |
| Storage.DatabaseStorage.UpdateUpdateJobProgress | server/storage.ts:150-160 | the job table becomes the one-row progress update of the old table (no check of the values), and the write is logged |
| Storage.DatabaseStorage.UpdateUpdateJobStatus | server/storage.ts:162-167 | the job table becomes the one-row status update of the old table with no check of the current status, and the write is logged |
| Storage.DatabaseStorage.CreateAuditLog | server/storage.ts:169-175 | exactly one entry is appended to the audit log under a fresh id |
| Storage.DatabaseStorage.GetAuditLogs | server/storage.ts:177-183 | the first `limit` entries of the log sorted newest first: `min(limit, size)` entries, all from the log, in descending time order |
| Storage.DatabaseStorage.GetStats | server/storage.ts:185-223 | total devices is the device count; active updates counts only in-progress jobs; firmware versions counts only active firmware; the success rate is completed over completed-or-failed jobs, at most 100.0 |
| Progression.RoundedPercent | server/routes.ts:292 | `Math.round(i / n * 100)` is the integer nearest `100 i / n`, halves rounded up |
| Progression.PercentMonotone | server/routes.ts:292 | the broadcast percentage never decreases as more devices complete |
| Progression.PercentAtEnd | server/routes.ts:292 | the broadcast percentage at the last device is exactly 100 |
| Progression.PercentRange | server/routes.ts:292 | every broadcast percentage lies in [0, 100] |
| Progression.ProgressionWrites | server/routes.ts:285-299 | the scheduled body issues `n + 2` writes: the start, one per device, the end |
| Progression.ProgressionEvents | server/routes.ts:285-299 | the scheduled body broadcasts `n + 2` messages: the start, one per device, the end |
| Progression.ProgressionWriteOrder | server/routes.ts:285-299 | `in_progress` is written before any device write and `completed` after the last; every write is to the job; no write is failed or cancelled; every device write stores failed 0, completed between 1 and n, and progress 100 |
| Progression.StepOutcome | server/routes.ts:286-295 | after loop step `i` only the job's row has changed, to status in_progress and, once a device is done, the counters of step `i` |
| Progression.StepCounters | server/routes.ts:290-294 | after loop step `i` the stored completed count is `i`, at most the job's total; the stored progress is the literal 100 and nothing has failed |
| Progression.ProgressionOutcome | server/routes.ts:285-299 | the body leaves only the job's row changed: completed, with n completed devices, 0 failed and stored progress 100, or with its counters untouched when there are no devices |
| Progression.ProgressionEventOrder | server/routes.ts:285-299 | subscribers see in_progress first and completed last, and in between one report per device whose completed count is the step and whose percentage lies in [0, 100], never decreases and reaches 100 at the last device |
| Routes.MasterKey | server/routes.ts:138 | the HMAC key is the environment's master key, or the development default when it is unset or empty |
| Routes.StorageDir | server/services/fileStorage.ts:4 | the blob directory is the environment's, or the default when unset or empty |
| Routes.Client.constructor | server/routes.ts:34 | a new connection has the given ready state and has received nothing |
| Routes.Server.constructor | server/routes.ts:24-32 | the server starts with empty tables, no blobs and no subscribers, with the configured directory and key |
| Routes.Server.Connect | server/routes.ts:34-35 | a connection adds its client to the subscriber set |
| Routes.Server.Close | server/routes.ts:36-38 | closing removes exactly that client; every other subscriber stays |
| Routes.Server.BroadcastJobUpdate | server/routes.ts:42-49 | every subscriber in the open state receives the message once, every other subscriber nothing |
| Routes.Server.Login | server/routes.ts:52-85 | empty credentials are 400; an unknown user or a wrong password is 401 and audits nothing; otherwise a token over the user's id, name and role is returned and exactly one login entry is audited |
| Routes.Server.RegisterUser | server/routes.ts:87-122 | a short password is 400; a taken username is 400; otherwise one user with the hashed password and the requested or default role, and one audit entry, are added |
| Routes.Server.UploadFirmware | server/routes.ts:125-169 | no file is 400 and changes nothing; otherwise the bytes are stored first, then one record whose path, digest and HMAC are over exactly those stored bytes, and one audit entry |
| Routes.Server.StoreFirmware | server/routes.ts:142-159 | the blob is written at its path first, then one firmware row pointing at it under a fresh id and one `firmware_upload` audit entry naming it; every record still has its blob |
| Routes.Server.DownloadFirmware | server/routes.ts:194-210 | an unknown id is 404; a record whose blob is missing is 500; otherwise exactly the stored bytes, named `<name>-<version>.bin` |
| Routes.Server.UploadThenDownload | server/routes.ts:125-210 | downloading a freshly uploaded firmware returns exactly the uploaded bytes |
| Routes.Server.UploadTwiceSameMillisecond | server/routes.ts:142-143 | two uploads of the same name in the same millisecond share one path holding the second's bytes, and the first record's digest then differs from its blob's |
| Routes.FreshPathKeepsDigests | server/routes.ts:134-151 | an upload to an unused path keeps every record's blob present and its digest equal to the digest of the blob's bytes |
| Routes.Server.RegisterDevice | server/routes.ts:223-251 | a taken identifier is 400 and leaves devices and audit log unchanged; otherwise exactly one device and one audit entry are added |
| Routes.Server.TriggerUpdateJob | server/routes.ts:254-283 | an unknown firmware is 404 with no job and no audit entry; otherwise one job with the input's status (pending by default) whose total devices is the number of devices in the firmware's target group, and one audit entry |
| Routes.Server.CountInGroup | server/routes.ts:267 | the length of the filtered device listing is the number of devices in the group |
| Routes.Server.CreateAuditedJob | server/routes.ts:270-282 | exactly one new job under a fresh id, and exactly one audit entry recording the action on that job |
| Routes.Server.WriteAndBroadcast | server/routes.ts:286-298 | one step of the body: the write is applied and logged, then its message goes to the open subscribers |
| Routes.Server.StartJob | server/routes.ts:286-287 | the job goes in_progress and that is broadcast |
| Routes.Server.AdvanceJob | server/routes.ts:290-295 | loop step `i`: stored progress 100 and completed count `i`, broadcast with the rounded percentage |
| Routes.Server.FinishJob | server/routes.ts:297-298 | the job goes completed and that is broadcast, completing the specified writes and broadcasts |
| Routes.Server.RunUpdateJob | server/routes.ts:285-299 | the scheduled body issues exactly the specified writes, in order, and every open subscriber receives exactly the specified messages; nothing else changes |
| Routes.Server.TriggerAndRun | server/routes.ts:254-301 | a trigger followed by its body leaves the job completed with every device of the group completed and none failed, stored progress 100, or 0 when the group is empty |
| Routes.Server.RunStoredJob | server/routes.ts:285-299 | the body run on a freshly stored job leaves it completed, every device completed and none failed, stored progress 100, or 0 when it has no devices |
| Routes.Server.GetUpdateJobStatus | server/routes.ts:311-322 | the job's row with 200 exactly when it exists, otherwise 404 |
| Routes.Server.RollbackUpdateJob | server/routes.ts:334-365 | an unknown job is 404 and changes nothing; otherwise a new pending job copying firmware, transport, strategy and total devices, with fresh counters, and one audit entry |
| Routes.Server.ListAuditLogs | server/routes.ts:379-387 | the 100 newest audit entries (all of them when there are fewer), newest first: the first 100 of the log sorted newest first |
| Auth.JwtSecret | server/middleware/auth.ts:7 | the signing secret is the environment's, or the default when unset or empty; never empty |
| Auth.Claims | server/middleware/auth.ts:13-23 | a token carries the user's id, username and role |
| Auth.Split | server/middleware/auth.ts:27 | `split(' ')` gives at least one field, none containing the separator, and joining them gives the string back |
| Auth.SplitJoin | server/middleware/auth.ts:27 | splitting a join of separator-free fields gives the fields back |
| Auth.SplitCons | server/middleware/auth.ts:27 | a first field without the separator is split off whole, and the rest is split on its own |
| Auth.ExtractToken | server/middleware/auth.ts:26-27 | a token, when there is one, is a non-empty, space-free part of the header, shorter than it; which part is stated by `Auth.SchemeNotChecked` |
| Auth.SchemeNotChecked | server/middleware/auth.ts:27 | whatever the first word, the token is the word between the first space and the next space or the end; an empty one (two spaces in a row) gives no token; later words are ignored |
| Auth.SecondField | server/middleware/auth.ts:27 | for such a header, `split(' ')` has a second field and it is the word after the first space |
| Auth.NoSpaceNoToken | server/middleware/auth.ts:27-31 | a header without a space yields no token |
| Auth.Authenticate | server/middleware/auth.ts:25-41 | no token is exactly the 401 case; a token verification rejects is exactly the 403 case; otherwise the request's user is the verified payload |
| Auth.IssuedTokenAuthenticates | server/middleware/auth.ts:13-41 | the token `generateToken` signs for a user, sent as `Bearer <token>`, authenticates as that user's claims, given that verification gives back whatever was signed and signed tokens are non-empty and space-free |
| Auth.RequireRole | server/middleware/auth.ts:43-55 | passes iff a user is present with the role or admin; no user is 401, the wrong role 403 |
| Auth.SelfChosenAdminPassesEveryGate | shared/schema.ts:109-115 | a user registered with the admin role passes every role gate |
| HexEncoding.ToBase16 | client/src/lib/crypto.ts:48 | `toString(16)` of a byte is one digit below 16 and two digits otherwise |
| HexEncoding.PadStart | client/src/lib/crypto.ts:48 | `padStart` fills with the pad character up to the length and keeps the string at the end |
| HexEncoding.HexByte | client/src/lib/crypto.ts:48 | each byte becomes exactly two lowercase digits, high nibble first |
| HexEncoding.Hex | client/src/lib/crypto.ts:48 | the encoding has exactly two lowercase hex characters per byte |
| HexEncoding.UnhexHex | client/src/lib/crypto.ts:48 | decoding the encoding recovers the bytes |
| HexEncoding.HexUnhex | client/src/lib/crypto.ts:48 | encoding the decoding of a lowercase hex string gives the string back |
| HexEncoding.HexInjective | client/src/lib/crypto.ts:48 | distinct byte strings have distinct encodings |
| ClientCrypto.RelativeIndex | client/src/lib/crypto.ts:35-36 | a `slice` index counts from the end when negative; one past the end becomes the length and one before the start becomes 0 |
| ClientCrypto.Slice | client/src/lib/crypto.ts:35-36 | `slice(start, end)` with in-range indices is that range, a negative index counts from the end, an omitted end means the end, and an empty or inverted range gives nothing |
| ClientCrypto.TagSplit | client/src/lib/crypto.ts:33-36 | ciphertext followed by tag is always the encryption output; with at least 16 bytes the tag is the last 16 and the ciphertext the rest |
| ClientCrypto.RandomBytes | client/src/lib/crypto.ts:18 | the IV source gives exactly the requested number of bytes |
| ClientCrypto.EncryptFile | client/src/lib/crypto.ts:2-43 | the IV has 12 bytes; ciphertext and tag together are the AES-GCM output for that key, IV and file; the tag has 16 bytes whenever the output does |
| ClientCrypto.GenerateSha256 | client/src/lib/crypto.ts:45-49 | the fingerprint is lowercase hex, two characters per digest byte (64 for SHA-256), and decodes back to the digest |
| ClientCrypto.BinaryString | client/src/lib/crypto.ts:51-56 | the string built before base64 has one character per byte, whose code is that byte |
| FileSelection.Lower | client/src/components/ui/file-upload.tsx:63 | lowering keeps the length and leaves no capital letter |
| FileSelection.LowerIdempotent | client/src/components/ui/file-upload.tsx:63 | lowering an already lowered name changes nothing |
| FileSelection.EndsWithIff | client/src/components/ui/file-upload.tsx:63 | `endsWith(t)` holds exactly when the string is something followed by `t` |
| FileSelection.RemoveFirst | client/src/components/ui/file-upload.tsx:63 | `replace(".", "")` removes one dot when there is one and otherwise keeps the string |
| FileSelection.RemoveFirstSplit | client/src/components/ui/file-upload.tsx:63 | only the first dot goes; everything after it, later dots included, is kept |
| FileSelection.Megabytes | client/src/components/ui/file-upload.tsx:59 | the alert's megabyte figure is the limit in MiB rounded to the nearest integer, halves up |
| FileSelection.CheckFile | client/src/components/ui/file-upload.tsx:57-66 | a file is too large exactly when over the limit (whatever its name); of the right size, it is refused exactly when its name fails the extension test; it is taken exactly when it passes both; each refusal carries its alert |
| FileSelection.DefaultChecks | client/src/components/ui/file-upload.tsx:58-66 | with the defaults, "FW.BIN" and "firmwarebin" pass, "fw.bin.exe" is refused, and the size alert names 50MB |
| FileSelection.DefaultMatches | client/src/components/ui/file-upload.tsx:63 | the default filter lets "FW.BIN" and "firmwarebin" through and refuses "fw.bin.exe" |
| FileSelection.DefaultSizeAlert | client/src/components/ui/file-upload.tsx:59 | the alert for the default limit says 50MB |
| FileSelection.DefaultAcceptIff | client/src/components/ui/file-upload.tsx:63 | a name passes the default filter exactly when, lowered, it ends in "bin" |
| FileSelection.CapitalFilterRefusesAll | client/src/components/ui/file-upload.tsx:63 | a filter with a capital letter after its first dot accepts no file |
| FileSelection.FileUpload.constructor | client/src/components/ui/file-upload.tsx:15-24 | omitted props default to ".bin", 50 MiB and enabled; no file selected, nothing handed on |
| FileSelection.FileUpload.HandleFileSelection | client/src/components/ui/file-upload.tsx:57-70 | an accepted file becomes the selection and is handed on once; a refused one only raises its alert; only accepted files are ever handed on |
| FileSelection.FileUpload.HandleDrop | client/src/components/ui/file-upload.tsx:38-48 | the highlight always goes; when disabled or given no files nothing else changes; otherwise only the first file is checked |
| FileSelection.FileUpload.HandleFileChange | client/src/components/ui/file-upload.tsx:50-55 | a missing or empty list changes nothing; otherwise only the first file is checked |
| FileSelection.FileUpload.HandleRemoveFile | client/src/components/ui/file-upload.tsx:72-77 | the selection is cleared and the input's value reset |
| FileSelection.FileUpload.HandleDragOver | client/src/components/ui/file-upload.tsx:26-31 | the highlight comes on unless the widget is disabled |
| FileSelection.FileUpload.HandleDragLeave | client/src/components/ui/file-upload.tsx:33-36 | the highlight goes |
| DeviceStatus.StatusBadge | client/src/pages/DeviceManagement.tsx:87-100 | no timestamp is "Never seen"; online exactly when the timestamp is later than five minutes before now; offline otherwise; the three outcomes are exclusive and exhaustive |
| DeviceStatus.StatusBoundaries | client/src/pages/DeviceManagement.tsx:92-98 | seen exactly five minutes ago is offline, one millisecond later online, and a future time online |
| DeviceStatus.StatusAging | client/src/pages/DeviceManagement.tsx:92-98 | as time passes a device can only go from online to offline, never back |

## Left out

- Timers and concurrency: the one-second and two-second delays of the scheduled body, and other requests or other jobs interleaving with it, are not modelled. `Routes.Server.TriggerAndRun` runs the body directly after the trigger.
- The request-body validation of the zod insert schemas, apart from the password length: inputs arrive typed. The 400 "Validation error" answers of upload, device registration and trigger for malformed bodies are therefore not modelled.
- The 500 answers for exceptions the database, bcrypt or the filesystem might throw. The one 500 modelled is the download of a record whose blob is missing.
- Routes.Server.Login: a missing username or password is modelled as the empty string.
- Storage.DatabaseStorage.CreateUser: a unique-constraint violation is modelled as `None` rather than an exception. The same holds for `CreateDevice`.
- Ids: `gen_random_uuid()` is modelled as a counter that hands out fresh ids.
- Storage.SuccessRateTenths: the floating-point `Math.round(x * 10) / 10` is modelled exactly as an integer in tenths of a percent, without float error.
- Progression.RoundedPercent: computed exactly on rationals, without the float error of `i / n * 100`.
- SHA-256, HMAC-SHA256, AES-GCM key generation and encryption, bcrypt, and JWT signing, verification and expiry are parameters of the model. The JWT secret is folded into them.
- The `metadata` jsonb column of devices and the free-form shape of audit `details` are left out. Details are a datatype with one variant per audited action.
- `server/services/crypto.ts` is not part of this model. The upload route never calls it and stores the plaintext.
- `path.join` normalisation: the storage path is the directory, a slash and the file name.
- The directory creation and the file I/O of the blob store: the store is a map from path to bytes.
- multer's 50 MB request limit is not modelled.
- ClientCrypto.BinaryString: `btoa` (base64) is not modelled, only the byte-to-character loop before it.
- FileSelection.Lower: only ASCII letters are lowered. Unicode case mapping is not modelled.
- FileSelection.FileUpload.HandleRemoveFile: the null check of the input ref is not modelled. The input is always mounted.
- The click handler that opens the browser's file dialog, and all React rendering, are left out.
- DeviceStatus.StatusBadge: parsing the stored timestamp string is a parameter. An unparseable date (NaN time) is modelled as `None`, which classifies as offline.
- The pass-through GET routes for devices, firmware and jobs, and for stats, only return the storage listings. They are modelled by the corresponding `Storage.DatabaseStorage` methods.
- The messages are datatypes, not their JSON text.
